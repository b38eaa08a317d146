/** The observer list: a subject keeps its observers in attachment order,
    without duplicates, and broadcasts an event to each of them in that
    order. Observers are compared by identity, so each one is a handle into
    a world of observer states; a broadcast returns the updated world.

    Two observers exist: a notification log and an e-mail notifier. The
    employee subject builds the payloads of three events.
 */
module Observers {
  import opened Outcomes
  import opened Employees

  /** A payload value: a salary or a text. */
  datatype Value = Amount(amount: real) | Label(text: string)

  /** The dictionary an event carries. `oldValue` is absent from status
      events; `message` is the human-readable line. */
  datatype Payload = Payload(
    employeeId: int, employeeName: string,
    oldValue: Option<Value>, newValue: Value, message: string)

  /** One entry of the notification log; the wall-clock timestamp of the
      source is not modelled. */
  datatype Notification = Notification(eventType: string, data: Payload)

  /** One recorded e-mail; the body, a rendering of the payload, is not
      modelled. */
  datatype Email = Email(to: string, subject: string, eventType: string)

  datatype Observer =
    | NotificationSystem(notifications: seq<Notification>)
    | EmailNotifier(address: string, sentEmails: seq<Email>)

  /** Observer identities and their current states. */
  type World = map<nat, Observer>

  const EmailSubjectPrefix: string := "Уведомление: "

  /** `update`: the log records the event; the notifier records one e-mail
      to its own address whose subject names the event. */
  function Update(o: Observer, eventType: string, data: Payload): (r: Observer)
    ensures r.NotificationSystem? <==> o.NotificationSystem?
    ensures o.NotificationSystem? ==> r.notifications == o.notifications + [Notification(eventType, data)]
    ensures o.EmailNotifier? ==> && r.address == o.address
                                 && r.sentEmails == o.sentEmails + [Email(o.address, EmailSubjectPrefix + eventType, eventType)]
  {
    match o
    case NotificationSystem(log) => NotificationSystem(log + [Notification(eventType, data)])
    case EmailNotifier(address, sent) =>
      EmailNotifier(address, sent + [Email(address, EmailSubjectPrefix + eventType, eventType)])
  }

  // ---------------------------------------------------------------------
  // The observer list

  predicate NoDuplicates(s: seq<nat>) {
    forall i, j :: 0 <= i < j < |s| ==> s[i] != s[j]
  }

  /** `attach`: an observer already in the list is not added again. */
  function Attach(s: seq<nat>, h: nat): (r: seq<nat>)
    ensures h in r
    ensures forall x :: x in r <==> x in s || x == h
    ensures h in s ==> r == s
    ensures h !in s ==> |r| == |s| + 1 && r[..|s|] == s
    ensures NoDuplicates(s) ==> NoDuplicates(r)
  {
    if h in s then s else s + [h]
  }

  /** Where an observer first stands in the list. */
  function FirstPosition(s: seq<nat>, h: nat): (k: nat)
    requires h in s
    ensures k < |s| && s[k] == h && h !in s[..k]
  {
    if s[0] == h then 0
    else
      assert s == [s[0]] + s[1..];
      var k := FirstPosition(s[1..], h) + 1;
      assert s[..k] == [s[0]] + s[1..][..k - 1];
      k
  }

  /** `detach`: an absent observer changes nothing; otherwise its first
      occurrence leaves and the others keep their order. */
  function Detach(s: seq<nat>, h: nat): (r: seq<nat>)
    ensures h !in s ==> r == s
    ensures h in s ==> |r| == |s| - 1 && exists k :: 0 <= k < |s| && s[k] == h && r == s[..k] + s[k + 1..]
    ensures NoDuplicates(s) ==> NoDuplicates(r) && h !in r
    ensures NoDuplicates(s) ==> forall x :: x in r <==> x in s && x != h
  {
    if h !in s then s
    else
      var k := FirstPosition(s, h);
      RemoveAt(s, k);
      s[..k] + s[k + 1..]
  }

  /** Removing one position keeps every other entry, and in a list without
      duplicates it removes that entry's value altogether. */
  lemma RemoveAt(s: seq<nat>, k: nat)
    requires k < |s|
    ensures var r := s[..k] + s[k + 1..];
            && |r| == |s| - 1
            && (forall x :: x in s ==> x == s[k] || x in r)
            && (forall x :: x in r ==> x in s)
            && (NoDuplicates(s) ==> NoDuplicates(r) && s[k] !in r)
  {
    var r := s[..k] + s[k + 1..];
    assert forall i :: 0 <= i < |r| ==> r[i] == if i < k then s[i] else s[i + 1];
    forall x | x in s
      ensures x == s[k] || x in r
    {
      var i :| 0 <= i < |s| && s[i] == x;
      if i < k { assert r[i] == x; } else if i > k { assert r[i - 1] == x; }
    }
  }

  /** Attaching twice is attaching once. */
  lemma AttachIdempotent(s: seq<nat>, h: nat)
    ensures Attach(Attach(s, h), h) == Attach(s, h)
  {
  }

  /** Attaching a new observer and detaching it again restores the list. */
  lemma AttachThenDetach(s: seq<nat>, h: nat)
    requires h !in s
    ensures Detach(Attach(s, h), h) == s
  {
    var a := Attach(s, h);
    var k := FirstPosition(a, h);
    assert a[|s|] == h;
    assert a[..k] + a[k + 1..] == s;
  }

  // ---------------------------------------------------------------------
  // Broadcast

  /** What a broadcast leaves behind: the observers' new states, and the
      order in which they were called. */
  datatype Broadcast = Broadcast(world: World, calls: seq<nat>)

  /** `notify`: each listed observer's `update` is called, in list order. */
  function Notify(world: World, s: seq<nat>, eventType: string, data: Payload): (r: Broadcast)
    requires forall h :: h in s ==> h in world
    ensures r.calls == s
    ensures r.world.Keys == world.Keys
    ensures forall h :: h in world && h !in s ==> r.world[h] == world[h]
    ensures NoDuplicates(s) ==> forall h :: h in s ==> r.world[h] == Update(world[h], eventType, data)
    decreases |s|
  {
    if |s| == 0 then Broadcast(world, [])
    else
      var h := s[0];
      var rest := Notify(world[h := Update(world[h], eventType, data)], s[1..], eventType, data);
      assert s == [h] + s[1..];
      assert NoDuplicates(s) ==> h !in s[1..] && NoDuplicates(s[1..]) by {
        if NoDuplicates(s) {
          forall j | 0 <= j < |s[1..]|
            ensures s[1..][j] != h
          {
            assert s[j + 1] != s[0];
          }
          forall i, j | 0 <= i < j < |s[1..]|
            ensures s[1..][i] != s[1..][j]
          {
            assert s[i + 1] != s[j + 1];
          }
        }
      }
      Broadcast(rest.world, [h] + rest.calls)
  }

  /** A detached observer hears nothing of later broadcasts, while every
      observer that stays hears each of them exactly once. */
  lemma DetachedHearsNothing(world: World, s: seq<nat>, h: nat, eventType: string, data: Payload)
    requires NoDuplicates(s) && h in world
    requires forall x :: x in s ==> x in world
    ensures var b := Notify(world, Detach(s, h), eventType, data);
            && b.world[h] == world[h]
            && forall x :: x in s && x != h ==> b.world[x] == Update(world[x], eventType, data)
  {
  }

  // ---------------------------------------------------------------------
  // The notification log

  /** `get_notifications_by_type`: the entries of that type, in log order. */
  function ByType(log: seq<Notification>, eventType: string): (r: seq<Notification>)
    ensures |r| <= |log|
    ensures forall n :: n in r <==> n in log && n.eventType == eventType
  {
    if |log| == 0 then []
    else
      var rest := ByType(log[..|log| - 1], eventType);
      assert log == log[..|log| - 1] + [log[|log| - 1]];
      if log[|log| - 1].eventType == eventType then rest + [log[|log| - 1]] else rest
  }

  /** Logging one more entry extends the filtered view by that entry when
      it has the type, and leaves it alone otherwise. */
  lemma ByTypeAppend(log: seq<Notification>, n: Notification, eventType: string)
    ensures ByType(log + [n], eventType) ==
              ByType(log, eventType) + (if n.eventType == eventType then [n] else [])
  {
    assert (log + [n])[..|log|] == log;
  }

  /** Filtering an already filtered log by the same type changes nothing. */
  lemma {:induction false} ByTypeIdempotent(log: seq<Notification>, eventType: string)
    ensures ByType(ByType(log, eventType), eventType) == ByType(log, eventType)
    decreases |log|
  {
    if |log| > 0 {
      var init := log[..|log| - 1];
      var last := log[|log| - 1];
      assert log == init + [last];
      ByTypeIdempotent(init, eventType);
      if last.eventType == eventType {
        ByTypeAppend(ByType(init, eventType), last, eventType);
      }
    }
  }

  /** `clear_notifications`: the log is emptied. */
  function ClearNotifications(o: Observer): (r: Observer)
    requires o.NotificationSystem?
    ensures r.NotificationSystem? && |r.notifications| == 0
  {
    NotificationSystem([])
  }

  /** After a clear the log holds exactly what was delivered since. */
  lemma ClearThenUpdate(o: Observer, eventType: string, data: Payload)
    requires o.NotificationSystem?
    ensures Update(ClearNotifications(o), eventType, data).notifications == [Notification(eventType, data)]
    ensures ByType(Update(ClearNotifications(o), eventType, data).notifications, eventType) ==
              [Notification(eventType, data)]
  {
    ByTypeAppend([], Notification(eventType, data), eventType);
  }

  // ---------------------------------------------------------------------
  // The employee subject

  datatype EmployeeSubject = EmployeeSubject(employee: Employee, observers: seq<nat>)

  const SalaryChanged: string := "salary_changed"
  const DepartmentChanged: string := "department_changed"
  const StatusChanged: string := "status_changed"

  /** The payload of `notify_salary_change`. */
  function SalaryPayload(e: Employee, oldSalary: real, newSalary: real): (r: Payload)
    ensures r.employeeId == e.id && r.employeeName == e.name
    ensures r.oldValue == Some(Amount(oldSalary)) && r.newValue == Amount(newSalary)
  {
    Payload(e.id, e.name, Some(Amount(oldSalary)), Amount(newSalary),
            "Зарплата сотрудника " + e.name + " изменена")
  }

  /** The payload of `notify_department_change`. */
  function DepartmentPayload(e: Employee, oldDepartment: string, newDepartment: string): (r: Payload)
    ensures r.employeeId == e.id && r.employeeName == e.name
    ensures r.oldValue == Some(Label(oldDepartment)) && r.newValue == Label(newDepartment)
  {
    Payload(e.id, e.name, Some(Label(oldDepartment)), Label(newDepartment),
            "Сотрудник " + e.name + " переведен в отдел " + newDepartment)
  }

  /** The payload of `notify_status_change`: no old value. */
  function StatusPayload(e: Employee, status: string): (r: Payload)
    ensures r.employeeId == e.id && r.employeeName == e.name
    ensures r.oldValue.None? && r.newValue == Label(status)
  {
    Payload(e.id, e.name, None, Label(status), "Статус сотрудника " + e.name + " изменен на " + status)
  }

  function NotifySalaryChange(world: World, s: EmployeeSubject, oldSalary: real, newSalary: real): Broadcast
    requires forall h :: h in s.observers ==> h in world
  {
    Notify(world, s.observers, SalaryChanged, SalaryPayload(s.employee, oldSalary, newSalary))
  }

  function NotifyDepartmentChange(world: World, s: EmployeeSubject, oldDepartment: string, newDepartment: string): Broadcast
    requires forall h :: h in s.observers ==> h in world
  {
    Notify(world, s.observers, DepartmentChanged, DepartmentPayload(s.employee, oldDepartment, newDepartment))
  }

  function NotifyStatusChange(world: World, s: EmployeeSubject, status: string): Broadcast
    requires forall h :: h in s.observers ==> h in world
  {
    Notify(world, s.observers, StatusChanged, StatusPayload(s.employee, status))
  }

  /** A salary change reaches an attached log as one salary entry carrying
      the employee and both salaries; the log's department entries are
      untouched. */
  lemma SalaryChangeLogged(world: World, s: EmployeeSubject, h: nat, oldSalary: real, newSalary: real)
    requires NoDuplicates(s.observers) && h in s.observers
    requires forall x :: x in s.observers ==> x in world
    requires world[h].NotificationSystem?
    ensures var log := NotifySalaryChange(world, s, oldSalary, newSalary).world[h].notifications;
            && log == world[h].notifications + [Notification(SalaryChanged, SalaryPayload(s.employee, oldSalary, newSalary))]
            && ByType(log, SalaryChanged) ==
                 ByType(world[h].notifications, SalaryChanged)
                 + [Notification(SalaryChanged, SalaryPayload(s.employee, oldSalary, newSalary))]
            && ByType(log, DepartmentChanged) == ByType(world[h].notifications, DepartmentChanged)
  {
    var n := Notification(SalaryChanged, SalaryPayload(s.employee, oldSalary, newSalary));
    ByTypeAppend(world[h].notifications, n, SalaryChanged);
    ByTypeAppend(world[h].notifications, n, DepartmentChanged);
  }

  /** An attached e-mail notifier records one message per event, sent to
      its own address and tagged with the event type. */
  lemma StatusChangeMailed(world: World, s: EmployeeSubject, h: nat, status: string)
    requires NoDuplicates(s.observers) && h in s.observers
    requires forall x :: x in s.observers ==> x in world
    requires world[h].EmailNotifier?
    ensures var o := NotifyStatusChange(world, s, status).world[h];
            && o.EmailNotifier? && o.address == world[h].address
            && o.sentEmails == world[h].sentEmails
                 + [Email(world[h].address, EmailSubjectPrefix + StatusChanged, StatusChanged)]
  {
  }
}
