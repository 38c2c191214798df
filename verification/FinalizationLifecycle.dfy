/**
 The life of a finalization: the transition policy of its record, and the writer's
 success path, which reads the admitted start time and later commits, among all other
 transitions of the same store.

 Every finalization has an item of its own, and a session points to its current one.
 Items and pointers expire apart, so that an item can outlive the pointer to it, and the
 session can go on to another finalization meanwhile.
 */
module FinalizationLifecycle {

  datatype Option<+T> = None | Some(value: T)

  datatype Phase =
    | Pending(queuedAt: nat)
    | Running(queuedAt: nat, startedAt: nat)
    | Succeeded(queuedAt: nat, startedAt: nat, completedAt: nat)
    | Failed(queuedAt: nat, began: Option<nat>, failedAt: nat)
    | TimedOut(queuedAt: nat, began: Option<nat>, timeoutAt: nat)

  datatype Record = Record(id: nat, phase: Phase)

  predicate IsTerminal(p: Phase) {
    p.Succeeded? || p.Failed? || p.TimedOut?
  }

  datatype Command =
    | Queue(id: nat, queuedAt: nat)
    | Start(id: nat, queuedAt: nat, startedAt: nat)
    | Succeed(id: nat, queuedAt: nat, startedAt: nat, completedAt: nat, canonical: bool)
    | Fail(id: nat, queuedAt: nat, began: Option<nat>, failedAt: nat)
    | TimeOut(id: nat, queuedAt: nat, began: Option<nat>, timeoutAt: nat)
    | Cancel(id: nat, queuedAt: nat, began: Option<nat>, failedAt: nat)

  datatype Outcome = Applied(phase: Phase) | Idempotent | Rejected | Invalid

  predicate InOrder(queuedAt: nat, began: Option<nat>, end: nat) {
    match began
    case None => queuedAt <= end
    case Some(startedAt) => queuedAt <= startedAt <= end
  }

  /** The phase a command asks for, if its times are in order. */
  function Requested(c: Command): Option<Phase> {
    match c
    case Queue(_, q) => Some(Pending(q))
    case Start(_, q, s) => if q <= s then Some(Running(q, s)) else None
    case Succeed(_, q, s, e, _) => if q <= s <= e then Some(Succeeded(q, s, e)) else None
    case Fail(_, q, began, e) => if InOrder(q, began, e) then Some(Failed(q, began, e)) else None
    case TimeOut(_, q, began, e) => if InOrder(q, began, e) then Some(TimedOut(q, began, e)) else None
    case Cancel(_, q, began, e) => if InOrder(q, began, e) then Some(Failed(q, began, e)) else None
  }

  predicate SameStatus(a: Phase, b: Phase) {
    (a.Succeeded? && b.Succeeded?) || (a.Failed? && b.Failed?) || (a.TimedOut? && b.TimedOut?)
  }

  /** What the present record says about a request before it is weighed on its own. */
  function PriorOutcome(record: Option<Record>, c: Command, next: Phase): Option<Outcome> {
    if c.Cancel? && (record.None? || record.value.id != c.id || IsTerminal(record.value.phase)) then Some(Rejected)
    else if !c.Cancel? && record.Some? && record.value.id == c.id && IsTerminal(record.value.phase) then
      Some(if SameStatus(record.value.phase, next) then Idempotent else Rejected)
    else if record.Some? && record.value.id != c.id then Some(Rejected)
    else None
  }

  /** The scenario context comes with a queue command or is already stored. */
  function Evaluate(record: Option<Record>, c: Command): Outcome {
    match Requested(c)
    case None => Invalid
    case Some(next) =>
      match PriorOutcome(record, c, next)
      case Some(outcome) => outcome
      case None =>
        if c.Succeed? && !c.canonical then Invalid
        else if record.None? && !c.Queue? then Invalid
        else if record.Some? && record.value.phase == next then Idempotent
        else Applied(next)
  }

  /** Whatever the command, a terminal record of the same finalization stays as it is. */
  lemma TerminalIsSticky(record: Record, c: Command)
    requires IsTerminal(record.phase)
    ensures !Evaluate(Some(record), c).Applied?
  {
  }

  /** A finalization that succeeded was running at this time, from its own admission. */
  datatype Admission = Admission(session: nat, id: nat, queuedAt: nat, startedAt: nat)

  /** A success event with the start time that was read for it. */
  datatype Bound = Bound(session: nat, id: nat, queuedAt: nat, startedAt: nat, completedAt: nat)

  /** The items, by session and finalization, and the finalization that each session points to. */
  datatype State = State(
    current: map<nat, nat>, items: map<(nat, nat), Phase>, admitted: set<Admission>, bound: map<nat, Bound>)

  const EMPTY := State(map[], map[], {}, map[])

  /** The current finalization of the session. */
  function RecordOf(s: State, session: nat): Option<Record> {
    if session in s.current && (session, s.current[session]) in s.items
    then Some(Record(s.current[session], s.items[(session, s.current[session])])) else None
  }

  /** A write fails where the pointer leads nowhere, and where an item is left that nothing points to. */
  predicate Blocked(s: State, session: nat, id: nat) {
    if session in s.current then (session, s.current[session]) !in s.items else (session, id) in s.items
  }

  /** The start time the store holds for this finalization and queue time, be it still the current one or not. */
  function AdmittedStartedAt(s: State, session: nat, id: nat, queuedAt: nat): Option<nat> {
    if (session, id) !in s.items || s.items[(session, id)].queuedAt != queuedAt then None
    else
      match s.items[(session, id)]
      case Running(_, startedAt) => Some(startedAt)
      case Succeeded(_, startedAt, _) => Some(startedAt)
      case _ => None
  }

  datatype CommitResult = Commit | Retain | Refuse

  /** Another finalization or a failure is retained; a live record must agree with the event; a success is replayed. */
  function CommitDecision(record: Option<Record>, b: Bound): CommitResult {
    if !(b.queuedAt <= b.startedAt <= b.completedAt) then Refuse
    else if record.None? then Commit
    else
      var r := record.value;
      if r.id != b.id || r.phase.Failed? || r.phase.TimedOut? then Retain
      else
        match r.phase
        case Succeeded(q, s, e) =>
          if Succeeded(q, s, e) == Succeeded(b.queuedAt, b.startedAt, b.completedAt) then Retain else Refuse
        case Running(q, s) => if q == b.queuedAt && s == b.startedAt then Commit else Refuse
        case Pending(q) => if q == b.queuedAt then Commit else Refuse
  }

  datatype Action =
    | Transition(session: nat, command: Command)
    | DropPointer(session: nat)
    | DropItem(session: nat, id: nat)
    | Bind(inv: nat, session: nat, id: nat, queuedAt: nat, completedAt: nat)
    | CommitBound(inv: nat)
    | Abandon(inv: nat)

  predicate Enabled(s: State, a: Action) {
    match a
    case Transition(_, c) => !c.Succeed?
    case DropPointer(_) => true
    case DropItem(_, _) => true
    case Bind(inv, session, id, queuedAt, _) =>
      inv !in s.bound && AdmittedStartedAt(s, session, id, queuedAt).Some?
    case CommitBound(inv) => inv in s.bound
    case Abandon(inv) => true
  }

  /** The pointer and the item are written together. */
  function Write(s: State, session: nat, id: nat, phase: Phase): State {
    var t := s.(current := s.current[session := id], items := s.items[(session, id) := phase]);
    if Blocked(s, session, id) then s
    else if !phase.Running? then t
    else t.(admitted := t.admitted + {Admission(session, id, phase.queuedAt, phase.startedAt)})
  }

  function Apply(s: State, a: Action): State
    requires Enabled(s, a)
  {
    match a
    case Transition(session, c) =>
      (match Evaluate(RecordOf(s, session), c)
       case Applied(phase) => Write(s, session, c.id, phase)
       case _ => s)
    case DropPointer(session) => s.(current := s.current - {session})
    case DropItem(session, id) => s.(items := s.items - {(session, id)})
    case Bind(inv, session, id, queuedAt, completedAt) =>
      var startedAt := AdmittedStartedAt(s, session, id, queuedAt).value;
      s.(bound := s.bound[inv := Bound(session, id, queuedAt, startedAt, completedAt)])
    case CommitBound(inv) =>
      var b := s.bound[inv];
      var t := s.(bound := s.bound - {inv});
      if CommitDecision(RecordOf(s, b.session), b).Commit?
      then Write(t, b.session, b.id, Succeeded(b.queuedAt, b.startedAt, b.completedAt)) else t
    case Abandon(inv) => s.(bound := s.bound - {inv})
  }

  predicate IsRun(s: State, actions: seq<Action>)
    decreases |actions|
  {
    actions == [] || (Enabled(s, actions[0]) && IsRun(Apply(s, actions[0]), actions[1..]))
  }

  function After(s: State, actions: seq<Action>): State
    requires IsRun(s, actions)
    decreases |actions|
  {
    if actions == [] then s else After(Apply(s, actions[0]), actions[1..])
  }

  ghost predicate ItemOk(s: State, key: (nat, nat)) {
    key in s.items && (s.items[key].Running? || s.items[key].Succeeded?) ==>
      Admission(key.0, key.1, s.items[key].queuedAt, s.items[key].startedAt) in s.admitted
  }

  ghost predicate BoundOk(s: State, inv: nat) {
    inv in s.bound ==>
      var b := s.bound[inv]; Admission(b.session, b.id, b.queuedAt, b.startedAt) in s.admitted
  }

  ghost predicate Inv(s: State) {
    (forall key :: ItemOk(s, key)) && (forall inv :: BoundOk(s, inv))
  }

  lemma InvStays(s: State, a: Action)
    requires Inv(s) && Enabled(s, a)
    ensures Inv(Apply(s, a))
  {
    var n := Apply(s, a);
    forall inv ensures BoundOk(n, inv) {
      assert BoundOk(s, inv);
      if a.Bind? {
        assert ItemOk(s, (a.session, a.id));
      }
    }
    forall key ensures ItemOk(n, key) {
      assert ItemOk(s, key);
      if a.CommitBound? {
        assert BoundOk(s, a.inv);
      }
    }
  }

  /** Taken in this state, the action starts the finalization and is applied. */
  predicate AdmitsIn(s: State, a: Action, m: Admission) {
    a == Transition(m.session, Start(m.id, m.queuedAt, m.startedAt))
    && Evaluate(RecordOf(s, m.session), a.command) == Applied(Running(m.queuedAt, m.startedAt))
  }

  /** The `i`th action of the run applied a start that admitted the finalization as running. */
  ghost predicate AdmittedAt(s: State, actions: seq<Action>, m: Admission, i: nat) {
    i < |actions| && IsRun(s, actions[..i]) && AdmitsIn(After(s, actions[..i]), actions[i], m)
  }

  lemma LaterInRun(s: State, actions: seq<Action>, m: Admission, i: nat)
    requires actions != [] && Enabled(s, actions[0]) && AdmittedAt(Apply(s, actions[0]), actions[1..], m, i)
    ensures AdmittedAt(s, actions, m, i + 1)
  {
    assert actions[..i + 1][1..] == actions[1..][..i] && actions[..i + 1][0] == actions[0];
  }

  lemma {:induction false} AdmissionsAreStarts(s: State, actions: seq<Action>, m: Admission)
    requires Inv(s) && IsRun(s, actions)
    ensures Inv(After(s, actions))
    ensures m in After(s, actions).admitted && m !in s.admitted ==> exists i :: AdmittedAt(s, actions, m, i)
    decreases |actions|
  {
    if actions != [] {
      var n := Apply(s, actions[0]);
      InvStays(s, actions[0]);
      AdmissionsAreStarts(n, actions[1..], m);
      if m in After(s, actions).admitted && m !in s.admitted {
        if m in n.admitted {
          assert AdmittedAt(s, actions, m, 0);
        } else {
          var i :| AdmittedAt(n, actions[1..], m, i);
          LaterInRun(s, actions, m, i);
        }
      }
    }
  }

  /**
   In every run, a finalization that succeeded, current or superseded, was earlier started
   by an applied RUNNING update, as the same finalization of the same session with the
   same queue time, and its start time is the one admitted then.
   */
  lemma SuccessNeedsAdmission(actions: seq<Action>, session: nat, id: nat)
    requires IsRun(EMPTY, actions)
    requires (session, id) in After(EMPTY, actions).items && After(EMPTY, actions).items[(session, id)].Succeeded?
    ensures var p := After(EMPTY, actions).items[(session, id)];
      exists i :: AdmittedAt(EMPTY, actions, Admission(session, id, p.queuedAt, p.startedAt), i)
  {
    var p := After(EMPTY, actions).items[(session, id)];
    AdmissionsAreStarts(EMPTY, actions, Admission(session, id, p.queuedAt, p.startedAt));
    assert ItemOk(After(EMPTY, actions), (session, id));
  }

  /** A committed success is never changed, not even where nothing points to it any longer; it can only expire. */
  lemma SuccessIsKept(s: State, a: Action, session: nat, id: nat)
    requires Enabled(s, a) && (session, id) in s.items && s.items[(session, id)].Succeeded?
    ensures a == DropItem(session, id)
      || ((session, id) in Apply(s, a).items && Apply(s, a).items[(session, id)] == s.items[(session, id)])
  {
    if a.Transition? && RecordOf(s, a.session).Some? {
      if a.session == session && RecordOf(s, session).value.id == id {
        TerminalIsSticky(RecordOf(s, session).value, a.command);
      }
    }
  }
}
