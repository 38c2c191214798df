/**
 The finalization writer's handler: normalize the event, bind a success to the start
 time that the store admitted, parse the update strictly, and apply it.  Everyone else
 takes any steps in between.
 */
module FinalizationWriter {
  import opened FinalizationEvents
  import L = FinalizationLifecycle

  function AsNat(v: Option<Json>): Option<nat> {
    match v
    case Some(Number(x)) => if x >= 0.0 && x == x.Floor as real then Some(x.Floor) else None
    case _ => None
  }

  function AsIdentifier(v: Option<Json>): Option<nat> {
    match v case Some(TextValue(Identifier(token))) => Some(token) case _ => None
  }

  function Optional(v: Option<nat>): L.Option<nat> {
    match v case Some(n) => L.Some(n) case None => L.None
  }

  /** A parsed update: the session and the transition it asks for. */
  datatype Parsed = Parsed(session: nat, command: L.Command)

  /** The command is of the update's status and carries its times. */
  ghost predicate Tells(u: Record, c: L.Command) {
    match c
    case Start(_, _, startedAt) =>
      GetText(u, StatusField) == Some(Word(RUNNING)) && AsNat(Lookup(u, StartedAtMs)) == Some(startedAt)
    case Succeed(_, _, startedAt, completedAt, canonical) =>
      GetText(u, StatusField) == Some(Word(SUCCEEDED)) && canonical
      && AsNat(Lookup(u, StartedAtMs)) == Some(startedAt) && AsNat(Lookup(u, CompletedAtMs)) == Some(completedAt)
    case Fail(_, _, began, failedAt) =>
      GetText(u, StatusField) == Some(Word(FAILED)) && began == Optional(AsNat(Lookup(u, StartedAtMs)))
      && AsNat(Lookup(u, FailedAtMs)) == Some(failedAt)
    case TimeOut(_, _, began, timeoutAt) =>
      GetText(u, StatusField) == Some(Word(TIMED_OUT)) && began == Optional(AsNat(Lookup(u, StartedAtMs)))
      && AsNat(Lookup(u, TimeoutAtMs)) == Some(timeoutAt)
    case _ => false
  }

  /** What a parsed update has in common with the fields it was parsed from. */
  ghost predicate Describes(u: Record, p: Parsed) {
    && AsIdentifier(Lookup(u, SessionId)) == Some(p.session)
    && AsIdentifier(Lookup(u, FinalizationId)) == Some(p.command.id)
    && AsNat(Lookup(u, QueuedAtMs)) == Some(p.command.queuedAt)
    && L.Requested(p.command).Some? && Tells(u, p.command)
  }

  /** The strict parser: no unknown field, whole nonnegative times in order, a result for a success, an error for a
      failure. */
  function Parse(u: Record): (p: Option<Parsed>)
    ensures p.Some? ==> Describes(u, p.value)
  {
    var session, id := AsIdentifier(Lookup(u, SessionId)), AsIdentifier(Lookup(u, FinalizationId));
    var queuedAt := AsNat(Lookup(u, QueuedAtMs));
    var status := GetText(u, StatusField);
    if session.None? || id.None? || queuedAt.None? || status.None? || !status.value.Word? then None
    else if !(u.Keys <= COMMON + OwnFields(status.value.status)) then None
    else if StepFunctionsArn in u && GetText(u, StepFunctionsArn).None? then None
    else
      match ParseCommand(u, id.value, queuedAt.value, status.value.status)
      case Some(c) => if L.Requested(c).Some? then Some(Parsed(session.value, c)) else None
      case None => None
  }

  function ParseCommand(u: Record, id: nat, queuedAt: nat, status: EventStatus): (c: Option<L.Command>)
    ensures c.Some? ==> c.value.id == id && c.value.queuedAt == queuedAt
    ensures c.Some? && GetText(u, StatusField) == Some(Word(status)) ==> Tells(u, c.value)
  {
    var startedAt := AsNat(Lookup(u, StartedAtMs));
    var began := Optional(startedAt);
    var startOk := StartedAtMs !in u || startedAt.Some?;
    match status
    case RUNNING => (match startedAt case Some(s) => Some(L.Start(id, queuedAt, s)) case None => None)
    case SUCCEEDED =>
      (match AsNat(Lookup(u, CompletedAtMs))
       case Some(e) =>
         if startedAt.Some? && GetObject(u, FinalizationResult).Some?
         then Some(L.Succeed(id, queuedAt, startedAt.value, e, true)) else None
       case None => None)
    case FAILED =>
      (match AsNat(Lookup(u, FailedAtMs))
       case Some(e) => if startOk && GetObject(u, ErrorField).Some? then Some(L.Fail(id, queuedAt, began, e)) else None
       case None => None)
    case TIMED_OUT =>
      (match AsNat(Lookup(u, TimeoutAtMs))
       case Some(e) => if startOk then Some(L.TimeOut(id, queuedAt, began, e)) else None
       case None => None)
  }

  method ParseUpdate(u: Record) returns (p: Option<Parsed>)
    ensures p.Some? ==> Describes(u, p.value)
  {
    p := Parse(u);
  }

  predicate IsSuccess(u: Record) {
    GetText(u, StatusField) == Some(Word(SUCCEEDED))
  }

  /** The update is bound: same identity, queue time and completion, with the start time that the store gave. */
  predicate BoundTo(u: Record, r: Record, b: L.Bound) {
    && AsIdentifier(Lookup(u, SessionId)) == Some(b.session)
    && AsIdentifier(Lookup(u, FinalizationId)) == Some(b.id)
    && AsNat(Lookup(u, QueuedAtMs)) == Some(b.queuedAt)
    && (AsNat(Lookup(u, CompletedAtMs)).Some? ==> AsNat(Lookup(u, CompletedAtMs)) == Some(b.completedAt))
    && r == u[StartedAtMs := Number(b.startedAt as real)]
  }

  predicate StepOf(a: L.Action, inv: nat) {
    (a.Bind? || a.CommitBound? || a.Abandon?) && a.inv == inv
  }

  lemma {:induction false} RunExtends(s: L.State, run: seq<L.Action>, a: L.Action)
    requires L.IsRun(s, run) && L.Enabled(L.After(s, run), a)
    ensures L.IsRun(s, run + [a]) && L.After(s, run + [a]) == L.Apply(L.After(s, run), a)
    decreases |run|
  {
    if run == [] {
      assert L.IsRun(L.Apply(s, a), []);
    } else {
      RunExtends(L.Apply(s, run[0]), run[1..], a);
      assert (run + [a])[1..] == run[1..] + [a];
    }
  }

  lemma OthersKeep(s: L.State, a: L.Action, inv: nat)
    requires L.Enabled(s, a) && !StepOf(a, inv)
    ensures inv in L.Apply(s, a).bound <==> inv in s.bound
    ensures inv in s.bound ==> L.Apply(s, a).bound[inv] == s.bound[inv]
    ensures s.admitted <= L.Apply(s, a).admitted
  {
  }

  /** The invocation commits in this state: it is bound to just what the update says, and the store does not refuse. */
  ghost predicate CommitsIn(s: L.State, inv: nat, p: Parsed)
    requires p.command.Succeed?
  {
    var c := p.command;
    var b := L.Bound(p.session, c.id, c.queuedAt, c.startedAt, c.completedAt);
    inv in s.bound && s.bound[inv] == b && L.CommitDecision(L.RecordOf(s, p.session), b) != L.Refuse
  }

  /** The last steps of a success: its commit as bound, or the failure of a result without a canonical journal. */
  ghost predicate CommittedOrFailed(run: seq<L.Action>, inv: nat, p: Parsed)
    requires p.command.Succeed?
  {
    var c, n := p.command, |run|;
    || (n > 0 && run[n - 1] == L.CommitBound(inv)
        && L.IsRun(L.EMPTY, run[..n - 1]) && CommitsIn(L.After(L.EMPTY, run[..n - 1]), inv, p))
    || (n > 1 && c.Succeed? && run[n - 1] == L.Abandon(inv)
        && run[n - 2] == L.Transition(p.session, L.Fail(c.id, c.queuedAt, L.Some(c.startedAt), c.completedAt)))
  }

  /** The identity and the times of an update of this status are those of the fields. */
  ghost predicate FieldsTell(u: Record, p: Parsed, status: EventStatus) {
    && AsIdentifier(Lookup(u, SessionId)) == Some(p.session)
    && AsIdentifier(Lookup(u, FinalizationId)) == Some(p.command.id)
    && AsNat(Lookup(u, QueuedAtMs)) == Some(p.command.queuedAt)
    && match status
       case RUNNING => p.command.Start? && AsNat(Lookup(u, StartedAtMs)) == Some(p.command.startedAt)
       case SUCCEEDED => p.command.Succeed? && AsNat(Lookup(u, CompletedAtMs)) == Some(p.command.completedAt)
       case FAILED => p.command.Fail? && AsNat(Lookup(u, FailedAtMs)) == Some(p.command.failedAt)
       case TIMED_OUT => p.command.TimeOut? && AsNat(Lookup(u, TimeoutAtMs)) == Some(p.command.timeoutAt)
  }

  /** The update has the identity and queue time of the event's payload, and the time that the event gives it. */
  ghost predicate IsUpdateFor(p: Parsed, raw: Record, dates: map<Text, int>, bundles: Bundles) {
    if !IsDirect(raw) then
      match GetText(raw, StatusField)
      case Some(Word(status)) => FieldsTell(raw, p, status)
      case _ => false
    else
      && AsIdentifier(Lookup(PayloadOf(raw), SessionId)) == Some(p.session)
      && AsIdentifier(Lookup(PayloadOf(raw), FinalizationId)) == Some(p.command.id)
      && AsNat(Lookup(PayloadOf(raw), QueuedAtMs)) == Some(p.command.queuedAt)
      && match StatusOf(raw)
         case RUNNING =>
           p.command.Start? && AsNat(StartTime(raw, PayloadOf(raw), dates)) == Some(p.command.startedAt)
         case TIMED_OUT =>
           var present := Lookup(PayloadOf(raw), TimeoutAtMs);
           p.command.TimeOut?
           && AsNat(TerminalTime(raw, present, TimeoutAtMs, TimeoutAtIso, dates)) == Some(p.command.timeoutAt)
         case FAILED =>
           var present := Lookup(PayloadOf(raw), FailedAtMs);
           p.command.Fail?
           && AsNat(TerminalTime(raw, present, FailedAtMs, FailedAtIso, dates)) == Some(p.command.failedAt)
         case SUCCEEDED => IsUpdateForSuccess(p, raw, dates, bundles)
  }

  /** A success that is kept completes when the event says; one whose bundle is missing or broken fails then. */
  ghost predicate IsUpdateForSuccess(p: Parsed, raw: Record, dates: map<Text, int>, bundles: Bundles)
    requires IsDirect(raw)
  {
    var completedAt := SuccessTime(raw, PayloadOf(raw), dates);
    && !IsTurnedDown(raw, dates, bundles)
    && if KeepsSuccess(raw, dates, bundles)
       then p.command.Succeed? && AsNat(completedAt) == Some(p.command.completedAt)
       else p.command.Fail? && AsNat(FailureTime(PayloadOf(raw), completedAt)) == Some(p.command.failedAt)
  }

  /** A success stays one with a result of its own, or with the one restored from its bundle. */
  predicate KeepsSuccess(raw: Record, dates: map<Text, int>, bundles: Bundles)
    requires IsDirect(raw)
  {
    match BundleFor(raw, dates, bundles)
    case None => StatusOf(raw) == SUCCEEDED
    case Some(Fetched(_, Restored(_))) => true
    case _ => false
  }

  /** A success is turned down outright when its key is refused or nothing says when it was completed. */
  predicate IsTurnedDown(raw: Record, dates: map<Text, int>, bundles: Bundles)
    requires IsDirect(raw)
  {
    match BundleFor(raw, dates, bundles)
    case Some(KeyRefused) => true
    case Some(NoTime(_)) => true
    case _ => false
  }

  /** An answer for an update that was applied (possibly to no effect), or an error. */
  datatype Response = Applied | Deferred | Failure

  class Store {
    var state: L.State
    ghost var run: seq<L.Action>

    constructor ()
      ensures Valid() && run == []
    {
      state, run := L.EMPTY, [];
    }

    ghost predicate Valid()
      reads this
    {
      L.IsRun(L.EMPTY, run) && state == L.After(L.EMPTY, run)
    }

    method Do(a: L.Action)
      requires Valid() && L.Enabled(state, a)
      modifies this
      ensures Valid() && run == old(run) + [a] && state == L.Apply(old(state), a)
    {
      RunExtends(L.EMPTY, run, a);
      state, run := L.Apply(state, a), run + [a];
    }

    /** Any steps of anyone else. */
    method Others(inv: nat)
      requires Valid()
      modifies this
      ensures Valid() && old(run) <= run && old(state.admitted) <= state.admitted
      ensures inv in state.bound <==> inv in old(state).bound
      ensures inv in state.bound ==> state.bound[inv] == old(state).bound[inv]
    {
      var n: int := *;
      var k := 0;
      while k < n
        invariant Valid() && old(run) <= run && old(state.admitted) <= state.admitted
        invariant inv in state.bound <==> inv in old(state).bound
        invariant inv in state.bound ==> state.bound[inv] == old(state).bound[inv]
      {
        var a: L.Action := *;
        k := k + 1;
        if L.Enabled(state, a) && !StepOf(a, inv) {
          OthersKeep(state, a, inv);
          Do(a);
        }
      }
    }

    /** The start time of a success comes from the store, and replaces whatever the event said. */
    method BindAdmittedStartedAt(inv: nat, u: Record) returns (r: Option<Record>)
      requires Valid() && inv !in state.bound
      modifies this
      ensures Valid() && old(run) <= run
      ensures r.None? || !IsSuccess(u) ==> inv !in state.bound
      ensures !IsSuccess(u) ==> r == Some(u)
      ensures r.Some? && IsSuccess(u) ==>
        inv in state.bound && BoundTo(u, r.value, state.bound[inv])
    {
      Others(inv);
      if !IsSuccess(u) {
        return Some(u);
      }
      var session, id := AsIdentifier(Lookup(u, SessionId)), AsIdentifier(Lookup(u, FinalizationId));
      var queuedAt := AsNat(Lookup(u, QueuedAtMs));
      if session.None? || id.None? || queuedAt.None? {
        return None;
      }
      var completedAt := AsNat(Lookup(u, CompletedAtMs));
      var a := L.Bind(inv, session.value, id.value, queuedAt.value, if completedAt.Some? then completedAt.value else 0);
      if !L.Enabled(state, a) {
        return None;
      }
      Do(a);
      r := Some(u[StartedAtMs := Number(state.bound[inv].startedAt as real)]);
    }

    /** A success whose journal is not canonical fails the finalization; otherwise it is committed as bound. */
    method ApplySucceeded(inv: nat, p: Parsed) returns (response: Response)
      requires Valid() && inv in state.bound && p.command.Succeed? && L.Requested(p.command).Some?
      requires var b := state.bound[inv];
        p.session == b.session && p.command == L.Succeed(b.id, b.queuedAt, b.startedAt, b.completedAt, true)
      modifies this
      ensures Valid() && old(run) < run && inv !in state.bound && response != Deferred
      ensures response == Applied ==> CommittedOrFailed(run, inv, p)
    {
      var c, threw: bool, canonical: bool, answered: bool := p.command, *, *, *;
      Others(inv);
      if threw || (p.session, c.id) !in state.items {
        Do(L.Abandon(inv));
        return Failure;
      }
      Others(inv);
      var blocked := L.Blocked(state, p.session, c.id);
      if !canonical {
        var failure := L.Fail(c.id, c.queuedAt, L.Some(c.startedAt), c.completedAt);
        var outcome := L.Evaluate(L.RecordOf(state, p.session), failure);
        Do(L.Transition(p.session, failure));
        Do(L.Abandon(inv));
        return if outcome.Invalid? || blocked || !answered then Failure else Applied;
      }
      var decision := L.CommitDecision(L.RecordOf(state, p.session), state.bound[inv]);
      Do(L.CommitBound(inv));
      assert run[..|run| - 1] + [L.CommitBound(inv)] == run;
      response := if decision == L.Refuse || blocked || !answered then Failure else Applied;
    }

    /** Every other update is one transition of the store. */
    method ApplyTransition(inv: nat, p: Parsed) returns (response: Response)
      requires Valid() && inv !in state.bound && !p.command.Succeed?
      modifies this
      ensures Valid() && old(run) < run && inv !in state.bound
      ensures response == Applied || response == Failure
      ensures run[|run| - 1] == L.Transition(p.session, p.command)
    {
      Others(inv);
      var outcome := L.Evaluate(L.RecordOf(state, p.session), p.command);
      var blocked := L.Blocked(state, p.session, p.command.id);
      Do(L.Transition(p.session, p.command));
      var answered: bool := *;
      response := if outcome.Invalid? || blocked || !answered then Failure else Applied;
    }

    /**
     One direct callback.  With everyone else's steps it is a run, so what is proved of runs
     holds of it.  It asks for redelivery exactly where a success needs a bundle that cannot
     be had now, and then leaves no step; a success with a refused key or without a time
     fails.  An applied update is one for the event, and its step is the transition it asks
     for, or, for a success, the commit of that very update, bound to a start time that the
     store held.
     */
    method HandleDirectCallback(inv: nat, raw: Record, dates: map<Text, int>, bundles: Bundles)
      returns (response: Response, ghost update: Option<Parsed>)
      requires Valid() && inv !in state.bound
      modifies this
      ensures Valid() && old(run) <= run && inv !in state.bound
      ensures response == Deferred ==> run == old(run)
      ensures response == Deferred <==> AwaitsBundle(raw, dates, bundles)
      ensures IsDirect(raw) && IsTurnedDown(raw, dates, bundles) ==> response == Failure
      ensures response == Applied ==> update.Some? && old(run) < run
      ensures response == Applied ==> IsUpdateFor(update.value, raw, dates, bundles)
      ensures response == Applied ==>
        if update.value.command.Succeed? then CommittedOrFailed(run, inv, update.value)
        else run[|run| - 1] == L.Transition(update.value.session, update.value.command)
    {
      update := None;
      var normalized := NormalizeDirectEvent(raw, dates, bundles);
      if normalized.Threw? {
        return if normalized.transient then Deferred else Failure, update;
      }
      response, update := BindAndApply(inv, raw, normalized.fields, dates, bundles);
    }

    /** Bind the normalized event to the admitted start time, parse it, and apply it. */
    method BindAndApply(inv: nat, raw: Record, u: Record, dates: map<Text, int>, bundles: Bundles)
      returns (response: Response, ghost update: Option<Parsed>)
      requires Valid() && inv !in state.bound
      requires if IsDirect(raw) then IsNormalized(Update(u), raw, dates, bundles) else u == raw
      modifies this
      ensures Valid() && old(run) <= run && inv !in state.bound && response != Deferred
      ensures response == Applied ==> update.Some? && old(run) < run
      ensures response == Applied ==> IsUpdateFor(update.value, raw, dates, bundles)
      ensures response == Applied ==>
        if update.value.command.Succeed? then CommittedOrFailed(run, inv, update.value)
        else run[|run| - 1] == L.Transition(update.value.session, update.value.command)
    {
      update := None;
      var bound := BindAdmittedStartedAt(inv, u);
      if bound.None? {
        return Failure, update;
      }
      var parsed := ParseUpdate(bound.value);
      if parsed.None? {
        if IsSuccess(u) {
          Do(L.Abandon(inv));
        }
        return Failure, update;
      }
      ghost var startedAt := if IsSuccess(u) then bound.value[StartedAtMs] else Null;
      ParsedIsForEvent(u, bound.value, startedAt, parsed.value, raw, dates, bundles);
      update := parsed;
      response := ApplyParsed(inv, u, bound.value, parsed.value);
    }

    /** A success is committed as bound; everything else is a transition. */
    method ApplyParsed(inv: nat, u: Record, r: Record, p: Parsed) returns (response: Response)
      requires Valid() && Describes(r, p) && (IsSuccess(u) <==> inv in state.bound) && (!IsSuccess(u) ==> r == u)
      requires IsSuccess(u) ==> BoundTo(u, r, state.bound[inv])
      modifies this
      ensures Valid() && old(run) < run && inv !in state.bound && response != Deferred
      ensures response == Applied ==>
        if p.command.Succeed? then CommittedOrFailed(run, inv, p)
        else run[|run| - 1] == L.Transition(p.session, p.command)
    {
      if IsSuccess(u) {
        StartedAtIsBound(u, r, state.bound[inv], p);
        response := ApplySucceeded(inv, p);
      } else {
        response := ApplyTransition(inv, p);
      }
    }
  }

  /** What the normalized event parses to is an update for the event, whatever start time a success was bound to. */
  lemma ParsedIsForEvent(u: Record, r: Record, x: Json, p: Parsed, raw: Record, dates: map<Text, int>, bundles: Bundles)
    requires Describes(r, p) && (r == u || (IsSuccess(u) && r == u[StartedAtMs := x]))
    requires if IsDirect(raw) then IsNormalized(Update(u), raw, dates, bundles) else u == raw
    ensures IsUpdateFor(p, raw, dates, bundles)
  {
    ParsedFields(u, r, x, p);
    if IsDirect(raw) && StatusOf(raw) == SUCCEEDED {
      ParsedSuccess(u, p, raw, dates, bundles);
    }
  }

  lemma ParsedSuccess(u: Record, p: Parsed, raw: Record, dates: map<Text, int>, bundles: Bundles)
    requires IsDirect(raw) && StatusOf(raw) == SUCCEEDED && IsNormalized(Update(u), raw, dates, bundles)
    requires GetText(u, StatusField).Some? && GetText(u, StatusField).value.Word?
    requires FieldsTell(u, p, GetText(u, StatusField).value.status)
    ensures IsUpdateForSuccess(p, raw, dates, bundles)
  {
  }

  lemma ParsedFields(u: Record, r: Record, x: Json, p: Parsed)
    requires Describes(r, p) && (r == u || (IsSuccess(u) && r == u[StartedAtMs := x]))
    ensures GetText(u, StatusField).Some? && GetText(u, StatusField).value.Word?
    ensures FieldsTell(u, p, GetText(u, StatusField).value.status)
  {
    assert Lookup(r, SessionId) == Lookup(u, SessionId) && Lookup(r, FinalizationId) == Lookup(u, FinalizationId);
    assert Lookup(r, QueuedAtMs) == Lookup(u, QueuedAtMs) && Lookup(r, StatusField) == Lookup(u, StatusField);
  }

  /** What a bound success parses to is exactly what was bound. */
  lemma StartedAtIsBound(u: Record, r: Record, b: L.Bound, p: Parsed)
    requires IsSuccess(u) && Describes(r, p) && BoundTo(u, r, b)
    ensures p == Parsed(b.session, L.Succeed(b.id, b.queuedAt, b.startedAt, b.completedAt, true))
  {
    assert forall f :: f != StartedAtMs ==> Lookup(r, f) == Lookup(u, f);
    assert AsNat(Lookup(r, StartedAtMs)) == Some(b.startedAt);
  }
}
