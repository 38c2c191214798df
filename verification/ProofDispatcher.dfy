/**
 The dispatcher's handler as it is written: a loop over the records of one batch that
 reads the store, starts executions and returns early.  Between any two of its effects
 the rest of the system takes any number of steps.
 */
module ProofDispatcher {
  import opened DispatchMachine

  predicate StepOf(a: Action, inv: InvocationId) {
    (a.Receive? || a.Read? || a.Start? || a.Reread? || a.Describe? || a.Fail? || a.Acknowledge?) && a.inv == inv
  }

  /** The phase in which an invocation takes this step. */
  function PhaseOf(a: Action): Phase {
    match a
    case Read(_) => Reading
    case Start(_) => Starting
    case Reread(_) => Rereading
    case _ => Describing
  }

  lemma {:induction false} RunExtends(s: State, run: seq<Action>, a: Action)
    requires IsRun(s, run) && Enabled(After(s, run), a)
    ensures IsRun(s, run + [a]) && After(s, run + [a]) == Apply(After(s, run), a)
    decreases |run|
  {
    if run == [] {
      assert IsRun(Apply(s, a), []);
    } else {
      RunExtends(Apply(s, run[0]), run[1..], a);
      assert (run + [a])[1..] == run[1..] + [a];
    }
  }

  /** No one moves another's invocation. */
  lemma OthersKeep(s: State, a: Action, inv: InvocationId)
    requires inv in s.invocations && Enabled(s, a) && !StepOf(a, inv)
    ensures inv in Apply(s, a).invocations && Apply(s, a).invocations[inv] == s.invocations[inv]
    ensures forall t :: t in s.sent ==> t in Apply(s, a).sent && Apply(s, a).sent[t] == s.sent[t]
  {
  }

  /** The shared services, with the run that led to their state. */
  class World {
    var state: State
    ghost var run: seq<Action>

    constructor ()
      ensures Valid() && run == []
    {
      state, run := EMPTY, [];
    }

    ghost predicate Valid()
      reads this
    {
      IsRun(EMPTY, run) && state == After(EMPTY, run)
    }

    /** The invocation is at this record of its batch. */
    ghost predicate Handling(inv: InvocationId, i: Invocation)
      reads this
    {
      Valid() && inv in state.invocations && state.invocations[inv] == i && i.next <= |i.batch|
      && forall t :: t in i.batch ==> t in state.sent
    }

    method Do(a: Action)
      requires Valid() && Enabled(state, a)
      modifies this
      ensures Valid() && run == old(run) + [a] && state == Apply(old(state), a)
    {
      RunExtends(EMPTY, run, a);
      state, run := Apply(state, a), run + [a];
    }

    /** Any steps of anyone else, other invocations of the same handler included. */
    method Others(inv: InvocationId, ghost i: Invocation)
      requires Handling(inv, i)
      modifies this
      ensures Handling(inv, i) && old(run) <= run
    {
      var n: int := *;
      var k := 0;
      while k < n
        invariant Handling(inv, i) && old(run) <= run
      {
        var a: Action := *;
        k := k + 1;
        if Enabled(state, a) && !StepOf(a, inv) {
          OthersKeep(state, a, inv);
          Do(a);
        }
      }
    }

    /** An effect of this invocation itself, after whatever the others did.  Any of them can throw, and one whose
        answer was lost has still happened. */
    method Effect(inv: InvocationId, a: Action, ghost i: Invocation) returns (thrown: bool, before: State)
      requires Handling(inv, i) && StepOf(a, inv)
      requires a.Read? || a.Start? || a.Reread? || a.Describe?
      requires i.next < |i.batch|
      requires state.sent[i.batch[i.next]].Work?
      requires i.phase == PhaseOf(a)
      modifies this
      ensures Valid() && old(run) <= run
      ensures thrown ==> inv !in state.invocations && run != [] && !run[|run| - 1].Acknowledge?
      ensures !thrown ==> Enabled(before, a) && state == Apply(before, a)
      ensures !thrown ==> inv in before.invocations && before.invocations[inv] == i
      ensures !thrown ==> run != [] && run[|run| - 1] == a
      ensures !thrown ==> forall t :: t in i.batch ==> t in state.sent
    {
      Others(inv, i);
      SentKept(old(run), run);
      var happened: bool := *;
      before, thrown := state, *;
      if !thrown || happened {
        Do(a);
      }
      if thrown && inv in state.invocations {
        Do(Fail(inv));
      }
    }

    method AcknowledgeExistingExecution(inv: InvocationId, ghost i: Invocation) returns (done: bool)
      requires Handling(inv, i) && i.next < |i.batch| && i.phase == Rereading && state.sent[i.batch[i.next]].Work?
      modifies this
      ensures Valid() && old(run) <= run
      ensures done ==> Handling(inv, i.(next := i.next + 1, phase := Reading))
      ensures !done ==> inv !in state.invocations && run != [] && !run[|run| - 1].Acknowledge?
    {
      var thrown, before := Effect(inv, Reread(inv), i);
      if thrown {
        return false;
      }
      if !Dispatchable(before, Current(before, inv).session, Current(before, inv).id) {
        return true;
      }
      thrown, before := Effect(inv, Describe(inv), i.(phase := Describing));
      if thrown {
        return false;
      }
      var id := Current(before, inv).id;
      return id in before.executions && before.executions[id].open;
    }

    method DispatchProverRecord(inv: InvocationId, ghost i: Invocation) returns (done: bool)
      requires Handling(inv, i) && i.next < |i.batch| && i.phase == Reading
      modifies this
      ensures Valid() && old(run) <= run
      ensures done ==> Handling(inv, i.(next := i.next + 1, phase := Reading))
      ensures !done ==> inv !in state.invocations && run != [] && !run[|run| - 1].Acknowledge?
    {
      if state.sent[state.invocations[inv].batch[state.invocations[inv].next]].Malformed? {
        Do(Fail(inv));
        return false;
      }
      var thrown, before := Effect(inv, Read(inv), i);
      if thrown {
        return false;
      }
      if !Dispatchable(before, Current(before, inv).session, Current(before, inv).id) {
        return true;
      }
      thrown, before := Effect(inv, Start(inv), i.(phase := Starting));
      if thrown {
        return false;
      }
      var m := Current(before, inv);
      if m.id !in before.executions || before.executions[m.id] == Execution(m.input, true) {
        return true;
      }
      done := AcknowledgeExistingExecution(inv, i.(phase := Rereading));
    }

    /**
     The handler on a batch it was handed, and the queue's deletion of the batch when it
     returns.  Whatever it does, together with the others, is a run; it returns only
     when every message of the batch is settled, and only then is any deleted.
     */
    method Handle(inv: InvocationId, batch: seq<Ticket>) returns (ok: bool)
      requires Valid() && Enabled(state, Receive(inv, batch))
      modifies this
      ensures Valid() && old(run) + [Receive(inv, batch)] <= run && inv !in state.invocations
      ensures ok <==> run[|run| - 1] == Acknowledge(inv)
      ensures ok ==> forall t :: t in batch ==> t !in state.unacked && t in state.sent && Settled(state, state.sent[t])
    {
      Do(Receive(inv, batch));
      for k := 0 to |batch|
        invariant Handling(inv, Invocation(batch, k, Reading)) && old(run) + [Receive(inv, batch)] <= run
      {
        var done := DispatchProverRecord(inv, Invocation(batch, k, Reading));
        if !done {
          return false;
        }
      }
      Others(inv, Invocation(batch, |batch|, Reading));
      Do(Acknowledge(inv));
      ok := true;
      InvAlways(EMPTY, run);
      forall t | t in batch ensures t !in state.unacked && t in state.sent && Settled(state, state.sent[t]) {
        assert TicketOk(state, t);
      }
    }
  }

  lemma {:induction false} SentKept(run: seq<Action>, longer: seq<Action>)
    requires run <= longer && IsRun(EMPTY, run) && IsRun(EMPTY, longer)
    ensures forall t :: t in After(EMPTY, run).sent ==>
      t in After(EMPTY, longer).sent && After(EMPTY, longer).sent[t] == After(EMPTY, run).sent[t]
  {
    SentKeptFrom(EMPTY, run, longer);
  }

  lemma {:induction false} SentKeptFrom(s: State, run: seq<Action>, longer: seq<Action>)
    requires run <= longer && IsRun(s, run) && IsRun(s, longer)
    ensures forall t :: t in After(s, run).sent ==>
      t in After(s, longer).sent && After(s, longer).sent[t] == After(s, run).sent[t]
    decreases |longer|
  {
    if longer != [] {
      if run == [] {
        SentKeptFrom(Apply(s, longer[0]), [], longer[1..]);
      } else {
        SentKeptFrom(Apply(s, longer[0]), run[1..], longer[1..]);
      }
    }
  }
}
