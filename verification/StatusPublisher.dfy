/**
 One delivery as it is written: read, project, read, compare, read again, write.
 Between its steps other publishers and new checkpoints take any number of steps.
 */
module StatusPublisher {
  import opened Timestamps
  import opened AppStatus
  import opened StatusPublication

  datatype Outcome = Superseded | Unchanged | Written | Failed

  predicate StepOf(a: Action, p: nat) {
    !a.Accept? && a.p == p
  }

  lemma {:induction false} RunExtends(s: State, run: seq<Action>, a: Action, project: Projection)
    requires IsRun(s, run, project) && Enabled(After(s, run, project), a)
    ensures IsRun(s, run + [a], project)
    ensures After(s, run + [a], project) == Apply(After(s, run, project), a, project)
    decreases |run|
  {
    if run == [] {
      assert IsRun(Apply(s, a, project), [], project);
    } else {
      RunExtends(Apply(s, run[0], project), run[1..], a, project);
      assert (run + [a])[1..] == run[1..] + [a];
    }
  }

  lemma OthersKeep(s: State, a: Action, p: nat, project: Projection)
    requires p in s.publishers && Enabled(s, a) && !StepOf(a, p)
    ensures p in Apply(s, a, project).publishers && Apply(s, a, project).publishers[p] == s.publishers[p]
    ensures s.checkpoints <= Apply(s, a, project).checkpoints && s.statuses <= Apply(s, a, project).statuses
  {
  }

  /** The checkpoint is the one that the delivery for this execution and source was sent for. */
  predicate IsFor(c: CheckpointObject, execution: nat, sourceSha: string) {
    c.body.execution == execution && c.body.sourceSha == sourceSha
  }

  /** The body is the projection of some checkpoint of this execution and source. */
  ghost predicate Serves(s: State, body: Status, execution: nat, sourceSha: string, project: Projection) {
    exists c :: c in s.checkpoints && IsFor(c, execution, sourceSha) && project(c.body) == Some(body)
  }

  class Store {
    const project: Projection
    var state: State
    ghost var run: seq<Action>

    constructor (project: Projection)
      ensures this.project == project && Valid() && run == []
    {
      this.project, state, run := project, EMPTY, [];
    }

    ghost predicate Valid()
      reads this
    {
      IsRun(EMPTY, run, project) && state == After(EMPTY, run, project)
    }

    ghost predicate At(p: nat, me: Publisher)
      reads this
    {
      Valid() && p in state.publishers && state.publishers[p] == me
    }

    method Do(a: Action)
      requires Valid() && Enabled(state, a)
      modifies this
      ensures Valid() && run == old(run) + [a] && state == Apply(old(state), a, project)
    {
      RunExtends(EMPTY, run, a, project);
      state, run := Apply(state, a, project), run + [a];
    }

    /** Any steps of anyone else. */
    method Others(p: nat, ghost me: Publisher)
      requires At(p, me)
      modifies this
      ensures At(p, me) && old(run) <= run
      ensures old(state.statuses) <= state.statuses && old(state.checkpoints) <= state.checkpoints
    {
      var n: int := *;
      var k := 0;
      while k < n
        invariant At(p, me) && old(run) <= run
        invariant old(state.statuses) <= state.statuses && old(state.checkpoints) <= state.checkpoints
      {
        var a: Action := *;
        k := k + 1;
        if Enabled(state, a) && !StepOf(a, p) {
          OthersKeep(state, a, p, project);
          Do(a);
        }
      }
    }

    /** The first read: a missing, superseded or unprojectable checkpoint ends the delivery. */
    method ReadCheckpointFor(p: nat, execution: nat, sourceSha: string)
      returns (outcome: Outcome, observed: Option<CheckpointObject>, projected: Option<Status>)
      requires At(p, Publisher(execution, sourceSha, Starting))
      modifies this
      ensures Valid() && old(run) < run && run[|run| - 1] == ReadCheckpoint(p)
      ensures outcome == Superseded || outcome == Failed || outcome == Unchanged
      ensures outcome == Unchanged ==> observed.Some? && projected.Some?
      ensures outcome == Unchanged ==>
        At(p, Publisher(execution, sourceSha, Projected(observed.value, projected.value)))
      ensures outcome != Unchanged ==> p !in state.publishers
      ensures observed == Last(state.checkpoints)
      ensures outcome == Superseded <==> observed.Some? && !IsFor(observed.value, execution, sourceSha)
      ensures outcome == Unchanged ==> projected == project(observed.value.body)
    {
      projected := None;
      Others(p, Publisher(execution, sourceSha, Starting));
      observed := Last(state.checkpoints);
      Do(ReadCheckpoint(p));
      if observed.None? {
        return Failed, observed, projected;
      }
      if !IsFor(observed.value, execution, sourceSha) {
        return Superseded, observed, projected;
      }
      projected := project(observed.value.body);
      outcome := if projected.None? then Failed else Unchanged;
    }

    /** The status must be older or the same, and the checkpoint must still be the one observed. */
    method Compare(p: nat, me: Publisher) returns (outcome: Outcome, current: Option<Published>, ghost source: nat)
      requires At(p, me) && me.phase.Projected?
      modifies this
      ensures Valid() && old(run) < run && !run[|run| - 1].Write?
      ensures outcome == Written || outcome == Unchanged || outcome == Failed
      ensures outcome == Written ==> At(p, me.(phase := Checked(me.phase.body, current, source)))
      ensures outcome == Written && current.Some? ==> Less(current.value.body.acceptedAt, me.phase.body.acceptedAt)
      ensures outcome != Written ==> p !in state.publishers
      ensures outcome == Unchanged ==>
                current.Some? && current.value in state.statuses && current.value.body == me.phase.body
      ensures old(state.checkpoints) <= state.checkpoints
      ensures outcome == Written ==> source < |state.checkpoints| && state.checkpoints[source] == me.phase.checkpoint
    {
      source := 0;
      Others(p, me);
      current := Last(state.statuses);
      Do(ReadStatus(p));
      if current.Some? && !InOrder(current.value.body, me.phase.body) {
        return Failed, current, source;
      }
      assert current.Some? ==> current.value in state.statuses;
      var threw: bool := *;
      if threw {
        Do(Stop(p));
        return Failed, current, source;
      }
      Others(p, me.(phase := Ordered(me.phase.checkpoint, me.phase.body, current)));
      var again := Last(state.checkpoints);
      Do(Reread(p));
      if again != Some(me.phase.checkpoint) {
        return Failed, current, source;
      }
      source := |state.checkpoints| - 1;
      outcome := if current.Some? && current.value.body == me.phase.body then Unchanged else Written;
    }

    /**
     A delivery for one execution and source.  Together with everyone else's steps it is
     a run; the outcome `Written` changed the status, to a later acceptance, and
     `Unchanged` reports that the status already was the projection, in both cases of a
     checkpoint of that execution and source.  Each request can
     throw; a write whose answer was lost has happened although the outcome is `Failed`.
     */
    method PublishCurrentAppDeploymentStatus(p: nat, execution: nat, sourceSha: string)
      returns (outcome: Outcome, ghost body: Option<Status>)
      requires Valid() && p !in state.publishers
      modifies this
      ensures Valid() && old(run) < run && p !in state.publishers
      ensures outcome == Written <==> run[|run| - 1].Write? && body.Some?
      ensures outcome == Written ==> state.statuses != [] && Last(state.statuses).value.body == body.value
      ensures outcome == Written && |state.statuses| > 1 ==>
        Less(state.statuses[|state.statuses| - 2].body.acceptedAt, body.value.acceptedAt)
      ensures outcome == Written ==>
        var source := Last(state.statuses).value.source;
        source < |state.checkpoints| && IsFor(state.checkpoints[source], execution, sourceSha)
        && project(state.checkpoints[source].body) == body
      ensures outcome == Unchanged ==> body.Some? && exists o :: o in state.statuses && o.body == body.value
      ensures outcome == Unchanged ==> Serves(state, body.value, execution, sourceSha, project)
      ensures outcome == Superseded ==>
        state.checkpoints != [] && !IsFor(Last(state.checkpoints).value, execution, sourceSha)
    {
      body := None;
      var observed, projected, current;
      ghost var source;
      Do(Begin(p, execution, sourceSha));
      var threw: bool := *;
      if threw {
        Do(Stop(p));
        return Failed, body;
      }
      outcome, observed, projected := ReadCheckpointFor(p, execution, sourceSha);
      if outcome != Unchanged {
        return;
      }
      var me := Publisher(execution, sourceSha, Projected(observed.value, projected.value));
      threw := *;
      if threw {
        Do(Stop(p));
        return Failed, body;
      }
      outcome, current, source := Compare(p, me);
      if outcome == Failed {
        return;
      }
      body := projected;
      if outcome == Unchanged {
        return;
      }
      Others(p, me.(phase := Checked(projected.value, current, source)));
      var unmoved := ConditionHolds(current, Last(state.statuses));
      var salt: int, reached: bool, answered: bool := *, *, *;
      if !reached {
        Do(Stop(p));
        return Failed, None;
      }
      Do(Write(p, if salt < 0 then 0 else salt));
      if !unmoved || !answered {
        return Failed, None;
      }
    }
  }
}
