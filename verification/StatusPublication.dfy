/**
 Publication of `status/current.json`.  A publisher reads the App checkpoint, projects
 it, reads the present status, reads the checkpoint again and then writes under the
 condition that the status is still the one it read.  Any number of publishers and
 new checkpoints interleave.

 A stored body is represented by the record that its canonical JSON prints.
 */
module StatusPublication {
  import opened Timestamps
  import opened AppStatus

  /** A later acceptance may replace an earlier one; anything else must be the same body. */
  predicate InOrder(previous: Status, next: Status) {
    previous == next || Less(previous.acceptedAt, next.acceptedAt)
  }

  datatype CheckpointObject = CheckpointObject(body: Checkpoint, version: nat, salt: nat)

  /** `salt` stands for what the entity tag depends on besides the body; `source` tells which checkpoint was
      current when its publisher read the checkpoint for the second time. */
  datatype Published = Published(body: Status, salt: nat, source: nat)

  datatype Publisher = Publisher(execution: nat, sourceSha: string, phase: Phase)
  datatype Phase =
    | Starting
    | Projected(checkpoint: CheckpointObject, body: Status)
    | Ordered(checkpoint: CheckpointObject, body: Status, current: Option<Published>)
    | Checked(body: Status, current: Option<Published>, source: nat)

  /** How checkpoints are projected; the publisher's own way is `ProjectFor` a target. */
  type Projection = Checkpoint -> Option<Status>

  function ProjectFor(target: Target): Projection {
    c => Project(c, target)
  }

  /** All checkpoints and all statuses ever stored, the last of each being current. */
  datatype State = State(
    checkpoints: seq<CheckpointObject>, statuses: seq<Published>, publishers: map<nat, Publisher>)

  const EMPTY := State([], [], map[])

  function Last<T>(s: seq<T>): Option<T> {
    if s == [] then None else Some(s[|s| - 1])
  }

  datatype Action =
    | Accept(checkpoint: CheckpointObject)
    | Begin(p: nat, execution: nat, sourceSha: string)
    | ReadCheckpoint(p: nat)
    | ReadStatus(p: nat)
    | Reread(p: nat)
    | Write(p: nat, salt: nat)
    | Stop(p: nat)

  /** A version id is never used twice. */
  predicate Enabled(s: State, a: Action) {
    match a
    case Accept(c) => forall o :: o in s.checkpoints ==> o.version != c.version
    case Begin(p, _, _) => p !in s.publishers
    case ReadCheckpoint(p) => p in s.publishers && s.publishers[p].phase.Starting?
    case ReadStatus(p) => p in s.publishers && s.publishers[p].phase.Projected?
    case Reread(p) => p in s.publishers && s.publishers[p].phase.Ordered?
    case Write(p, _) => p in s.publishers && s.publishers[p].phase.Checked?
    case Stop(p) => p in s.publishers
  }

  function Goto(s: State, p: nat, phase: Phase): State
    requires p in s.publishers
  {
    s.(publishers := s.publishers[p := s.publishers[p].(phase := phase)])
  }

  function Drop(s: State, p: nat): State {
    s.(publishers := s.publishers - {p})
  }

  /** The conditional write compares entity tags, which determine the body. */
  predicate ConditionHolds(expected: Option<Published>, current: Option<Published>) {
    match expected
    case None => current.None?
    case Some(o) => current.Some? && current.value.body == o.body && current.value.salt == o.salt
  }

  /** Missing, superseded and unprojectable checkpoints end the delivery. */
  function AfterCheckpoint(s: State, p: nat, project: Projection): State
    requires p in s.publishers
  {
    match Last(s.checkpoints)
    case None => Drop(s, p)
    case Some(c) =>
      if c.body.execution != s.publishers[p].execution || c.body.sourceSha != s.publishers[p].sourceSha then Drop(s, p)
      else
        match project(c.body)
        case None => Drop(s, p)
        case Some(body) => Goto(s, p, Projected(c, body))
  }

  function Apply(s: State, a: Action, project: Projection): State
    requires Enabled(s, a)
  {
    match a
    case Accept(c) => s.(checkpoints := s.checkpoints + [c])
    case Begin(p, execution, sourceSha) =>
      s.(publishers := s.publishers[p := Publisher(execution, sourceSha, Starting)])
    case ReadCheckpoint(p) => AfterCheckpoint(s, p, project)
    case ReadStatus(p) =>
      var phase, current := s.publishers[p].phase, Last(s.statuses);
      if current.Some? && !InOrder(current.value.body, phase.body) then Drop(s, p)
      else Goto(s, p, Ordered(phase.checkpoint, phase.body, current))
    case Reread(p) =>
      var phase := s.publishers[p].phase;
      if Last(s.checkpoints) != Some(phase.checkpoint) then Drop(s, p)
      else if phase.current.Some? && phase.current.value.body == phase.body then Drop(s, p)
      else Goto(s, p, Checked(phase.body, phase.current, |s.checkpoints| - 1))
    case Write(p, salt) =>
      var phase := s.publishers[p].phase;
      if !ConditionHolds(phase.current, Last(s.statuses)) then Drop(s, p)
      else Drop(s, p).(statuses := s.statuses + [Published(phase.body, salt, phase.source)])
    case Stop(p) => Drop(s, p)
  }

  predicate IsRun(s: State, actions: seq<Action>, project: Projection)
    decreases |actions|
  {
    actions == [] || (Enabled(s, actions[0]) && IsRun(Apply(s, actions[0], project), actions[1..], project))
  }

  function After(s: State, actions: seq<Action>, project: Projection): State
    requires IsRun(s, actions, project)
    decreases |actions|
  {
    if actions == [] then s else After(Apply(s, actions[0], project), actions[1..], project)
  }

  /** The projection of the checkpoint stored as the `source`th. */
  predicate ProjectionOf(s: State, body: Status, source: nat, project: Projection) {
    source < |s.checkpoints| && project(s.checkpoints[source].body) == Some(body)
  }

  predicate ReadOk(current: Option<Published>, body: Status) {
    current.Some? ==> InOrder(current.value.body, body)
  }

  ghost predicate PublisherOk(s: State, p: nat, project: Projection) {
    p in s.publishers ==>
      match s.publishers[p].phase
      case Starting => true
      case Projected(c, body) => project(c.body) == Some(body)
      case Ordered(c, body, current) => project(c.body) == Some(body) && ReadOk(current, body)
      case Checked(body, current, source) =>
        ProjectionOf(s, body, source, project) && ReadOk(current, body)
        && (current.Some? ==> current.value.body != body)
  }

  /** Each status is a projection, and was accepted later than the one before it. */
  ghost predicate StatusOk(s: State, k: nat, project: Projection)
    requires k < |s.statuses|
  {
    && ProjectionOf(s, s.statuses[k].body, s.statuses[k].source, project)
    && (k > 0 ==> Less(s.statuses[k - 1].body.acceptedAt, s.statuses[k].body.acceptedAt))
  }

  ghost predicate Inv(s: State, project: Projection) {
    && (forall p :: PublisherOk(s, p, project))
    && (forall k: nat :: k < |s.statuses| ==> StatusOk(s, k, project))
  }

  lemma PublisherStays(s: State, a: Action, project: Projection, p: nat)
    requires Inv(s, project) && Enabled(s, a)
    ensures PublisherOk(Apply(s, a, project), p, project)
  {
    assert PublisherOk(s, p, project);
  }

  lemma StatusStays(s: State, a: Action, project: Projection, k: nat)
    requires Inv(s, project) && Enabled(s, a) && k < |Apply(s, a, project).statuses|
    ensures StatusOk(Apply(s, a, project), k, project)
  {
    if k < |s.statuses| {
      assert StatusOk(s, k, project);
    } else {
      assert PublisherOk(s, a.p, project);
    }
  }

  lemma {:induction false} InvAlways(s: State, actions: seq<Action>, project: Projection)
    requires Inv(s, project) && IsRun(s, actions, project)
    ensures Inv(After(s, actions, project), project)
    decreases |actions|
  {
    if actions != [] {
      var n := Apply(s, actions[0], project);
      forall p ensures PublisherOk(n, p, project) {
        PublisherStays(s, actions[0], project, p);
      }
      forall k: nat | k < |n.statuses| ensures StatusOk(n, k, project) {
        StatusStays(s, actions[0], project, k);
      }
      InvAlways(n, actions[1..], project);
    }
  }

  /** Acceptance times increase, as strings. */
  lemma {:induction false} AcceptancesIncrease(s: State, project: Projection, i: nat, j: nat)
    requires Inv(s, project) && i < j < |s.statuses|
    ensures Less(s.statuses[i].body.acceptedAt, s.statuses[j].body.acceptedAt)
    decreases j
  {
    assert StatusOk(s, j, project);
    if i < j - 1 {
      AcceptancesIncrease(s, project, i, j - 1);
      LessIsTransitive(s.statuses[i].body.acceptedAt, s.statuses[j - 1].body.acceptedAt, s.statuses[j].body.acceptedAt);
    }
  }

  /** A status accepted at a canonical time, thirty days before it goes stale. */
  predicate Dated(s: Status) {
    Canonical(s.acceptedAt) && Canonical(s.staleAfter) && TimeOf(s.staleAfter) == TimeOf(s.acceptedAt) + TTL
  }

  predicate AcceptedSooner(a: Status, b: Status) {
    Canonical(a.acceptedAt) && Canonical(b.acceptedAt) && TimeOf(a.acceptedAt) < TimeOf(b.acceptedAt)
  }

  lemma StatusIsDated(s: State, target: Target, k: nat)
    requires k < |s.statuses|
    requires ProjectionOf(s, s.statuses[k].body, s.statuses[k].source, ProjectFor(target))
    ensures Dated(s.statuses[k].body)
    ensures s.statuses[k].body.acceptedAt == s.checkpoints[s.statuses[k].source].body.acceptedAt
  {
    ProjectionTimes(s.checkpoints[s.statuses[k].source].body, target);
  }

  lemma SoonerByString(a: Status, b: Status)
    requires Dated(a) && Dated(b) && Less(a.acceptedAt, b.acceptedAt)
    ensures AcceptedSooner(a, b)
  {
    StringOrderIsTimeOrder(a.acceptedAt, b.acceptedAt);
  }

  /**
   In every run, each value of the status was accepted at a strictly later time than
   every value before it, expires thirty days after that, and is the projection of the
   checkpoint that was current at its publisher's second read.
   */
  lemma StatusAdvances(actions: seq<Action>, target: Target, i: nat, j: nat)
    requires IsRun(EMPTY, actions, ProjectFor(target))
    requires i < j < |After(EMPTY, actions, ProjectFor(target)).statuses|
    ensures var s := After(EMPTY, actions, ProjectFor(target));
      var before, later := s.statuses[i], s.statuses[j];
      && ProjectionOf(s, before.body, before.source, ProjectFor(target)) && Dated(before.body)
      && ProjectionOf(s, later.body, later.source, ProjectFor(target)) && Dated(later.body)
      && AcceptedSooner(before.body, later.body)
  {
    InvAlways(EMPTY, actions, ProjectFor(target));
    var s := After(EMPTY, actions, ProjectFor(target));
    assert StatusOk(s, i, ProjectFor(target)) && StatusOk(s, j, ProjectFor(target));
    AcceptancesIncrease(s, ProjectFor(target), i, j);
    StatusIsDated(s, target, i);
    StatusIsDated(s, target, j);
    SoonerByString(s.statuses[i].body, s.statuses[j].body);
  }

  /** No checkpoint was accepted before one that it replaced. */
  ghost predicate AcceptedInOrder(cs: seq<CheckpointObject>) {
    forall a, b :: 0 <= a < b < |cs| ==> !Less(cs[b].body.acceptedAt, cs[a].body.acceptedAt)
  }

  lemma SourcesIncrease(cs: seq<CheckpointObject>, a: nat, b: nat)
    requires AcceptedInOrder(cs) && a < |cs| && b < |cs| && Less(cs[a].body.acceptedAt, cs[b].body.acceptedAt)
    ensures a < b
  {
    LessIsAsymmetric(cs[a].body.acceptedAt, cs[b].body.acceptedAt);
  }

  /** Where checkpoints are accepted in order, the status never falls back to an earlier checkpoint. */
  lemma StatusNeverFallsBack(actions: seq<Action>, target: Target, i: nat, j: nat)
    requires IsRun(EMPTY, actions, ProjectFor(target))
    requires i < j < |After(EMPTY, actions, ProjectFor(target)).statuses|
    requires AcceptedInOrder(After(EMPTY, actions, ProjectFor(target)).checkpoints)
    ensures var s := After(EMPTY, actions, ProjectFor(target)); s.statuses[i].source < s.statuses[j].source
  {
    InvAlways(EMPTY, actions, ProjectFor(target));
    var s := After(EMPTY, actions, ProjectFor(target));
    assert StatusOk(s, i, ProjectFor(target)) && StatusOk(s, j, ProjectFor(target));
    AcceptancesIncrease(s, ProjectFor(target), i, j);
    StatusIsDated(s, target, i);
    StatusIsDated(s, target, j);
    SourcesIncrease(s.checkpoints, s.statuses[i].source, s.statuses[j].source);
  }
}
