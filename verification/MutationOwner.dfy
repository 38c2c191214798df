/**
 Ownership of a Terraform root.  A plan fixes the owner object it will replace; an
 execution claims the root by a conditional write of its own owner object, and checks
 before each mutation that it still is the owner.  Executions interleave freely.

 A SHA-256 digest is represented by what it digests, and a canonical JSON text by the
 record it prints: both are taken to determine their preimage.
 */
module MutationOwner {

  datatype Option<+T> = None | Some(value: T)

  type Version = nat
  type ExecutionId = nat

  /** A target and one of its roots; the owner object's key is derived from it. */
  datatype Place = Place(target: nat, root: nat)

  /** What the store answers for a condition on content: it determines the body. */
  datatype ETag = ETag(body: Owner, salt: nat)

  datatype Observation = Observation(key: Place, version: Version, sha256: Owner, etag: ETag)

  /** The part of a plan package that matters to ownership. */
  datatype Plan = Plan(place: Place, execution: ExecutionId, mutationOwner: Option<Observation>,
                       initialPublication: bool)

  datatype Owner = Owner(place: Place, execution: ExecutionId, packageSha256: Plan)

  datatype Stored = Stored(body: Owner, version: Version, salt: nat)

  function Observe(key: Place, stored: Stored): Observation {
    Observation(key, stored.version, stored.body, ETag(stored.body, stored.salt))
  }

  predicate ObjectPrecondition(expected: Option<Observation>, actual: Option<Observation>) {
    (expected.None? && actual.None?) || (expected.Some? && actual.Some? && expected.value == actual.value)
  }

  /** An owner record belongs to the place it is read for. */
  function AdmitMutationOwner(owner: Owner, place: Place): Option<Owner> {
    if owner.place != place then None else Some(owner)
  }

  function PrepareMutationOwner(plan: Plan, current: Option<Observation>): Option<Owner> {
    if !ObjectPrecondition(plan.mutationOwner, current) then None
    else if current.None? && !plan.initialPublication then None
    else AdmitMutationOwner(Owner(plan.place, plan.execution, plan), plan.place)
  }

  datatype Predecessor = Predecessor(execution: ExecutionId, succeeded: bool)

  predicate MutationContinuation(plan: Plan, owner: Owner, predecessor: Option<Predecessor>) {
    && AdmitMutationOwner(owner, plan.place).Some?
    && owner.execution == plan.execution && owner.packageSha256 == plan
    && (predecessor.Some? ==> predecessor.value.succeeded && predecessor.value.execution == owner.execution)
  }

  /** An execution that has prepared its owner object from what it read. */
  datatype Prepared = Prepared(owner: Owner, expected: Option<Observation>)

  /** All owner objects ever written to each place, the last one current, and the executions about to write. */
  datatype State = State(history: map<Place, seq<Stored>>, prepared: map<nat, Prepared>)

  const EMPTY := State(map[], map[])

  function History(s: State, place: Place): seq<Stored> {
    if place in s.history then s.history[place] else []
  }

  function Current(s: State, place: Place): Option<Observation> {
    var h := History(s, place);
    if h == [] then None else Some(Observe(place, h[|h| - 1]))
  }

  datatype Action =
    | Prepare(run: nat, plan: Plan)
    | Write(run: nat, version: Version, salt: nat)

  /** A read that passes the precondition; a write under a version id that was never used for its key. */
  predicate Enabled(s: State, a: Action) {
    match a
    case Prepare(run, plan) => run !in s.prepared && PrepareMutationOwner(plan, Current(s, plan.place)).Some?
    case Write(run, version, _) =>
      run in s.prepared
      && forall o :: o in History(s, s.prepared[run].owner.place) ==> o.version != version
  }

  /** The store compares entity tags only: `If-Match` on what was observed, `If-None-Match` when nothing was. */
  predicate ConditionHolds(expected: Option<Observation>, current: Option<Observation>) {
    match expected
    case None => current.None?
    case Some(o) => current.Some? && current.value.etag == o.etag
  }

  function Apply(s: State, a: Action): State
    requires Enabled(s, a)
  {
    match a
    case Prepare(run, plan) =>
      var current := Current(s, plan.place);
      s.(prepared := s.prepared[run := Prepared(PrepareMutationOwner(plan, current).value, current)])
    case Write(run, version, salt) =>
      var p := s.prepared[run];
      var place := p.owner.place;
      if ConditionHolds(p.expected, Current(s, place))
      then s.(history := s.history[place := History(s, place) + [Stored(p.owner, version, salt)]])
      else s
  }

  predicate IsRun(s: State, actions: seq<Action>)
    decreases |actions|
  {
    actions == [] || (Enabled(s, actions[0]) && IsRun(Apply(s, actions[0]), actions[1..]))
  }

  function After(s: State, actions: seq<Action>): State
    requires IsRun(s, actions)
    decreases |actions|
  {
    if actions == [] then s else After(Apply(s, actions[0]), actions[1..])
  }

  /** The observation that was current after the first `k` writes. */
  function ObservedAfter(place: Place, h: seq<Stored>, k: nat): Option<Observation>
    requires k <= |h|
  {
    if k == 0 then None else Some(Observe(place, h[k - 1]))
  }

  predicate OwnedBy(o: Owner, plan: Plan) {
    o == Owner(plan.place, plan.execution, plan)
  }

  /** The `k`th owner's plan had fixed the exact version that it replaced. */
  predicate Link(place: Place, h: seq<Stored>, k: nat)
    requires k < |h|
  {
    var plan := h[k].body.packageSha256;
    && plan.place == place && OwnedBy(h[k].body, plan)
    && plan.mutationOwner == ObservedAfter(place, h, k)
    && (k == 0 ==> plan.initialPublication)
  }

  ghost predicate IsChain(place: Place, h: seq<Stored>) {
    && (forall k: nat :: k < |h| ==> Link(place, h, k))
    && (forall j, k :: 0 <= j < k < |h| ==> h[j].version != h[k].version)
  }

  /** What was prepared rests on an observation that was current at some time. */
  ghost predicate PreparedOk(s: State, run: nat) {
    run in s.prepared ==>
      var p, place := s.prepared[run], s.prepared[run].owner.place;
      var plan := p.owner.packageSha256;
      && plan.place == place && OwnedBy(p.owner, plan) && plan.mutationOwner == p.expected
      && (p.expected.None? ==> plan.initialPublication)
      && exists k: nat :: k <= |History(s, place)| && p.expected == ObservedAfter(place, History(s, place), k)
  }

  ghost predicate Inv(s: State) {
    && (forall place :: IsChain(place, History(s, place)))
    && (forall run :: PreparedOk(s, run))
  }

  /** No body is ever written twice, since the plan inside it names the version it replaces. */
  lemma BodiesAreDistinct(place: Place, h: seq<Stored>, j: nat, k: nat)
    requires IsChain(place, h) && j < |h| && k < |h| && h[j].body == h[k].body
    ensures j == k
  {
    assert Link(place, h, j) && Link(place, h, k);
    assert ObservedAfter(place, h, j) == ObservedAfter(place, h, k);
  }

  /** The entity tag suffices: the object met by the write is the very version that was read. */
  lemma TagNamesVersion(place: Place, h: seq<Stored>, k: nat)
    requires IsChain(place, h) && k <= |h|
    requires ConditionHolds(ObservedAfter(place, h, k), ObservedAfter(place, h, |h|))
    ensures k == |h|
  {
    if k > 0 {
      BodiesAreDistinct(place, h, k - 1, |h| - 1);
    }
  }

  lemma ChainGrows(s: State, a: Action, place: Place)
    requires Inv(s) && Enabled(s, a)
    ensures IsChain(place, History(Apply(s, a), place))
    ensures History(s, place) <= History(Apply(s, a), place)
  {
    var h, n := History(s, place), History(Apply(s, a), place);
    assert IsChain(place, h);
    if n != h {
      var p := s.prepared[a.run];
      assert PreparedOk(s, a.run);
      var k: nat :| k <= |h| && p.expected == ObservedAfter(place, h, k);
      TagNamesVersion(place, h, k);
      forall i: nat | i < |n| ensures Link(place, n, i) {
        if i < |h| {
          assert Link(place, h, i);
        }
      }
    }
  }

  lemma PreparedStays(s: State, a: Action, run: nat)
    requires Inv(s) && Enabled(s, a)
    ensures PreparedOk(Apply(s, a), run)
  {
    var n := Apply(s, a);
    if run in n.prepared {
      var place := n.prepared[run].owner.place;
      ChainGrows(s, a, place);
      var h, m := History(s, place), History(n, place);
      if run in s.prepared {
        assert PreparedOk(s, run);
        var k: nat :| k <= |h| && s.prepared[run].expected == ObservedAfter(place, h, k);
        assert n.prepared[run].expected == ObservedAfter(place, m, k);
      } else {
        assert n.prepared[run].expected == ObservedAfter(place, m, |m|);
      }
    }
  }

  lemma {:induction false} InvAlways(s: State, actions: seq<Action>)
    requires Inv(s) && IsRun(s, actions)
    ensures Inv(After(s, actions))
    ensures forall place :: History(s, place) <= History(After(s, actions), place)
    decreases |actions|
  {
    if actions != [] {
      var n := Apply(s, actions[0]);
      forall place ensures IsChain(place, History(n, place)) && History(s, place) <= History(n, place) {
        ChainGrows(s, actions[0], place);
      }
      forall run ensures PreparedOk(n, run) {
        PreparedStays(s, actions[0], run);
      }
      InvAlways(n, actions[1..]);
      forall place ensures History(s, place) <= History(After(s, actions), place) {
        assert History(s, place) <= History(n, place) <= History(After(n, actions[1..]), place);
      }
    }
  }

  /** In every run the owner history of a place is a chain: each plan had fixed the exact version it replaced. */
  lemma HistoryIsChain(actions: seq<Action>, place: Place)
    requires IsRun(EMPTY, actions)
    ensures IsChain(place, History(After(EMPTY, actions), place))
  {
    assert forall p: Place :: History(EMPTY, p) == [];
    InvAlways(EMPTY, actions);
  }

  /** The continuation check of a plan against the owner now stored. */
  predicate Passes(s: State, plan: Plan, predecessor: Option<Predecessor>) {
    var h := History(s, plan.place);
    h != [] && MutationContinuation(plan, h[|h| - 1].body, predecessor)
  }

  /** Two plans that pass in the same state are the same plan of the same execution. */
  lemma AtMostOnePasses(s: State, p: Plan, q: Plan, before: Option<Predecessor>, after: Option<Predecessor>)
    requires p.place == q.place && Passes(s, p, before) && Passes(s, q, after)
    ensures p == q
  {
    var h := History(s, p.place);
    assert h[|h| - 1].body.packageSha256 == p && h[|h| - 1].body.packageSha256 == q;
  }

  /** A write takes over exactly when nothing was written since its plan's observation; then its plan passes. */
  lemma WriteTakesOver(actions: seq<Action>, a: Action)
    requires IsRun(EMPTY, actions) && a.Write? && Enabled(After(EMPTY, actions), a)
    ensures var s := After(EMPTY, actions); var p := s.prepared[a.run];
      var place := p.owner.place;
      && (Passes(Apply(s, a), p.owner.packageSha256, None)
          <==> p.expected == Current(s, place) || Passes(s, p.owner.packageSha256, None))
      && (p.expected == Current(s, place) <==> History(Apply(s, a), place) != History(s, place))
  {
    var s := After(EMPTY, actions);
    assert forall p: Place :: History(EMPTY, p) == [];
    InvAlways(EMPTY, actions);
    var p := s.prepared[a.run];
    var place := p.owner.place;
    var h := History(s, place);
    assert PreparedOk(s, a.run) && IsChain(place, h);
    var k: nat :| k <= |h| && p.expected == ObservedAfter(place, h, k);
    if ConditionHolds(p.expected, Current(s, place)) {
      TagNamesVersion(place, h, k);
    }
  }

  /** The times at which a plan passes are contiguous: once replaced, an owner never comes back. */
  lemma PassingIsAnInterval(first: seq<Action>, second: seq<Action>, third: seq<Action>, plan: Plan,
                            predecessor: Option<Predecessor>)
    requires IsRun(EMPTY, first) && IsRun(After(EMPTY, first), second)
    requires IsRun(After(After(EMPTY, first), second), third)
    requires var s := After(EMPTY, first); var u := After(After(s, second), third);
      Passes(s, plan, predecessor) && Passes(u, plan, predecessor)
    ensures Passes(After(After(EMPTY, first), second), plan, predecessor)
  {
    var place := plan.place;
    var s := After(EMPTY, first);
    var t := After(s, second);
    var u := After(t, third);
    assert forall p: Place :: History(EMPTY, p) == [];
    InvAlways(EMPTY, first);
    InvAlways(s, second);
    InvAlways(t, third);
    var h, m, n := History(s, place), History(t, place), History(u, place);
    assert h <= m <= n && IsChain(place, n);
    BodiesAreDistinct(place, n, |h| - 1, |n| - 1);
  }
}
