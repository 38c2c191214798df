/** Which workspace packages a change affects. */
module AffectedPackages {
  import opened Graphs

  type Name = Node

  datatype Option<+T> = None | Some(value: T)

  datatype Package = Package(name: Name, workspaceDependencies: seq<Name>)

  function Dependencies(packages: seq<Package>): Edges {
    set p, d | p in packages && d in p.workspaceDependencies :: (p.name, d)
  }

  function Names(packages: seq<Package>): set<Name> {
    set p | p in packages :: p.name
  }

  /** The package depends on a changed one, directly or through others, or has changed itself. */
  ghost predicate IsAffected(packages: seq<Package>, changed: seq<Name>, n: Name) {
    exists c :: c in changed && Reaches(Dependencies(packages), n, c)
  }

  predicate DependsOnAny(p: Package, names: set<Name>) {
    exists d :: d in p.workspaceDependencies && d in names
  }

  /** One pass over the packages, which adds each that depends on one already affected. */
  method AddDependents(packages: seq<Package>, changed: seq<Name>, affected: set<Name>)
    returns (more: set<Name>, added: bool)
    requires forall n :: n in affected ==> n in Names(packages) && IsAffected(packages, changed, n)
    ensures affected <= more && (added <==> affected != more)
    ensures forall n :: n in more ==> n in Names(packages) && IsAffected(packages, changed, n)
    ensures !added ==> forall p :: p in packages && DependsOnAny(p, more) ==> p.name in more
  {
    more, added := affected, false;
    for i := 0 to |packages|
      invariant affected <= more && (added <==> affected != more)
      invariant forall n :: n in more ==> n in Names(packages) && IsAffected(packages, changed, n)
      invariant !added ==> forall j :: 0 <= j < i && DependsOnAny(packages[j], more) ==> packages[j].name in more
    {
      var p := packages[i];
      if p.name !in more && DependsOnAny(p, more) {
        ghost var d :| d in p.workspaceDependencies && d in more;
        ghost var c :| c in changed && Reaches(Dependencies(packages), d, c);
        assert (p.name, d) in Dependencies(packages);
        ReachesBefore(Dependencies(packages), p.name, d, c);
        more, added := more + {p.name}, true;
      }
    }
  }

  /** Exactly the packages from which a changed package is reachable, each as often as it is listed. */
  method SelectAffectedWorkspacePackages(packages: seq<Package>, changed: seq<Name>) returns (r: Option<seq<Package>>)
    ensures r.Some? <==> forall n :: n in changed ==> n in Names(packages)
    ensures r.Some? ==> forall p ::
      multiset(r.value)[p] == if IsAffected(packages, changed, p.name) then multiset(packages)[p] else 0
  {
    if exists n :: n in changed && n !in Names(packages) {
      return None;
    }
    var affected := set n | n in changed;
    forall n | n in affected ensures IsAffected(packages, changed, n) {
      ReachesItself(Dependencies(packages), n);
    }
    var added := true;
    while added
      invariant affected <= Names(packages) && (forall n :: n in changed ==> n in affected)
      invariant forall n :: n in affected ==> IsAffected(packages, changed, n)
      invariant !added ==> forall p :: p in packages && DependsOnAny(p, affected) ==> p.name in affected
      decreases Names(packages) - affected, added
    {
      affected, added := AddDependents(packages, changed, affected);
    }
    FixpointIsAffected(packages, changed, affected);
    var selected := Filter(packages, affected);
    r := Some(selected);
  }

  method Filter(packages: seq<Package>, affected: set<Name>) returns (selected: seq<Package>)
    ensures forall p :: multiset(selected)[p] == if p.name in affected then multiset(packages)[p] else 0
  {
    selected := [];
    for i := 0 to |packages|
      invariant forall p :: multiset(selected)[p] == if p.name in affected then multiset(packages[..i])[p] else 0
    {
      assert packages[..i + 1] == packages[..i] + [packages[i]];
      if packages[i].name in affected {
        selected := selected + [packages[i]];
      }
    }
    assert packages[..|packages|] == packages;
  }

  /** Where no pass adds anything, everything affected has been added. */
  lemma FixpointIsAffected(packages: seq<Package>, changed: seq<Name>, affected: set<Name>)
    requires forall n :: n in changed ==> n in affected
    requires forall n :: n in affected ==> IsAffected(packages, changed, n)
    requires forall p :: p in packages && DependsOnAny(p, affected) ==> p.name in affected
    ensures forall n :: n in affected <==> IsAffected(packages, changed, n)
  {
    AffectedIsBackClosed(packages, affected);
    forall n | IsAffected(packages, changed, n) ensures n in affected {
      var c :| c in changed && Reaches(Dependencies(packages), n, c);
      var path :| PathFrom(Dependencies(packages), n, c, path);
      BackClosedHoldsReaching(Dependencies(packages), affected, n, c, path);
    }
  }

  lemma AffectedIsBackClosed(packages: seq<Package>, affected: set<Name>)
    requires forall p :: p in packages && DependsOnAny(p, affected) ==> p.name in affected
    ensures forall x, y :: (x, y) in Dependencies(packages) && y in affected ==> x in affected
  {
    forall x, y | (x, y) in Dependencies(packages) && y in affected ensures x in affected {
      var p, d :| p in packages && d in p.workspaceDependencies && (p.name, d) == (x, y);
      assert DependsOnAny(p, affected);
    }
  }
}
