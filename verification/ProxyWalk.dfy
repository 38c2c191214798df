/**
 Rejecting proxies in an object graph, with a cache that outlives the call.

 The JavaScript heap is a map from addresses to nodes.  A leaf is any value that
 is not an object; callable values are leaves here too, as `typeof` tells them
 apart from objects.
 */
module ProxyWalk {

  type Address = nat

  datatype Value = Leaf | Ref(at: Address)

  /** One own property: a data property with its value, or an accessor, which is never read. */
  datatype Property = Data(value: Value) | Accessor

  datatype Node = Node(proxy: bool, bytes: bool, frozen: bool, properties: seq<Property>)

  type Heap = map<Address, Node>

  ghost predicate InHeap(heap: Heap, v: Value) {
    v.Ref? ==> v.at in heap
  }

  /** No reference dangles. */
  ghost predicate Closed(heap: Heap) {
    forall a, i :: a in heap && 0 <= i < |heap[a].properties| && heap[a].properties[i].Data? ==>
      InHeap(heap, heap[a].properties[i].value)
  }

  /** The walk looks inside objects that are neither proxies nor byte arrays. */
  ghost predicate Edge(heap: Heap, a: Address, b: Address) {
    a in heap && !heap[a].proxy && !heap[a].bytes
    && exists i :: 0 <= i < |heap[a].properties| && heap[a].properties[i] == Data(Ref(b))
  }

  ghost predicate IsPath(heap: Heap, path: seq<Address>) {
    && |path| > 0
    && (forall i :: 0 <= i < |path| ==> path[i] in heap)
    && forall i :: 0 <= i < |path| - 1 ==> Edge(heap, path[i], path[i + 1])
  }

  ghost predicate PathToProxy(heap: Heap, a: Address, avoid: set<Address>, path: seq<Address>) {
    && IsPath(heap, path) && path[0] == a && heap[path[|path| - 1]].proxy
    && forall i :: 0 <= i < |path| ==> path[i] !in avoid
  }

  /** A proxy is reachable from `a` by data properties without touching `avoid`. */
  ghost predicate ReachesProxy(heap: Heap, a: Address, avoid: set<Address>) {
    exists path :: PathToProxy(heap, a, avoid, path)
  }

  ghost predicate HasProxy(heap: Heap, v: Value) {
    v.Ref? && ReachesProxy(heap, v.at, {})
  }

  // ------------------------------------------------------------------
  // Reachability, one node at a time

  lemma {:induction false} LastVisit(path: seq<Address>, a: Address) returns (k: nat)
    requires |path| > 0 && path[0] == a
    ensures k < |path| && path[k] == a && forall i :: k < i < |path| ==> path[i] != a
  {
    k := 0;
    for n := 1 to |path|
      invariant k < n && path[k] == a && forall i :: k < i < n ==> path[i] != a
    {
      if path[n] == a {
        k := n;
      }
    }
  }

  /**
   From an inspected node a proxy is reachable exactly when it is from some child
   without coming back.  This is why the walk may ignore nodes on its own stack.
   */
  lemma ReachesThroughChild(heap: Heap, a: Address, avoid: set<Address>)
    requires a in heap && !heap[a].proxy && a !in avoid
    ensures ReachesProxy(heap, a, avoid) <==>
            exists b :: Edge(heap, a, b) && ReachesProxy(heap, b, avoid + {a})
  {
    if path :| PathToProxy(heap, a, avoid, path) {
      var k := LastVisit(path, a);
      var rest := path[k + 1..];
      assert PathToProxy(heap, path[k + 1], avoid + {a}, rest) by {
        forall i | 0 <= i < |rest| - 1 ensures Edge(heap, rest[i], rest[i + 1]) {
          assert Edge(heap, path[k + 1 + i], path[k + 1 + i + 1]);
        }
      }
      assert Edge(heap, path[k], path[k + 1]);
    }
    if b :| Edge(heap, a, b) && ReachesProxy(heap, b, avoid + {a}) {
      var path :| PathToProxy(heap, b, avoid + {a}, path);
      var longer := [a] + path;
      forall i | 0 <= i < |longer| - 1 ensures Edge(heap, longer[i], longer[i + 1]) {
        if i > 0 {
          assert Edge(heap, path[i - 1], path[i - 1 + 1]);
        }
      }
      assert PathToProxy(heap, a, avoid, longer);
    }
  }

  // ------------------------------------------------------------------
  // Immutable trees

  /** A frozen object of data properties only, with nothing but leaves and such objects below it, `n` levels deep. */
  ghost predicate Solid(heap: Heap, a: Address, n: nat)
    decreases n, 0
  {
    && n > 0 && a in heap && heap[a].frozen && !heap[a].proxy && !heap[a].bytes
    && forall i :: 0 <= i < |heap[a].properties| ==> SolidProperty(heap, heap[a].properties[i], n - 1)
  }

  ghost predicate SolidProperty(heap: Heap, property: Property, n: nat)
    decreases n, 1
  {
    property.Data? && (property.value.Ref? ==> Solid(heap, property.value.at, n))
  }

  /** The whole tree below the value is immutable; a cycle is no such tree. */
  ghost predicate Immutable(heap: Heap, v: Value) {
    v.Ref? ==> exists n: nat :: Solid(heap, v.at, n)
  }

  lemma {:induction false} SolidDeeper(heap: Heap, a: Address, n: nat, m: nat)
    requires Solid(heap, a, n) && n <= m
    ensures Solid(heap, a, m)
    decreases n
  {
    forall i | 0 <= i < |heap[a].properties| ensures SolidProperty(heap, heap[a].properties[i], m - 1) {
      var property := heap[a].properties[i];
      assert SolidProperty(heap, property, n - 1);
      if property.value.Ref? {
        SolidDeeper(heap, property.value.at, n - 1, m - 1);
      }
    }
  }

  /** Immutable children are so to a common depth. */
  lemma {:induction false} CommonDepth(heap: Heap, properties: seq<Property>) returns (n: nat)
    requires forall i :: 0 <= i < |properties| ==> properties[i].Data? && Immutable(heap, properties[i].value)
    ensures forall i :: 0 <= i < |properties| ==> SolidProperty(heap, properties[i], n)
  {
    n := 0;
    for k := 0 to |properties|
      invariant forall i :: 0 <= i < k ==> SolidProperty(heap, properties[i], n)
    {
      var m := n;
      if properties[k].value.Ref? {
        var d: nat :| Solid(heap, properties[k].value.at, d);
        n := if m < d then d else m;
        SolidDeeper(heap, properties[k].value.at, d, n);
      }
      forall i | 0 <= i < k ensures SolidProperty(heap, properties[i], n) {
        assert SolidProperty(heap, properties[i], m);
        if properties[i].value.Ref? {
          SolidDeeper(heap, properties[i].value.at, m, n);
        }
      }
    }
  }

  /** An object is immutable exactly when it is frozen, holds only data, and all of its children are immutable. */
  lemma ImmutableByChildren(heap: Heap, a: Address)
    requires a in heap && !heap[a].proxy && !heap[a].bytes
    ensures Immutable(heap, Ref(a)) <==>
      heap[a].frozen
      && forall i :: 0 <= i < |heap[a].properties| ==> ImmutableProperty(heap, heap[a].properties[i])
  {
    var properties := heap[a].properties;
    if Immutable(heap, Ref(a)) {
      var n: nat :| Solid(heap, a, n);
      forall i | 0 <= i < |properties| ensures ImmutableProperty(heap, properties[i]) {
        assert SolidProperty(heap, properties[i], n - 1);
        assert properties[i].value.Ref? ==> Solid(heap, properties[i].value.at, n - 1);
      }
    }
    if heap[a].frozen && forall i :: 0 <= i < |properties| ==> ImmutableProperty(heap, properties[i]) {
      forall i | 0 <= i < |properties| ensures properties[i].Data? && Immutable(heap, properties[i].value) {
        assert ImmutableProperty(heap, properties[i]);
      }
      var n := CommonDepth(heap, properties);
      assert Solid(heap, a, n + 1);
    }
  }

  ghost predicate ImmutableProperty(heap: Heap, property: Property) {
    property.Data? && Immutable(heap, property.value)
  }

  /** Where a node of the stack is immutable, the value is so one level below it. */
  ghost predicate Below(heap: Heap, stack: set<Address>, v: Value) {
    forall c, n: nat :: c in stack && Solid(heap, c, n) ==> SolidProperty(heap, Data(v), n - 1)
  }

  lemma {:induction false} NoSolidCycle(heap: Heap, stack: set<Address>, a: Address, n: nat)
    requires Below(heap, stack, Ref(a)) && a in stack
    ensures !Solid(heap, a, n)
  {
    if Solid(heap, a, n) {
      assert SolidProperty(heap, Data(Ref(a)), n - 1);
      NoSolidCycle(heap, stack, a, n - 1);
    }
  }

  /** A value of the stack is on a cycle, and so not immutable. */
  lemma CycleIsMutable(heap: Heap, stack: set<Address>, a: Address)
    requires Below(heap, stack, Ref(a)) && a in stack
    ensures !Immutable(heap, Ref(a))
  {
    forall n: nat ensures !Solid(heap, a, n) {
      NoSolidCycle(heap, stack, a, n);
    }
  }

  lemma ChildIsBelow(heap: Heap, stack: set<Address>, a: Address, i: nat)
    requires Below(heap, stack, Ref(a)) && a in heap && i < |heap[a].properties| && heap[a].properties[i].Data?
    ensures Below(heap, stack + {a}, heap[a].properties[i].value)
  {
    var property := heap[a].properties[i];
    forall c, n: nat | c in stack + {a} && Solid(heap, c, n) ensures SolidProperty(heap, Data(property.value), n - 1) {
      if c in stack {
        assert SolidProperty(heap, Data(Ref(a)), n - 1) && Solid(heap, a, n - 1);
        assert SolidProperty(heap, property, n - 2);
        if property.value.Ref? {
          SolidDeeper(heap, property.value.at, n - 2, n - 1);
        }
      } else {
        assert SolidProperty(heap, property, n - 1);
      }
    }
  }

  // ------------------------------------------------------------------
  // The cache

  ghost predicate CachedProperty(property: Property, cache: set<Address>) {
    property.Data? && (property.value.Ref? ==> property.value.at in cache)
  }

  /** A cached node is frozen, holds only data, and all of its children are cached. */
  ghost predicate CachedNode(heap: Heap, cache: set<Address>, a: Address) {
    && a in heap && heap[a].frozen && !heap[a].proxy && !heap[a].bytes
    && forall i :: 0 <= i < |heap[a].properties| ==> CachedProperty(heap[a].properties[i], cache)
  }

  ghost predicate CacheSound(heap: Heap, cache: set<Address>) {
    forall a :: a in cache ==> CachedNode(heap, cache, a) && Immutable(heap, Ref(a))
  }

  /** Everything reachable from a cached node is cached, hence frozen and no proxy. */
  lemma {:induction false} CachedReach(heap: Heap, cache: set<Address>, path: seq<Address>)
    requires CacheSound(heap, cache) && IsPath(heap, path) && path[0] in cache
    ensures forall i :: 0 <= i < |path| ==> path[i] in cache && heap[path[i]].frozen && !heap[path[i]].proxy
    decreases |path|
  {
    assert CachedNode(heap, cache, path[0]);
    if |path| > 1 {
      assert Edge(heap, path[0], path[0 + 1]);
      var rest := path[1..];
      forall i | 0 <= i < |rest| - 1 ensures Edge(heap, rest[i], rest[i + 1]) {
        assert Edge(heap, path[i + 1], path[i + 1 + 1]);
      }
      CachedReach(heap, cache, rest);
      forall i | 0 <= i < |path| ensures path[i] in cache && heap[path[i]].frozen && !heap[path[i]].proxy {
        assert i > 0 ==> path[i] == rest[i - 1];
      }
    }
  }

  lemma CachedIsProxyFree(heap: Heap, cache: set<Address>, a: Address, avoid: set<Address>)
    requires CacheSound(heap, cache) && a in cache
    ensures !ReachesProxy(heap, a, avoid)
  {
    if path :| PathToProxy(heap, a, avoid, path) {
      CachedReach(heap, cache, path);
    }
  }

  lemma CachedHasNoProxy(heap: Heap, cache: set<Address>, avoid: set<Address>)
    requires CacheSound(heap, cache)
    ensures forall a :: a in cache ==> !ReachesProxy(heap, a, avoid)
  {
    forall a | a in cache ensures !ReachesProxy(heap, a, avoid) {
      CachedIsProxyFree(heap, cache, a, avoid);
    }
  }

  /** What a program may do between calls: anything but touch a frozen object. */
  ghost predicate Evolves(before: Heap, after: Heap) {
    forall a :: a in before ==> a in after && (before[a].frozen ==> after[a] == before[a])
  }

  /** Such steps never invalidate the cache. */
  lemma EvolutionKeepsCache(before: Heap, after: Heap, cache: set<Address>)
    requires CacheSound(before, cache) && Evolves(before, after)
    ensures CacheSound(after, cache)
  {
    forall a | a in cache ensures CachedNode(after, cache, a) && Immutable(after, Ref(a)) {
      assert CachedNode(before, cache, a) && Immutable(before, Ref(a));
      var n: nat :| Solid(before, a, n);
      SolidStays(before, after, a, n);
    }
  }

  lemma {:induction false} SolidStays(before: Heap, after: Heap, a: Address, n: nat)
    requires Evolves(before, after) && Solid(before, a, n)
    ensures Solid(after, a, n)
    decreases n
  {
    forall i | 0 <= i < |after[a].properties| ensures SolidProperty(after, after[a].properties[i], n - 1) {
      var property := before[a].properties[i];
      assert SolidProperty(before, property, n - 1);
      if property.value.Ref? {
        SolidStays(before, after, property.value.at, n - 1);
      }
    }
  }

  // ------------------------------------------------------------------
  // The walk

  datatype Outcome = Threw | Done(immutable: bool)

  /** The answer to a call from outside that no cache has a part in. */
  ghost function Uncached(heap: Heap, v: Value): Outcome {
    if HasProxy(heap, v) then Threw else Done(Immutable(heap, v))
  }

  /** The module's cache and the stack of the walk under way. */
  class Inspector {
    var heap: Heap
    var cache: set<Address>
    var ancestors: set<Address>

    ghost predicate Valid()
      reads this
    {
      Closed(heap) && CacheSound(heap, cache)
    }

    constructor (heap: Heap)
      requires Closed(heap)
      ensures Valid() && this.heap == heap && cache == {} && ancestors == {}
    {
      this.heap, cache, ancestors := heap, {}, {};
    }

    /** The nodes on the stack are inspected objects. */
    ghost predicate StackSound()
      reads this
    {
      forall a :: a in ancestors ==> a in heap && !heap[a].proxy
    }

    /**
     Walk one value below the current stack.  The walk throws exactly when a proxy
     is reachable without going through the stack; otherwise it says "immutable"
     exactly of immutable trees, and has cached those.
     */
    method Walk(v: Value) returns (outcome: Outcome)
      requires Valid() && StackSound() && InHeap(heap, v) && Below(heap, ancestors, v)
      modifies this`cache, this`ancestors
      ensures Valid() && ancestors == old(ancestors) && old(cache) <= cache
      ensures outcome.Threw? <==> v.Ref? && ReachesProxy(heap, v.at, ancestors)
      ensures outcome.Done? ==> (outcome.immutable <==> Immutable(heap, v))
      ensures outcome == Done(true) && v.Ref? ==> v.at in cache
      decreases heap.Keys - ancestors, 1
    {
      if v.Leaf? {
        return Done(true);
      }
      var a := v.at;
      if heap[a].proxy {
        assert PathToProxy(heap, a, ancestors, [a]);
        return Threw;
      }
      if heap[a].bytes {
        NothingBelow(heap, a, ancestors);
        assert forall n: nat :: !Solid(heap, a, n);
        return Done(false);
      }
      if a in cache {
        CachedIsProxyFree(heap, cache, a, ancestors);
        return Done(true);
      }
      if a in ancestors {
        CycleIsMutable(heap, ancestors, a);
        assert !exists path :: PathToProxy(heap, a, ancestors, path);
        return Done(false);
      }
      outcome := WalkProperties(a);
      ancestors := ancestors - {a};
      assert ancestors == old(ancestors);
    }

    /** Push an object and walk all of its data properties; the caller pops it. */
    method WalkProperties(a: Address) returns (outcome: Outcome)
      requires Valid() && StackSound()
      requires a in heap && !heap[a].proxy && !heap[a].bytes && a !in ancestors && Below(heap, ancestors, Ref(a))
      modifies this`cache, this`ancestors
      ensures Valid() && ancestors == old(ancestors) + {a} && old(cache) <= cache
      ensures outcome.Threw? <==> ReachesProxy(heap, a, old(ancestors))
      ensures outcome.Done? ==> (outcome.immutable <==> Immutable(heap, Ref(a)))
      ensures a in cache <==> outcome == Done(true)
      decreases heap.Keys - ancestors, 0
    {
      ghost var avoid := ancestors;
      ReachesThroughChild(heap, a, avoid);
      ancestors := ancestors + {a};
      var immutable := heap[a].frozen;
      var properties := heap[a].properties;
      for i := 0 to |properties|
        invariant Valid() && ancestors == avoid + {a} && old(cache) <= cache
        invariant immutable <==> heap[a].frozen && forall j :: 0 <= j < i ==> ImmutableProperty(heap, properties[j])
        invariant immutable ==> forall j :: 0 <= j < i ==> CachedProperty(properties[j], cache)
        invariant forall j :: 0 <= j < i && properties[j].Data? && properties[j].value.Ref? ==>
                    !ReachesProxy(heap, properties[j].value.at, avoid + {a})
      {
        if properties[i].Accessor? {
          immutable := false;
        } else {
          ChildIsBelow(heap, avoid, a, i);
          var child := Walk(properties[i].value);
          if child.Threw? {
            assert Edge(heap, a, properties[i].value.at);
            CachedHasNoProxy(heap, cache, avoid);
            return Threw;
          }
          immutable := immutable && child.immutable;
        }
      }
      ImmutableByChildren(heap, a);
      if immutable {
        cache := cache + {a};
        assert CachedNode(heap, cache, a);
      }
      return Done(immutable);
    }

    /** A call from outside, with an empty stack, answers as if there were no cache, and caches immutable trees only. */
    method RejectProxyTree(v: Value) returns (outcome: Outcome)
      requires Valid() && InHeap(heap, v) && ancestors == {}
      modifies this`cache, this`ancestors
      ensures Valid() && ancestors == {} && old(cache) <= cache
      ensures outcome == Uncached(heap, v)
      ensures v.Ref? ==> (v.at in cache <==> outcome == Done(true))
    {
      outcome := Walk(v);
      CachedHasNoProxy(heap, cache, {});
    }

    /** The rest of the program runs between two calls. */
    method Mutate(next: Heap)
      requires Valid() && Closed(next) && Evolves(heap, next)
      modifies this`heap
      ensures Valid() && heap == next
    {
      EvolutionKeepsCache(heap, next, cache);
      heap := next;
    }
  }

  /** Nothing is reachable through a byte array. */
  lemma NothingBelow(heap: Heap, a: Address, avoid: set<Address>)
    requires a in heap && heap[a].bytes && !heap[a].proxy
    ensures !ReachesProxy(heap, a, avoid)
  {
    if path :| PathToProxy(heap, a, avoid, path) {
      assert |path| > 1 ==> Edge(heap, path[0], path[0 + 1]);
    }
  }

  // ------------------------------------------------------------------
  // Sequences of calls and mutations

  datatype Event = Inspect(value: Value) | Step(next: Heap)

  ghost predicate Possible(heap: Heap, events: seq<Event>)
    decreases events
  {
    events == []
    || (match events[0]
        case Inspect(v) => InHeap(heap, v) && Possible(heap, events[1..])
        case Step(next) => Closed(next) && Evolves(heap, next) && Possible(next, events[1..]))
  }

  /** What a walk without a cache answers at each call. */
  ghost function Answers(heap: Heap, events: seq<Event>): seq<Outcome>
    decreases events
  {
    if events == [] then []
    else
      match events[0]
      case Inspect(v) => [Uncached(heap, v)] + Answers(heap, events[1..])
      case Step(next) => Answers(next, events[1..])
  }

  /** Over any sequence of calls and program steps, the cached walk answers as the uncached one would. */
  method Session(inspector: Inspector, events: seq<Event>) returns (outcomes: seq<Outcome>)
    requires inspector.Valid() && inspector.ancestors == {} && Possible(inspector.heap, events)
    modifies inspector
    ensures inspector.Valid() && inspector.ancestors == {}
    ensures outcomes == Answers(old(inspector.heap), events)
    decreases |events|
  {
    if events == [] {
      return [];
    }
    match events[0] {
      case Inspect(v) =>
        var outcome := inspector.RejectProxyTree(v);
        var rest := Session(inspector, events[1..]);
        outcomes := [outcome] + rest;
      case Step(next) =>
        inspector.Mutate(next);
        outcomes := Session(inspector, events[1..]);
    }
  }
}
