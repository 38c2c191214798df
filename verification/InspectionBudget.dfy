/**
 The budgeted proxy check that runs before any descriptor is captured.  It walks
 the unfolding of an object graph, so shared objects are charged every time they
 are met; the budget is what makes it end.
 */
module InspectionBudget {
  import opened JsHeap

  const MAX_VALUES := 100_000
  const MAX_BYTES := 64 * 1024 * 1024
  const MAX_ENTRIES := 10_000
  const MAX_DEPTH := 64

  function ValueBytes(v: Value): nat {
    if v.Text? then Utf8Length(v.s) else 0
  }

  predicate EntriesBounded(node: Node) {
    (node.kind.ArrayOf? ==> node.kind.length <= MAX_ENTRIES)
    && |node.properties| <= MAX_ENTRIES + if node.kind.ArrayOf? then 1 else 0
  }

  /** The unfolding: a tree of everything the walk meets, with what each part is charged. */
  datatype Tree = Leaf(bytes: nat) | Branch(children: seq<Child>)
  datatype Child = Skipped(keyBytes: nat) | Met(keyBytes: nat, tree: Tree)

  ghost predicate UnfoldsChild(heap: Heap, property: Property, child: Child)
    decreases child, 0
  {
    && child.keyBytes == KeyBytes(property.key)
    && (property.value.Some? <==> child.Met?)
    && (child.Met? ==> Unfolds(heap, property.value.value, child.tree))
  }

  /** The value unfolds to the finite tree `t`, meeting no proxy and no oversized collection. */
  ghost predicate Unfolds(heap: Heap, v: Value, t: Tree)
    decreases t, 1
  {
    if v.Ref? then
      && v.at in heap && !heap[v.at].proxy && EntriesBounded(heap[v.at])
      && t.Branch? && |t.children| == |heap[v.at].properties|
      && forall i :: 0 <= i < |t.children| ==> UnfoldsChild(heap, heap[v.at].properties[i], t.children[i])
    else t == Leaf(ValueBytes(v))
  }

  function Last(cs: seq<Child>): (c: Child)
    requires cs != []
    ensures c == cs[|cs| - 1] && (c.Met? ==> c.tree < c)
  {
    cs[|cs| - 1]
  }

  /** How many values the tree holds. */
  ghost function Size(t: Tree): nat
    decreases t, 1
  {
    if t.Leaf? then 1 else 1 + SizeAll(t.children)
  }

  ghost function SizeAll(cs: seq<Child>): nat
    decreases cs, 0
  {
    if cs == [] then 0
    else SizeAll(cs[..|cs| - 1])
         + if Last(cs).Met? then Size(Last(cs).tree) else 0
  }

  /** How deep the tree is. */
  ghost function Depth(t: Tree): nat
    decreases t, 1
  {
    if t.Leaf? then 0 else DepthAll(t.children)
  }

  ghost function DepthAll(cs: seq<Child>): nat
    decreases cs, 0
  {
    if cs == [] then 0
    else
      var before := DepthAll(cs[..|cs| - 1]);
      var last := if Last(cs).Met? then 1 + Depth(Last(cs).tree) else 0;
      if last > before then last else before
  }

  /** All bytes the tree is charged, for strings and for key names. */
  ghost function ChargedBytes(t: Tree): nat
    decreases t, 1
  {
    if t.Leaf? then t.bytes else ChargedAll(t.children)
  }

  ghost function ChargedAll(cs: seq<Child>): nat
    decreases cs, 0
  {
    if cs == [] then 0
    else ChargedAll(cs[..|cs| - 1]) + Last(cs).keyBytes
         + if Last(cs).Met? then ChargedBytes(Last(cs).tree) else 0
  }

  /** The bytes charged when the last value is met; keys of trailing accessors come after that check. */
  ghost function CheckedBytes(t: Tree): (n: nat)
    ensures n <= ChargedBytes(t)
    decreases t, 1
  {
    if t.Leaf? then t.bytes else CheckedAll(t.children)
  }

  ghost function CheckedAll(cs: seq<Child>): (n: nat)
    ensures n <= ChargedAll(cs)
    decreases cs, 0
  {
    if cs == [] then 0
    else if Last(cs).Met? then
      ChargedAll(cs[..|cs| - 1]) + Last(cs).keyBytes + CheckedBytes(Last(cs).tree)
    else CheckedAll(cs[..|cs| - 1])
  }

  /** Starting from a partly used budget at some depth, the tree stays within every bound. */
  ghost predicate Fits(t: Tree, count: nat, bytes: nat, depth: nat) {
    count + Size(t) <= MAX_VALUES && bytes + CheckedBytes(t) <= MAX_BYTES && depth + Depth(t) <= MAX_DEPTH
  }

  ghost predicate FitsAll(cs: seq<Child>, count: nat, bytes: nat, depth: nat) {
    count + SizeAll(cs) <= MAX_VALUES && bytes + CheckedAll(cs) <= MAX_BYTES && depth + DepthAll(cs) <= MAX_DEPTH
  }

  /** A value has at most one unfolding. */
  lemma {:induction false} UnfoldingIsUnique(heap: Heap, v: Value, t: Tree, u: Tree)
    requires Unfolds(heap, v, t) && Unfolds(heap, v, u)
    ensures t == u
    decreases t
  {
    if v.Ref? {
      forall i | 0 <= i < |t.children| ensures t.children[i] == u.children[i] {
        var property := heap[v.at].properties[i];
        assert UnfoldsChild(heap, property, t.children[i]) && UnfoldsChild(heap, property, u.children[i]);
        if t.children[i].Met? {
          UnfoldingIsUnique(heap, property.value.value, t.children[i].tree, u.children[i].tree);
        }
      }
    }
  }

  lemma {:induction false} ChildIsSmaller(cs: seq<Child>, i: nat)
    requires i < |cs| && cs[i].Met?
    ensures Size(cs[i].tree) <= SizeAll(cs)
  {
    if i < |cs| - 1 {
      ChildIsSmaller(cs[..|cs| - 1], i);
    }
  }

  /** The value has an unfolding smaller than `t`. */
  ghost predicate UnfoldsBelow(heap: Heap, v: Value, t: Tree) {
    exists u :: Unfolds(heap, v, u) && Size(u) < Size(t)
  }

  /** What is below a node on the stack: its unfolding, if any, strictly contains one of `v`. */
  ghost predicate Below(heap: Heap, a: Address, v: Value) {
    forall t {:trigger UnfoldsBelow(heap, v, t)} :: Unfolds(heap, Ref(a), t) ==> UnfoldsBelow(heap, v, t)
  }

  /** A value that is its own descendant has no finite unfolding. */
  lemma CycleNeverUnfolds(heap: Heap, a: Address, t: Tree)
    requires Below(heap, a, Ref(a))
    ensures !Unfolds(heap, Ref(a), t)
  {
    if Unfolds(heap, Ref(a), t) && UnfoldsBelow(heap, Ref(a), t) {
      var u :| Unfolds(heap, Ref(a), u) && Size(u) < Size(t);
      UnfoldingIsUnique(heap, Ref(a), t, u);
    }
  }

  lemma PropertyIsBelow(heap: Heap, a: Address, i: nat)
    requires a in heap && i < |heap[a].properties| && heap[a].properties[i].value.Some?
    ensures Below(heap, a, heap[a].properties[i].value.value)
  {
    var v := heap[a].properties[i].value.value;
    forall t | Unfolds(heap, Ref(a), t) ensures UnfoldsBelow(heap, v, t) {
      assert UnfoldsChild(heap, heap[a].properties[i], t.children[i]);
      ChildIsSmaller(t.children, i);
    }
  }

  lemma BelowIsTransitive(heap: Heap, a: Address, b: Address, v: Value)
    requires Below(heap, a, Ref(b)) && Below(heap, b, v)
    ensures Below(heap, a, v)
  {
    forall t | Unfolds(heap, Ref(a), t) ensures UnfoldsBelow(heap, v, t) {
      assert UnfoldsBelow(heap, Ref(b), t);
      var s :| Unfolds(heap, Ref(b), s) && Size(s) < Size(t);
      assert UnfoldsBelow(heap, v, s);
    }
  }

  /** A prefix of the children is charged no more than all of them. */
  lemma {:induction false} PrefixCharges(cs: seq<Child>, n: nat)
    requires n <= |cs|
    ensures SizeAll(cs[..n]) <= SizeAll(cs) && CheckedAll(cs[..n]) <= CheckedAll(cs)
    ensures DepthAll(cs[..n]) <= DepthAll(cs)
    decreases |cs|
  {
    if n == |cs| {
      assert cs[..n] == cs;
    } else {
      PrefixCharges(cs[..|cs| - 1], n);
      assert cs[..|cs| - 1][..n] == cs[..n];
    }
  }

  /** The children met so far are those of any unfolding. */
  ghost predicate UnfoldsPrefix(heap: Heap, a: Address, cs: seq<Child>) {
    a in heap && |cs| <= |heap[a].properties|
    && forall i :: 0 <= i < |cs| ==> UnfoldsChild(heap, heap[a].properties[i], cs[i])
  }

  lemma PrefixOfUnfolding(heap: Heap, a: Address, cs: seq<Child>, t: Tree)
    requires Unfolds(heap, Ref(a), t) && UnfoldsPrefix(heap, a, cs)
    ensures |cs| <= |t.children| && t.children[..|cs|] == cs
  {
    forall i | 0 <= i < |cs| ensures t.children[i] == cs[i] {
      assert UnfoldsChild(heap, heap[a].properties[i], cs[i]);
      assert UnfoldsChild(heap, heap[a].properties[i], t.children[i]);
      if cs[i].Met? {
        UnfoldingIsUnique(heap, heap[a].properties[i].value.value, cs[i].tree, t.children[i].tree);
      }
    }
  }

  /** A tree within the budget leaves enough for each child, after its elder siblings. */
  lemma ChildFits(t: Tree, n: nat, count: nat, bytes: nat, depth: nat)
    requires t.Branch? && n < |t.children| && t.children[n].Met? && Fits(t, count, bytes, depth)
    ensures var cs, c := t.children[..n], t.children[n];
      Fits(c.tree, count + 1 + SizeAll(cs), bytes + ChargedAll(cs) + c.keyBytes, depth + 1)
  {
    var cs, c := t.children[..n], t.children[n];
    assert t.children[..n + 1] == cs + [c];
    ChargesGrow(cs, c);
    PrefixCharges(t.children, n + 1);
  }

  lemma ChildOfUnfolding(heap: Heap, a: Address, n: nat, t: Tree)
    requires Unfolds(heap, Ref(a), t) && n < |heap[a].properties| && heap[a].properties[n].value.Some?
    ensures n < |t.children| && t.children[n].Met? && t.children[n].keyBytes == KeyBytes(heap[a].properties[n].key)
    ensures Unfolds(heap, heap[a].properties[n].value.value, t.children[n].tree)
  {
    assert UnfoldsChild(heap, heap[a].properties[n], t.children[n]);
  }

  /** When the next child cannot be charged, neither can the whole node. */
  lemma ChildExceeds(heap: Heap, a: Address, cs: seq<Child>, count: nat, bytes: nat, depth: nat)
    requires UnfoldsPrefix(heap, a, cs) && |cs| < |heap[a].properties|
    requires var property := heap[a].properties[|cs|];
      property.value.Some?
      && forall u :: Unfolds(heap, property.value.value, u) ==>
           !Fits(u, count + 1 + SizeAll(cs), bytes + ChargedAll(cs) + KeyBytes(property.key), depth + 1)
    ensures forall t :: Unfolds(heap, Ref(a), t) ==> !Fits(t, count, bytes, depth)
  {
    forall t | Unfolds(heap, Ref(a), t) && Fits(t, count, bytes, depth) ensures false {
      PrefixOfUnfolding(heap, a, cs, t);
      ChildOfUnfolding(heap, a, |cs|, t);
      ChildFits(t, |cs|, count, bytes, depth);
    }
  }

  /** The budget of one inspection and the stack of the walk. */
  class Inspection {
    const heap: Heap
    var bytes: nat
    var count: nat
    var ancestors: set<Address>

    constructor (heap: Heap)
      ensures this.heap == heap && bytes == 0 && count == 0 && ancestors == {}
    {
      this.heap, bytes, count, ancestors := heap, 0, 0, {};
    }

    ghost predicate StackAbove(v: Value)
      reads this
    {
      forall a :: a in ancestors ==> a in heap && Below(heap, a, v)
    }

    /**
     The walk accepts exactly the values that have a finite unfolding within the
     budget that is left, and charges that unfolding.
     */
    method RejectProxies(v: Value, depth: nat) returns (ok: bool, ghost t: Tree)
      requires Closed(heap) && InHeap(heap, v) && StackAbove(v)
      modifies this
      ensures ancestors == old(ancestors)
      ensures ok ==> Unfolds(heap, v, t) && Fits(t, old(count), old(bytes), depth)
      ensures ok ==> count == old(count) + Size(t) && bytes == old(bytes) + ChargedBytes(t)
      ensures !ok ==> forall u :: Unfolds(heap, v, u) ==> !Fits(u, old(count), old(bytes), depth)
      decreases heap.Keys - ancestors, 1
    {
      t := Leaf(ValueBytes(v));
      count := count + 1;
      bytes := bytes + ValueBytes(v);
      if count > MAX_VALUES || bytes > MAX_BYTES || depth > MAX_DEPTH {
        return false, t;
      }
      if !v.Ref? {
        return true, t;
      }
      if heap[v.at].proxy {
        return false, t;
      }
      if v.at in ancestors {
        forall u ensures !Unfolds(heap, v, u) {
          CycleNeverUnfolds(heap, v.at, u);
        }
        return false, t;
      }
      ok, t := InspectChildren(v.at, depth, old(count), old(bytes));
      ancestors := ancestors - {v.at};
      assert ancestors == old(ancestors);
    }

    /** Push the object and charge its keys and data properties; the caller pops it. */
    method InspectChildren(a: Address, depth: nat, ghost count0: nat, ghost bytes0: nat)
      returns (ok: bool, ghost t: Tree)
      requires Closed(heap) && a in heap && !heap[a].proxy && a !in ancestors && StackAbove(Ref(a))
      requires count == count0 + 1 <= MAX_VALUES && bytes == bytes0 <= MAX_BYTES && depth <= MAX_DEPTH
      modifies this
      ensures ancestors == old(ancestors) + {a}
      ensures ok ==> Unfolds(heap, Ref(a), t) && Fits(t, count0, bytes0, depth)
      ensures ok ==> count == count0 + Size(t) && bytes == bytes0 + ChargedBytes(t)
      ensures !ok ==> forall u :: Unfolds(heap, Ref(a), u) ==> !Fits(u, count0, bytes0, depth)
      decreases heap.Keys - ancestors, 0
    {
      t := Leaf(0);
      ghost var stack := ancestors;
      ancestors := ancestors + {a};
      if !EntriesBounded(heap[a]) {
        return false, t;
      }
      var properties := heap[a].properties;
      ghost var cs: seq<Child> := [];
      for i := 0 to |properties|
        invariant ancestors == stack + {a}
        invariant |cs| == i && UnfoldsPrefix(heap, a, cs)
        invariant count == count0 + 1 + SizeAll(cs) && bytes == bytes0 + ChargedAll(cs)
        invariant FitsAll(cs, count0 + 1, bytes0, depth)
      {
        bytes := bytes + KeyBytes(properties[i].key);
        match properties[i].value {
          case None =>
            ChargesGrow(cs, Skipped(KeyBytes(properties[i].key)));
            cs := cs + [Skipped(KeyBytes(properties[i].key))];
          case Some(child) =>
            StackAboveChild(a, i, stack);
            ghost var u;
            ok, u := RejectProxies(child, depth + 1);
            if !ok {
              ChildExceeds(heap, a, cs, count0, bytes0, depth);
              return false, t;
            }
            ChargesGrow(cs, Met(KeyBytes(properties[i].key), u));
            cs := cs + [Met(KeyBytes(properties[i].key), u)];
        }
      }
      t := Branch(cs);
      assert Unfolds(heap, Ref(a), t);
      return true, t;
    }

    lemma StackAboveChild(a: Address, i: nat, stack: set<Address>)
      requires a in heap && i < |heap[a].properties| && heap[a].properties[i].value.Some?
      requires ancestors == stack + {a}
      requires forall b :: b in stack ==> b in heap && Below(heap, b, Ref(a))
      ensures StackAbove(heap[a].properties[i].value.value)
    {
      PropertyIsBelow(heap, a, i);
      forall b | b in stack ensures Below(heap, b, heap[a].properties[i].value.value) {
        BelowIsTransitive(heap, b, a, heap[a].properties[i].value.value);
      }
    }
  }

  /** What one more child adds to the charges. */
  lemma ChargesGrow(cs: seq<Child>, c: Child)
    ensures var more := cs + [c];
      && SizeAll(more) == SizeAll(cs) + (if c.Met? then Size(c.tree) else 0)
      && ChargedAll(more) == ChargedAll(cs) + c.keyBytes + (if c.Met? then ChargedBytes(c.tree) else 0)
      && CheckedAll(more) == (if c.Met? then ChargedAll(cs) + c.keyBytes + CheckedBytes(c.tree) else CheckedAll(cs))
      && DepthAll(more) == (if c.Met? && 1 + Depth(c.tree) > DepthAll(cs) then 1 + Depth(c.tree) else DepthAll(cs))
  {
    var more := cs + [c];
    assert more[..|more| - 1] == cs && Last(more) == c;
  }

  /** One inspection from the outside, with the whole budget. */
  method Inspect(heap: Heap, v: Value) returns (ok: bool, ghost t: Tree)
    requires Closed(heap) && InHeap(heap, v)
    ensures ok ==> Unfolds(heap, v, t) && Fits(t, 0, 0, 0)
    ensures !ok ==> forall u :: Unfolds(heap, v, u) ==> !Fits(u, 0, 0, 0)
  {
    var inspection := new Inspection(heap);
    ok, t := inspection.RejectProxies(v, 0);
  }
}
