/** What the inspection admits also bounds what the capture returns. */
module SnapshotBudget {
  import opened JsHeap
  import opened InspectionBudget
  import opened SnapshotTree

  /** How many values the data has, counting each byte of a byte array. */
  ghost function Values(d: Data): nat
    decreases d, 1
  {
    match d
    case BytesData(content) => 1 + |content|
    case ListData(items) => 1 + ItemValues(items)
    case RecordData(fields) => 1 + FieldValues(fields)
    case _ => 1
  }

  ghost function ItemValues(items: seq<Data>): nat
    decreases items, 0
  {
    if items == [] then 0
    else
      var n := |items| - 1;
      ItemValues(items[..n]) + Values(items[n])
  }

  ghost function FieldValues(fields: seq<Field>): nat
    decreases fields, 0
  {
    if fields == [] then 0
    else
      var n := |fields| - 1;
      var last := fields[n];
      assert last.data < last;
      FieldValues(fields[..n]) + Values(last.data)
  }

  /** The sizes of the children at some places. */
  ghost function SizesAt(cs: seq<Child>, at: seq<nat>): nat
    requires forall i :: 0 <= i < |at| ==> at[i] < |cs| && cs[at[i]].Met?
  {
    if at == [] then 0
    else
      var n := |at| - 1;
      SizesAt(cs, at[..n]) + Size(cs[at[n]].tree)
  }

  predicate Apart(at: seq<nat>) {
    forall i, j :: 0 <= i < j < |at| ==> at[i] != at[j]
  }

  /** A place can be taken out of the sum. */
  lemma {:induction false} SizesWithout(cs: seq<Child>, at: seq<nat>, k: nat)
    requires (forall i :: 0 <= i < |at| ==> at[i] < |cs| && cs[at[i]].Met?) && k < |at|
    ensures SizesAt(cs, at) == SizesAt(cs, at[..k] + at[k + 1..]) + Size(cs[at[k]].tree)
    decreases |at|
  {
    var n := |at| - 1;
    if k < n {
      SizesWithout(cs, at[..n], k);
      var rest := at[..k] + at[k + 1..];
      assert rest[..n - 1] == at[..n][..k] + at[..n][k + 1..] && rest[n - 1] == at[n];
    } else {
      assert at[..k] + at[k + 1..] == at[..n];
    }
  }

  lemma {:induction false} SizesOfPrefix(cs: seq<Child>, n: nat, at: seq<nat>)
    requires n <= |cs| && forall i :: 0 <= i < |at| ==> at[i] < n && cs[at[i]].Met?
    ensures SizesAt(cs[..n], at) == SizesAt(cs, at)
    decreases |at|
  {
    if at != [] {
      SizesOfPrefix(cs, n, at[..|at| - 1]);
    }
  }

  /** Different children are together no larger than all of them. */
  lemma {:induction false} SizesAreBounded(cs: seq<Child>, at: seq<nat>)
    requires Apart(at) && forall i :: 0 <= i < |at| ==> at[i] < |cs| && cs[at[i]].Met?
    ensures SizesAt(cs, at) <= SizeAll(cs)
    decreases |cs|
  {
    if cs != [] {
      var n := |cs| - 1;
      if k: nat :| k < |at| && at[k] == n {
        var rest := at[..k] + at[k + 1..];
        SizesWithout(cs, at, k);
        SizesOfPrefix(cs, n, rest);
        SizesAreBounded(cs[..n], rest);
      } else {
        SizesOfPrefix(cs, n, at);
        SizesAreBounded(cs[..n], at);
      }
    }
  }

  lemma {:induction false} ChildIsShallower(cs: seq<Child>, i: nat)
    requires i < |cs| && cs[i].Met?
    ensures 1 + Depth(cs[i].tree) <= DepthAll(cs)
  {
    if i < |cs| - 1 {
      ChildIsShallower(cs[..|cs| - 1], i);
    }
  }

  /** The data is no larger than the unfolding and no deeper. */
  ghost predicate Bounded(d: Data, t: Tree) {
    Values(d) <= Size(t) && Height(d) <= Depth(t) + 1
  }

  lemma {:induction false} MetChildrenCount(cs: seq<Child>)
    requires forall i :: 0 <= i < |cs| ==> cs[i].Met?
    ensures SizeAll(cs) >= |cs|
  {
    if cs != [] {
      MetChildrenCount(cs[..|cs| - 1]);
      assert Last(cs).Met? && Size(Last(cs).tree) >= 1;
    }
  }

  /** Items that are bounded by children at some places: by size, and by depth. */
  lemma {:induction false} ItemsBoundedAt(items: seq<Data>, cs: seq<Child>, at: seq<nat>)
    requires |items| == |at| && forall i :: 0 <= i < |at| ==> at[i] < |cs| && cs[at[i]].Met?
    requires forall i :: 0 <= i < |at| ==> Bounded(items[i], cs[at[i]].tree)
    ensures ItemValues(items) <= SizesAt(cs, at)
    decreases |items|
  {
    if items != [] {
      var n := |items| - 1;
      assert Bounded(items[n], cs[at[n]].tree);
      ItemsBoundedAt(items[..n], cs, at[..n]);
    }
  }

  lemma {:induction false} HeightsBounded(items: seq<Data>, h: nat)
    requires forall i :: 0 <= i < |items| ==> Height(items[i]) <= h
    ensures ItemsHeight(items) <= h
  {
    if items != [] {
      assert Height(items[0]) <= h;
      forall i | 0 <= i < |items| - 1 ensures Height(items[1..][i]) <= h {
        assert items[1..][i] == items[i + 1];
      }
      HeightsBounded(items[1..], h);
    }
  }

  lemma ItemsBounded(items: seq<Data>, cs: seq<Child>, at: seq<nat>)
    requires |items| == |at| && Apart(at) && forall i :: 0 <= i < |at| ==> at[i] < |cs| && cs[at[i]].Met?
    requires forall i :: 0 <= i < |at| ==> Bounded(items[i], cs[at[i]].tree)
    ensures ItemValues(items) <= SizeAll(cs) && ItemsHeight(items) <= DepthAll(cs)
  {
    ItemsBoundedAt(items, cs, at);
    SizesAreBounded(cs, at);
    forall i | 0 <= i < |items| ensures Height(items[i]) <= DepthAll(cs) {
      assert Bounded(items[i], cs[at[i]].tree);
      ChildIsShallower(cs, at[i]);
    }
    HeightsBounded(items, DepthAll(cs));
  }

  ghost function Datas(fields: seq<Field>): (items: seq<Data>)
    ensures |items| == |fields| && forall i :: 0 <= i < |fields| ==> items[i] == fields[i].data
  {
    seq(|fields|, i requires 0 <= i < |fields| => fields[i].data)
  }

  lemma {:induction false} FieldsAsItems(fields: seq<Field>)
    ensures FieldValues(fields) == ItemValues(Datas(fields))
  {
    if fields != [] {
      var n := |fields| - 1;
      FieldsAsItems(fields[..n]);
      assert Datas(fields)[..n] == Datas(fields[..n]);
    }
  }

  lemma {:induction false} FieldHeightsAsItems(fields: seq<Field>)
    ensures FieldsHeight(fields) == ItemsHeight(Datas(fields))
  {
    if fields != [] {
      FieldHeightsAsItems(fields[1..]);
      assert Datas(fields)[1..] == Datas(fields[1..]);
    }
  }

  /** Where the elements of an array are among its properties. */
  lemma ElementPlaces(node: Node, length: nat) returns (at: seq<nat>)
    requires forall i: nat :: i < length ==> Element(node, i).Some?
    ensures |at| == length && Apart(at)
    ensures forall i: nat :: i < length ==>
              at[i] < |node.properties| && node.properties[at[i]].value == Element(node, i)
              && node.properties[at[i]].key == Index(i)
  {
    at := [];
    for i := 0 to length
      invariant |at| == i
      invariant forall j: nat :: j < i ==>
                  at[j] < |node.properties| && node.properties[at[j]].value == Element(node, j)
                  && node.properties[at[j]].key == Index(j)
    {
      assert Element(node, i).Some?;
      var p := Lookup(node.properties, Index(i)).value;
      var k :| 0 <= k < |node.properties| && node.properties[k] == p;
      at := at + [k];
    }
    forall i, j | 0 <= i < j < |at| ensures at[i] != at[j] {
      assert node.properties[at[i]].key != node.properties[at[j]].key;
    }
  }

  lemma BytesBounded(heap: Heap, a: Address, d: Data, t: Tree)
    requires IsData(heap, Ref(a), d) && Unfolds(heap, Ref(a), t) && heap[a].kind.Bytes?
    ensures Bounded(d, t)
  {
    forall i | 0 <= i < |t.children| ensures t.children[i].Met? {
      assert PlainAt(heap[a], i);
      ChildOfUnfolding(heap, a, i, t);
    }
    MetChildrenCount(t.children);
  }

  lemma {:induction false} ListBounded(heap: Heap, a: Address, d: Data, t: Tree)
    requires IsData(heap, Ref(a), d) && Unfolds(heap, Ref(a), t) && heap[a].kind.ArrayOf?
    ensures Bounded(d, t)
    decreases d, 1
  {
    var node := heap[a];
    forall i: nat | i < |d.items| ensures Element(node, i).Some? {
      assert IsElement(heap, node, i, d.items[i]);
    }
    var at := ElementPlaces(node, |d.items|);
    forall i | 0 <= i < |at|
      ensures at[i] < |t.children| && t.children[at[i]].Met? && Bounded(d.items[i], t.children[at[i]].tree)
    {
      ElementBounded(heap, a, i, at[i], d, t);
    }
    ItemsBounded(d.items, t.children, at);
  }

  /** One element, at place `k` among the properties. */
  lemma {:induction false} ElementBounded(heap: Heap, a: Address, i: nat, k: nat, d: Data, t: Tree)
    requires IsData(heap, Ref(a), d) && Unfolds(heap, Ref(a), t) && heap[a].kind.ArrayOf? && i < |d.items|
    requires k < |heap[a].properties| && Element(heap[a], i).Some? && heap[a].properties[k].value == Element(heap[a], i)
    ensures k < |t.children| && t.children[k].Met? && Bounded(d.items[i], t.children[k].tree)
    decreases d, 0
  {
    assert IsElement(heap, heap[a], i, d.items[i]);
    ChildOfUnfolding(heap, a, k, t);
    DataIsBounded(heap, Element(heap[a], i).value, d.items[i], t.children[k].tree);
  }

  lemma {:induction false} RecordBounded(heap: Heap, a: Address, d: Data, t: Tree)
    requires IsData(heap, Ref(a), d) && Unfolds(heap, Ref(a), t) && heap[a].kind.PlainRecord?
    ensures Bounded(d, t)
    decreases d, 0
  {
    var items, at := Datas(d.fields), seq(|d.fields|, i requires 0 <= i < |d.fields| => i);
    forall i | 0 <= i < |at|
      ensures at[i] < |t.children| && t.children[at[i]].Met? && Bounded(items[i], t.children[at[i]].tree)
    {
      assert IsField(heap, heap[a].properties[i], d.fields[i]);
      ChildOfUnfolding(heap, a, i, t);
      DataIsBounded(heap, heap[a].properties[i].value.value, d.fields[i].data, t.children[i].tree);
    }
    ItemsBounded(items, t.children, at);
    FieldsAsItems(d.fields);
    FieldHeightsAsItems(d.fields);
  }

  /** The data of a value is bounded by its unfolding. */
  lemma {:induction false} DataIsBounded(heap: Heap, v: Value, d: Data, t: Tree)
    requires IsData(heap, v, d) && Unfolds(heap, v, t)
    ensures Bounded(d, t)
    decreases d, 2
  {
    if v.Ref? {
      if heap[v.at].kind.Bytes? {
        BytesBounded(heap, v.at, d, t);
      } else if heap[v.at].kind.ArrayOf? {
        ListBounded(heap, v.at, d, t);
      } else {
        RecordBounded(heap, v.at, d, t);
      }
    }
  }

  /** Data that passes the inspection is within its limits. */
  lemma InspectedIsBounded(heap: Heap, v: Value, d: Data, t: Tree)
    requires IsData(heap, v, d) && Unfolds(heap, v, t) && Fits(t, 0, 0, 0)
    ensures Values(d) <= MAX_VALUES && Height(d) <= MAX_DEPTH + 1
  {
    DataIsBounded(heap, v, d, t);
  }
}
