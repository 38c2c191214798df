/**
 Capturing plain data: every object is copied to a new one that is frozen when it
 is complete.  A proxy would run its traps here, which ends the capture in a
 third way; after the inspection has accepted, that way is never taken.
 */
module SnapshotCapture {
  import opened JsHeap
  import opened InspectionBudget
  import opened SnapshotTree
  import opened SnapshotBudget
  import opened SnapshotCopy

  /** The capture returned a copy, threw, or reached a proxy. */
  datatype Outcome = Captured(copy: Value) | Refused | Trapped

  /** Nothing that was copied before has changed, and everything new is at `from` or after it. */
  ghost predicate Grown(before: Copies, after: Copies, from: Address) {
    (forall a :: a in before ==> a in after && after[a] == before[a])
    && forall a :: a in after ==> a in before || a >= from
  }

  /** The same, apart from the object at `at`, which is being built. */
  ghost predicate GrownBut(before: Copies, after: Copies, from: Address, at: Address) {
    (forall a :: a in before && a != at ==> a in after && after[a] == before[a])
    && forall a :: a in after ==> a in before || a >= from
  }

  lemma GrownThrough(start: Copies, before: Copies, after: Copies, at: Address, from: Address)
    requires Grown(start, before, at) && at !in start && GrownBut(before, after, from, at) && at <= from
    ensures Grown(start, after, at)
  {}

  lemma GrownUpdate(start: Copies, after: Copies, at: Address, copy: Copy)
    requires Grown(start, after, at) && at !in start
    ensures Grown(start, after[at := copy], at)
  {}

  /** No finite unfolding without a proxy. */
  ghost predicate NeverUnfolds(heap: Heap, v: Value) {
    forall t :: !Unfolds(heap, v, t)
  }

  lemma NeverUnfoldsProperty(heap: Heap, a: Address, i: nat)
    requires a in heap && i < |heap[a].properties| && heap[a].properties[i].value.Some?
    requires NeverUnfolds(heap, heap[a].properties[i].value.value)
    ensures NeverUnfolds(heap, Ref(a))
  {
    forall t ensures !Unfolds(heap, Ref(a), t) {
      if Unfolds(heap, Ref(a), t) {
        ChildOfUnfolding(heap, a, i, t);
      }
    }
  }

  lemma NeverUnfoldsElement(heap: Heap, a: Address, i: nat)
    requires a in heap && Element(heap[a], i).Some? && NeverUnfolds(heap, Element(heap[a], i).value)
    ensures NeverUnfolds(heap, Ref(a))
  {
    var p := Lookup(heap[a].properties, Index(i)).value;
    var j :| 0 <= j < |heap[a].properties| && heap[a].properties[j] == p;
    NeverUnfoldsProperty(heap, a, j);
  }

  /** The first `n` elements of a list stay copies when the list grows and other addresses change. */
  lemma ItemsStay(copies: Copies, other: Copies, values: seq<Value>, items: seq<Data>, w: Value, d: Data, lo: Address)
    requires |values| == |items| && Agree(copies, other, lo + 1, lo + 1 + ItemCells(items))
    requires forall i: nat :: i < |items| ==> HoldsItem(copies, values, items, i, lo)
    ensures forall i: nat :: i < |items| ==> HoldsItem(other, values, items, i, lo)
    ensures forall i: nat :: i < |items| ==> HoldsItem(other, values + [w], items + [d], i, lo)
  {
    forall i: nat | i < |items|
      ensures HoldsItem(other, values, items, i, lo) && HoldsItem(other, values + [w], items + [d], i, lo)
    {
      assert HoldsItem(copies, values, items, i, lo);
      ItemRange(items, i);
      HoldsStays(copies, other, values[i], items[i], lo + 1 + ItemCells(items[..i]));
      assert (items + [d])[..i] == items[..i];
    }
  }

  /** A list under way with one more element copied after the others. */
  lemma ListGrows(before: Copies, captured: Copies, values: seq<Value>, items: seq<Data>, w: Value, d: Data,
                  at: Address)
    requires |values| == |items| && Grown(before, captured, at + 1 + ItemCells(items))
    requires forall i: nat :: i < |items| ==> HoldsItem(before, values, items, i, at)
    requires Holds(captured, w, d, at + 1 + ItemCells(items))
    ensures var after := captured[at := ListCopy(values + [w], false)];
      forall i: nat :: i < |items| + 1 ==> HoldsItem(after, values + [w], items + [d], i, at)
    ensures ItemCells(items + [d]) == ItemCells(items) + Cells(d)
  {
    var after := captured[at := ListCopy(values + [w], false)];
    assert (items + [d])[..|items|] == items;
    ItemsStay(before, after, values, items, w, d, at);
    HoldsStays(captured, after, w, d, at + 1 + ItemCells(items));
  }

  lemma FieldsStay(copies: Copies, other: Copies, values: seq<(Key, Value)>, fields: seq<Field>, w: (Key, Value),
                   f: Field, lo: Address)
    requires |values| == |fields| && Agree(copies, other, lo + 1, lo + 1 + FieldCells(fields))
    requires forall i: nat :: i < |fields| ==> HoldsField(copies, values, fields, i, lo)
    ensures forall i: nat :: i < |fields| ==> HoldsField(other, values, fields, i, lo)
    ensures forall i: nat :: i < |fields| ==> HoldsField(other, values + [w], fields + [f], i, lo)
  {
    forall i: nat | i < |fields|
      ensures HoldsField(other, values, fields, i, lo) && HoldsField(other, values + [w], fields + [f], i, lo)
    {
      assert HoldsField(copies, values, fields, i, lo);
      FieldRange(fields, i);
      HoldsStays(copies, other, values[i].1, fields[i].data, lo + 1 + FieldCells(fields[..i]));
      assert (fields + [f])[..i] == fields[..i];
    }
  }

  /** A record under way with one more field copied after the others. */
  lemma RecordGrows(before: Copies, captured: Copies, values: seq<(Key, Value)>, fields: seq<Field>, w: (Key, Value),
                    f: Field, at: Address)
    requires |values| == |fields| && Grown(before, captured, at + 1 + FieldCells(fields))
    requires forall i: nat :: i < |fields| ==> HoldsField(before, values, fields, i, at)
    requires w.0 == f.key && Holds(captured, w.1, f.data, at + 1 + FieldCells(fields))
    ensures var after := captured[at := RecordCopy(values + [w], false)];
      forall i: nat :: i < |fields| + 1 ==> HoldsField(after, values + [w], fields + [f], i, at)
    ensures FieldCells(fields + [f]) == FieldCells(fields) + Cells(f.data)
  {
    var after := captured[at := RecordCopy(values + [w], false)];
    assert (fields + [f])[..|fields|] == fields;
    FieldsStay(before, after, values, fields, w, f, at);
    HoldsStays(captured, after, w.1, f.data, at + 1 + FieldCells(fields));
  }

  /** One capture under way: the graph, the objects being captured, and the copies made so far. */
  class Capture {
    const heap: Heap
    var ancestors: set<Address>
    var copies: Copies
    var next: Address

    constructor (heap: Heap, base: Address)
      ensures this.heap == heap && ancestors == {} && copies == map[] && next == base
    {
      this.heap, ancestors, copies, next := heap, {}, map[], base;
    }

    ghost predicate StackAbove(v: Value)
      reads this
    {
      forall a :: a in ancestors ==> a in heap && Contains(heap, a, v)
    }

    /** The next address is free, and so are all after it. */
    ghost predicate Room()
      reads this
    {
      forall a :: a in copies ==> a < next
    }

    /** `w` is the copy of the data `d` that `v` is, made of the objects from `lo` up to the next free address. */
    ghost predicate CopyOf(v: Value, w: Value, d: Data, lo: Address)
      reads this
    {
      IsData(heap, v, d) && Holds(copies, w, d, lo) && next == lo + Cells(d)
    }

    lemma StackAboveChild(a: Address, v: Value, stack: set<Address>)
      requires a in heap && ancestors == stack + {a} && Contains(heap, a, v)
      requires forall b :: b in stack ==> b in heap && Contains(heap, b, Ref(a))
      ensures StackAbove(v)
    {
      forall b | b in stack ensures Contains(heap, b, v) {
        ContainsIsTransitive(heap, b, a, v);
      }
    }

    method SnapshotData(v: Value) returns (r: Outcome, ghost d: Data)
      requires Closed(heap) && InHeap(heap, v) && StackAbove(v) && Room()
      modifies this
      ensures ancestors == old(ancestors) && Room() && next >= old(next) && Grown(old(copies), copies, old(next))
      ensures r.Captured? ==> CopyOf(v, r.copy, d, old(next))
      ensures !r.Captured? ==> forall e :: !IsData(heap, v, e)
      ensures r.Trapped? ==> NeverUnfolds(heap, v)
      decreases heap.Keys - ancestors, 1
    {
      d := NullData;
      match v {
        case NullValue => return Captured(v), d;
        case Truth(b) => return Captured(v), TruthData(b);
        case Text(s) => return Captured(v), TextData(s);
        case Number(finite, n) => return if finite then Captured(v) else Refused, NumberData(n);
        case Other => return Refused, d;
        case Ref(a) =>
          if heap[a].kind.Callable? {
            return Refused, d;
          }
          if a in ancestors {
            forall e ensures !IsData(heap, v, e) {
              CycleIsNoData(heap, a, e);
            }
            return Refused, d;
          }
          if heap[a].proxy {
            return Trapped, d;
          }
          r, d := SnapshotObject(a);
          ancestors := ancestors - {a};
          assert ancestors == old(ancestors);
      }
    }

    /** Push the object and capture it by its kind; the caller pops it. */
    method SnapshotObject(a: Address) returns (r: Outcome, ghost d: Data)
      requires Closed(heap) && a in heap && !heap[a].proxy && a !in ancestors && StackAbove(Ref(a)) && Room()
      modifies this
      ensures ancestors == old(ancestors) + {a}
      ensures Room() && next >= old(next) && Grown(old(copies), copies, old(next))
      ensures r.Captured? ==> CopyOf(Ref(a), r.copy, d, old(next))
      ensures !r.Captured? ==> forall e :: !IsData(heap, Ref(a), e)
      ensures r.Trapped? ==> NeverUnfolds(heap, Ref(a))
      decreases heap.Keys - ancestors, 0
    {
      ancestors := ancestors + {a};
      d := NullData;
      var node := heap[a];
      match node.kind {
        case Bytes(_, content) =>
          if !BytesShape(node) {
            return Refused, d;
          }
          copies := copies[next := BytesCopy(content)];
          next := next + 1;
          return Captured(Ref(next - 1)), BytesData(content);
        case ArrayOf(length) =>
          if !DenseKeys(node, length) {
            return Refused, d;
          }
          var entries := CaptureArrayEntries(a);
          if entries.None? {
            return Refused, d;
          }
          r, d := SnapshotElements(a, entries.value, old(ancestors));
        case PlainRecord =>
          var plain := CaptureRecordDescriptors(a);
          if !plain {
            return Refused, d;
          }
          r, d := FreezeRecord(a, old(ancestors));
        case OtherRecord => return Refused, d;
        case Callable => return Refused, d;
      }
    }

    /** The elements, before any of them is captured; none when one is not an enumerable data property. */
    method CaptureArrayEntries(a: Address) returns (entries: Option<seq<Value>>)
      requires a in heap && heap[a].kind.ArrayOf?
      ensures entries.None? ==> forall e :: !IsData(heap, Ref(a), e)
      ensures entries.Some? ==> |entries.value| == heap[a].kind.length
      ensures entries.Some? ==>
                forall i: nat :: i < |entries.value| ==> Element(heap[a], i) == Some(entries.value[i])
    {
      var collected := [];
      for i := 0 to heap[a].kind.length
        invariant |collected| == i && forall j: nat :: j < i ==> Element(heap[a], j) == Some(collected[j])
      {
        var element := Element(heap[a], i);
        if element.None? {
          MissingElement(heap, a, i);
          return None;
        }
        collected := collected + [element.value];
      }
      return Some(collected);
    }

    /** Are all own properties enumerable data under string keys? */
    method CaptureRecordDescriptors(a: Address) returns (plain: bool)
      requires a in heap && heap[a].kind.PlainRecord?
      ensures !plain ==> forall e :: !IsData(heap, Ref(a), e)
      ensures plain ==> forall i :: 0 <= i < |heap[a].properties| ==>
                !heap[a].properties[i].key.Symbol? && PlainAt(heap[a], i)
    {
      var properties := heap[a].properties;
      for i := 0 to |properties|
        invariant forall j :: 0 <= j < i ==> !properties[j].key.Symbol? && PlainAt(heap[a], j)
      {
        if properties[i].key.Symbol? || !Plain(properties[i]) {
          MissingField(heap, a, i);
          return false;
        }
      }
      return true;
    }

    /** The list at `at` holds copies of the elements captured so far, made after it. */
    ghost predicate ListUnderway(a: Address, at: Address, values: seq<Value>, items: seq<Data>)
      requires a in heap
      reads this
    {
      && Room() && |values| == |items| && next == at + 1 + ItemCells(items)
      && at in copies && copies[at] == ListCopy(values, false)
      && (forall j: nat :: j < |items| ==> HoldsItem(copies, values, items, j, at))
      && (forall j: nat :: j < |items| ==> IsElement(heap, heap[a], j, items[j]))
    }

    ghost predicate RecordUnderway(a: Address, at: Address, values: seq<(Key, Value)>, fields: seq<Field>)
      requires a in heap
      reads this
    {
      && Room() && |values| == |fields| <= |heap[a].properties| && next == at + 1 + FieldCells(fields)
      && at in copies && copies[at] == RecordCopy(values, false)
      && (forall j: nat :: j < |fields| ==> HoldsField(copies, values, fields, j, at))
      && (forall j: nat :: j < |fields| ==> IsField(heap, heap[a].properties[j], fields[j]))
    }

    /** Capture one element and add its copy to the list under way. */
    method AddElement(a: Address, entry: Value, at: Address, values: seq<Value>, ghost items: seq<Data>,
                      ghost stack: set<Address>)
      returns (r: Outcome, ghost e: Data)
      requires Closed(heap) && a in heap && !heap[a].proxy && a !in stack && ancestors == stack + {a}
      requires forall b :: b in stack ==> b in heap && Contains(heap, b, Ref(a))
      requires heap[a].kind.ArrayOf? && |values| < heap[a].kind.length
      requires Element(heap[a], |values|) == Some(entry) && ListUnderway(a, at, values, items)
      modifies this
      ensures ancestors == old(ancestors) && Room() && next >= old(next)
      ensures GrownBut(old(copies), copies, old(next), at)
      ensures r.Captured? ==> ListUnderway(a, at, values + [r.copy], items + [e])
      ensures !r.Captured? ==> forall d :: !IsData(heap, Ref(a), d)
      ensures r.Trapped? ==> NeverUnfolds(heap, Ref(a))
      decreases heap.Keys - ancestors, 2
    {
      ContainsElement(heap, a, |values|);
      StackAboveChild(a, entry, stack);
      ghost var before := copies;
      r, e := SnapshotData(entry);
      if !r.Captured? {
        MissingElement(heap, a, |values|);
        if r.Trapped? {
          NeverUnfoldsElement(heap, a, |values|);
        }
        return;
      }
      ListGrows(before, copies, values, items, r.copy, e, at);
      copies := copies[at := ListCopy(values + [r.copy], false)];
      assert IsElement(heap, heap[a], |items|, e);
    }

    /** Capture the elements into a new list, and freeze it. */
    method SnapshotElements(a: Address, entries: seq<Value>, ghost stack: set<Address>)
      returns (r: Outcome, ghost d: Data)
      requires Closed(heap) && a in heap && !heap[a].proxy && a !in stack && ancestors == stack + {a} && Room()
      requires forall b :: b in stack ==> b in heap && Contains(heap, b, Ref(a))
      requires heap[a].kind.ArrayOf? && DenseKeys(heap[a], heap[a].kind.length)
      requires |entries| == heap[a].kind.length
      requires forall i: nat :: i < |entries| ==> Element(heap[a], i) == Some(entries[i])
      modifies this
      ensures ancestors == old(ancestors) && Room() && next >= old(next) && Grown(old(copies), copies, old(next))
      ensures r.Captured? ==> CopyOf(Ref(a), r.copy, d, old(next))
      ensures !r.Captured? ==> forall e :: !IsData(heap, Ref(a), e)
      ensures r.Trapped? ==> NeverUnfolds(heap, Ref(a))
      decreases heap.Keys - ancestors, 3
    {
      d := NullData;
      var at, values := next, [];
      ghost var items := [];
      GrownUpdate(copies, copies, at, ListCopy([], false));
      copies := copies[at := ListCopy([], false)];
      next := next + 1;
      for i := 0 to |entries|
        invariant ancestors == stack + {a} && at < next && Grown(old(copies), copies, at)
        invariant |values| == i && ListUnderway(a, at, values, items)
      {
        ghost var e, before, from := NullData, copies, next;
        r, e := AddElement(a, entries[i], at, values, items, stack);
        GrownThrough(old(copies), before, copies, at, from);
        if !r.Captured? {
          return;
        }
        values, items := values + [r.copy], items + [e];
      }
      ghost var before := copies;
      GrownUpdate(old(copies), copies, at, ListCopy(values, true));
      copies := copies[at := ListCopy(values, true)];
      ItemsStay(before, copies, values, items, NullValue, NullData, at);
      r, d := Captured(Ref(at)), ListData(items);
    }

    /** Capture one field and define it in the record under way. */
    method DefineField(a: Address, at: Address, values: seq<(Key, Value)>, ghost fields: seq<Field>,
                       ghost stack: set<Address>)
      returns (r: Outcome, ghost e: Data)
      requires Closed(heap) && a in heap && !heap[a].proxy && a !in stack && ancestors == stack + {a}
      requires forall b :: b in stack ==> b in heap && Contains(heap, b, Ref(a))
      requires heap[a].kind.PlainRecord? && |values| < |heap[a].properties|
      requires !heap[a].properties[|values|].key.Symbol? && PlainAt(heap[a], |values|)
      requires RecordUnderway(a, at, values, fields)
      modifies this
      ensures ancestors == old(ancestors) && Room() && next >= old(next)
      ensures GrownBut(old(copies), copies, old(next), at)
      ensures r.Captured? ==>
                var key := heap[a].properties[|values|].key;
                RecordUnderway(a, at, values + [(key, r.copy)], fields + [Field(key, e)])
      ensures !r.Captured? ==> forall d :: !IsData(heap, Ref(a), d)
      ensures r.Trapped? ==> NeverUnfolds(heap, Ref(a))
      decreases heap.Keys - ancestors, 2
    {
      var n := |values|;
      var p := heap[a].properties[n];
      ContainsField(heap, a, n);
      StackAboveChild(a, p.value.value, stack);
      ghost var before := copies;
      r, e := SnapshotData(p.value.value);
      if !r.Captured? {
        MissingField(heap, a, n);
        if r.Trapped? {
          NeverUnfoldsProperty(heap, a, n);
        }
        return;
      }
      RecordGrows(before, copies, values, fields, (p.key, r.copy), Field(p.key, e), at);
      copies := copies[at := RecordCopy(values + [(p.key, r.copy)], false)];
      assert IsField(heap, p, Field(p.key, e));
    }

    /** Capture the fields into a new record, and freeze it. */
    method FreezeRecord(a: Address, ghost stack: set<Address>) returns (r: Outcome, ghost d: Data)
      requires Closed(heap) && a in heap && !heap[a].proxy && a !in stack && ancestors == stack + {a} && Room()
      requires forall b :: b in stack ==> b in heap && Contains(heap, b, Ref(a))
      requires heap[a].kind.PlainRecord?
      requires forall i :: 0 <= i < |heap[a].properties| ==>
                 !heap[a].properties[i].key.Symbol? && PlainAt(heap[a], i)
      modifies this
      ensures ancestors == old(ancestors) && Room() && next >= old(next) && Grown(old(copies), copies, old(next))
      ensures r.Captured? ==> CopyOf(Ref(a), r.copy, d, old(next))
      ensures !r.Captured? ==> forall e :: !IsData(heap, Ref(a), e)
      ensures r.Trapped? ==> NeverUnfolds(heap, Ref(a))
      decreases heap.Keys - ancestors, 3
    {
      d := NullData;
      var properties := heap[a].properties;
      var at: Address, values: seq<(Key, Value)> := next, [];
      ghost var fields: seq<Field> := [];
      GrownUpdate(copies, copies, at, RecordCopy([], false));
      copies := copies[at := RecordCopy([], false)];
      next := next + 1;
      for i := 0 to |properties|
        invariant ancestors == stack + {a} && at < next && Grown(old(copies), copies, at)
        invariant |values| == i && RecordUnderway(a, at, values, fields)
      {
        assert PlainAt(heap[a], i);
        ghost var e, before, from := NullData, copies, next;
        r, e := DefineField(a, at, values, fields, stack);
        GrownThrough(old(copies), before, copies, at, from);
        if !r.Captured? {
          return;
        }
        values, fields := values + [(properties[i].key, r.copy)], fields + [Field(properties[i].key, e)];
      }
      ghost var before := copies;
      GrownUpdate(old(copies), copies, at, RecordCopy(values, true));
      copies := copies[at := RecordCopy(values, true)];
      FieldsStay(before, copies, values, fields, (Length, NullValue), Field(Length, NullData), at);
      r, d := Captured(Ref(at)), RecordData(fields);
    }
  }

  /** The copy is made of new objects only, is closed, and is frozen except for its byte arrays. */
  ghost predicate Detached(heap: Heap, copies: Copies, w: Value, d: Data, base: Address) {
    var end := base + Cells(d);
    Holds(copies, w, d, base) && Sealed(copies, base, end) && Inside(w, base, end) && heap.Keys !! copies.Keys
  }

  /** A capture from outside: it returns a detached copy exactly of finite plain data. */
  method SnapshotDataTree(heap: Heap, v: Value, base: Address) returns (r: Outcome, copies: Copies, ghost d: Data)
    requires Closed(heap) && InHeap(heap, v) && forall a :: a in heap ==> a < base
    ensures r.Captured? ==> IsData(heap, v, d) && Detached(heap, copies, r.copy, d, base)
    ensures !r.Captured? ==> forall e :: !IsData(heap, v, e)
    ensures r.Trapped? ==> NeverUnfolds(heap, v)
  {
    var capture := new Capture(heap, base);
    r, d := capture.SnapshotData(v);
    copies := capture.copies;
    if r.Captured? {
      HoldsIsSealed(copies, r.copy, d, base);
    }
  }

  /**
   The boundary of the authority: inspection, then capture.  No proxy is ever
   reached by the capture, and what is returned is a detached copy of the data.
   */
  method InspectAndCapture(heap: Heap, v: Value, base: Address) returns (r: Outcome, copies: Copies, ghost d: Data)
    requires Closed(heap) && InHeap(heap, v) && forall a :: a in heap ==> a < base
    ensures !r.Trapped?
    ensures r.Captured? ==> IsData(heap, v, d) && Detached(heap, copies, r.copy, d, base)
    ensures r.Captured? ==> exists t :: Unfolds(heap, v, t) && Fits(t, 0, 0, 0)
    ensures r.Captured? ==> Values(d) <= MAX_VALUES && Height(d) <= MAX_DEPTH + 1
    ensures !r.Captured? ==>
              (forall t :: Unfolds(heap, v, t) ==> !Fits(t, 0, 0, 0)) || forall e :: !IsData(heap, v, e)
  {
    var ok;
    ghost var t;
    ok, t := Inspect(heap, v);
    if !ok {
      return Refused, map[], NullData;
    }
    r, copies, d := SnapshotDataTree(heap, v, base);
    if r.Captured? {
      InspectedIsBounded(heap, v, d, t);
    }
  }
}
