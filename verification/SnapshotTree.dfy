/**
 Capturing plain data from an object graph into a detached tree.  The capture
 succeeds exactly on values that are finite plain data, and then returns the tree
 they unfold to.
 */
module SnapshotTree {
  import opened JsHeap

  /** The detached copy: plain values, fresh bytes, dense lists and records. */
  datatype Data =
    | NullData | TruthData(b: bool) | TextData(s: seq<Unit>) | NumberData(n: int) | BytesData(content: seq<nat>)
    | ListData(items: seq<Data>) | RecordData(fields: seq<Field>)
  datatype Field = Field(key: Key, data: Data)

  /** An enumerable data property. */
  predicate Plain(p: Property) {
    p.enumerable && p.value.Some?
  }

  predicate PlainAt(node: Node, i: nat)
    requires i < |node.properties|
  {
    Plain(node.properties[i])
  }

  /** The own keys of a dense array: its length and indices below it, as many as there should be. */
  predicate DenseKeys(node: Node, length: nat) {
    |node.properties| == length + 1
    && forall p :: p in node.properties ==> p.key == Length || (p.key.Index? && p.key.index < length)
  }

  function Lookup(properties: seq<Property>, key: Key): (p: Option<Property>)
    ensures p.Some? ==> p.value in properties && p.value.key == key
  {
    if properties == [] then None
    else if properties[0].key == key then Some(properties[0])
    else Lookup(properties[1..], key)
  }

  /** The element at an index, if it is an enumerable data property. */
  function Element(node: Node, i: nat): Option<Value> {
    match Lookup(node.properties, Index(i))
    case Some(p) => if Plain(p) then p.value else None
    case None => None
  }

  /** A byte array whose own keys are its indices and whose memory can be copied. */
  predicate BytesShape(node: Node)
    requires node.kind.Bytes?
  {
    node.kind.sound && |node.properties| == |node.kind.content|
    && forall i :: 0 <= i < |node.properties| ==> node.properties[i].key == Index(i) && PlainAt(node, i)
  }

  ghost predicate IsField(heap: Heap, p: Property, f: Field)
    decreases f, 0
  {
    !p.key.Symbol? && Plain(p) && f.key == p.key && IsData(heap, p.value.value, f.data)
  }

  ghost predicate IsElement(heap: Heap, node: Node, i: nat, d: Data)
    decreases d, 2
  {
    Element(node, i).Some? && IsData(heap, Element(node, i).value, d)
  }

  /** `v` is finite plain data that unfolds to `d`. */
  ghost predicate IsData(heap: Heap, v: Value, d: Data)
    decreases d, 1
  {
    match v
    case NullValue => d == NullData
    case Truth(b) => d == TruthData(b)
    case Text(s) => d == TextData(s)
    case Number(finite, n) => finite && d == NumberData(n)
    case Other => false
    case Ref(a) =>
      a in heap && !heap[a].proxy &&
      var node := heap[a];
      match node.kind
      case Bytes(_, content) => BytesShape(node) && d == BytesData(content)
      case ArrayOf(length) =>
        DenseKeys(node, length) && d.ListData? && |d.items| == length
        && forall i: nat :: i < length ==> IsElement(heap, node, i, d.items[i])
      case PlainRecord =>
        d.RecordData? && |d.fields| == |node.properties|
        && forall i :: 0 <= i < |d.fields| ==> IsField(heap, node.properties[i], d.fields[i])
      case OtherRecord => false
      case Callable => false
  }

  /** The tree is determined by the value. */
  lemma {:induction false} DataIsUnique(heap: Heap, v: Value, d: Data, e: Data)
    requires IsData(heap, v, d) && IsData(heap, v, e)
    ensures d == e
    decreases d
  {
    if v.Ref? && heap[v.at].kind.ArrayOf? {
      forall i: nat | i < |d.items| ensures d.items[i] == e.items[i] {
        assert IsElement(heap, heap[v.at], i, d.items[i]) && IsElement(heap, heap[v.at], i, e.items[i]);
        DataIsUnique(heap, Element(heap[v.at], i).value, d.items[i], e.items[i]);
      }
    } else if v.Ref? && heap[v.at].kind.PlainRecord? {
      forall i | 0 <= i < |d.fields| ensures d.fields[i] == e.fields[i] {
        var p := heap[v.at].properties[i];
        assert IsField(heap, p, d.fields[i]) && IsField(heap, p, e.fields[i]);
        DataIsUnique(heap, p.value.value, d.fields[i].data, e.fields[i].data);
      }
    }
  }

  /** The height of a tree. */
  ghost function Height(d: Data): nat
    decreases d, 1
  {
    match d
    case ListData(items) => 1 + ItemsHeight(items)
    case RecordData(fields) => 1 + FieldsHeight(fields)
    case _ => 0
  }

  ghost function ItemsHeight(items: seq<Data>): (h: nat)
    ensures forall i :: 0 <= i < |items| ==> Height(items[i]) <= h
    decreases items, 0
  {
    if items == [] then 0
    else
      var h := ItemsHeight(items[1..]);
      assert forall i :: 1 <= i < |items| ==> items[i] == items[1..][i - 1];
      if Height(items[0]) > h then Height(items[0]) else h
  }

  ghost function FieldsHeight(fields: seq<Field>): nat
    decreases fields, 0
  {
    if fields == [] then 0
    else
      var h, first := FieldsHeight(fields[1..]), fields[0];
      assert first.data < first;
      if Height(first.data) > h then Height(first.data) else h
  }

  lemma {:induction false} FieldIsLower(fields: seq<Field>, i: nat)
    requires i < |fields|
    ensures Height(fields[i].data) <= FieldsHeight(fields)
  {
    if i > 0 {
      FieldIsLower(fields[1..], i - 1);
    }
  }

  /** The value has a tree lower than `d`. */
  ghost predicate DataBelow(heap: Heap, v: Value, d: Data) {
    exists e :: IsData(heap, v, e) && Height(e) < Height(d)
  }

  /** The tree of the object `a`, if it has one, strictly contains one of `v`. */
  ghost predicate Contains(heap: Heap, a: Address, v: Value) {
    forall d {:trigger DataBelow(heap, v, d)} :: IsData(heap, Ref(a), d) ==> DataBelow(heap, v, d)
  }

  lemma CycleIsNoData(heap: Heap, a: Address, d: Data)
    requires Contains(heap, a, Ref(a))
    ensures !IsData(heap, Ref(a), d)
  {
    if IsData(heap, Ref(a), d) && DataBelow(heap, Ref(a), d) {
      var e :| IsData(heap, Ref(a), e) && Height(e) < Height(d);
      DataIsUnique(heap, Ref(a), d, e);
    }
  }

  lemma ContainsIsTransitive(heap: Heap, a: Address, b: Address, v: Value)
    requires Contains(heap, a, Ref(b)) && Contains(heap, b, v)
    ensures Contains(heap, a, v)
  {
    forall d | IsData(heap, Ref(a), d) ensures DataBelow(heap, v, d) {
      assert DataBelow(heap, Ref(b), d);
      var e :| IsData(heap, Ref(b), e) && Height(e) < Height(d);
      assert DataBelow(heap, v, e);
    }
  }

  lemma ContainsElement(heap: Heap, a: Address, i: nat)
    requires a in heap && heap[a].kind.ArrayOf? && i < heap[a].kind.length && Element(heap[a], i).Some?
    ensures Contains(heap, a, Element(heap[a], i).value)
  {
    var v := Element(heap[a], i).value;
    forall d | IsData(heap, Ref(a), d) ensures DataBelow(heap, v, d) {
      assert IsElement(heap, heap[a], i, d.items[i]);
      assert Height(d.items[i]) < Height(d);
    }
  }

  lemma ContainsField(heap: Heap, a: Address, i: nat)
    requires a in heap && heap[a].kind.PlainRecord? && i < |heap[a].properties| && heap[a].properties[i].value.Some?
    ensures Contains(heap, a, heap[a].properties[i].value.value)
  {
    var v := heap[a].properties[i].value.value;
    forall d | IsData(heap, Ref(a), d) ensures DataBelow(heap, v, d) {
      assert IsField(heap, heap[a].properties[i], d.fields[i]);
      FieldIsLower(d.fields, i);
    }
  }

  ghost predicate ElementOf(heap: Heap, a: Address, i: nat, d: Data) {
    a in heap && d.ListData? && i < |d.items| && IsElement(heap, heap[a], i, d.items[i])
  }

  ghost predicate FieldOf(heap: Heap, a: Address, i: nat, d: Data) {
    a in heap && i < |heap[a].properties| && d.RecordData? && i < |d.fields|
    && IsField(heap, heap[a].properties[i], d.fields[i])
  }

  /** An array without one of its elements is no data. */
  lemma MissingElement(heap: Heap, a: Address, i: nat)
    requires a in heap && heap[a].kind.ArrayOf? && i < heap[a].kind.length
    requires forall e :: !IsElement(heap, heap[a], i, e)
    ensures forall d :: !IsData(heap, Ref(a), d)
  {
    forall d ensures !IsData(heap, Ref(a), d) {
      assert IsData(heap, Ref(a), d) ==> ElementOf(heap, a, i, d);
    }
  }

  /** A record with an improper field is no data. */
  lemma MissingField(heap: Heap, a: Address, i: nat)
    requires a in heap && heap[a].kind.PlainRecord? && i < |heap[a].properties|
    requires forall f :: !IsField(heap, heap[a].properties[i], f)
    ensures forall d :: !IsData(heap, Ref(a), d)
  {
    forall d ensures !IsData(heap, Ref(a), d) {
      assert IsData(heap, Ref(a), d) ==> FieldOf(heap, a, i, d);
    }
  }
}
