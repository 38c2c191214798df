/**
 The copy that a capture makes: objects at addresses of their own, built up and
 then frozen, except for byte arrays.  A copy of a tree takes one run of fresh
 addresses, so nothing in it is shared with the source or with another copy.
 */
module SnapshotCopy {
  import opened JsHeap
  import opened SnapshotTree

  /** One object of the copy; byte arrays cannot be frozen. */
  datatype Copy =
    | BytesCopy(content: seq<nat>)
    | ListCopy(items: seq<Value>, frozen: bool)
    | RecordCopy(fields: seq<(Key, Value)>, frozen: bool)

  type Copies = map<Address, Copy>

  /** How many objects a copy of the data has. */
  ghost function Cells(d: Data): nat
    decreases d, 1
  {
    match d
    case BytesData(_) => 1
    case ListData(items) => 1 + ItemCells(items)
    case RecordData(fields) => 1 + FieldCells(fields)
    case _ => 0
  }

  ghost function ItemCells(items: seq<Data>): nat
    decreases items, 0
  {
    if items == [] then 0
    else
      var n := |items| - 1;
      ItemCells(items[..n]) + Cells(items[n])
  }

  ghost function FieldCells(fields: seq<Field>): nat
    decreases fields, 0
  {
    if fields == [] then 0
    else
      var n := |fields| - 1;
      var last := fields[n];
      assert last.data < last;
      FieldCells(fields[..n]) + Cells(last.data)
  }

  /** The `i`-th element of the copied list is the copy of the `i`-th item, after those of the earlier ones. */
  ghost predicate HoldsItem(copies: Copies, values: seq<Value>, items: seq<Data>, i: nat, lo: Address)
    requires i < |values| && i < |items|
    decreases items, 0
  {
    Holds(copies, values[i], items[i], lo + 1 + ItemCells(items[..i]))
  }

  ghost predicate HoldsField(copies: Copies, values: seq<(Key, Value)>, fields: seq<Field>, i: nat, lo: Address)
    requires i < |values| && i < |fields|
    decreases fields, 0
  {
    var field := fields[i];
    assert field.data < field;
    values[i].0 == field.key && Holds(copies, values[i].1, field.data, lo + 1 + FieldCells(fields[..i]))
  }

  /** `v` is a frozen copy of the data, made of the objects at `lo` and the addresses after it. */
  ghost predicate Holds(copies: Copies, v: Value, d: Data, lo: Address)
    decreases d, 1
  {
    match d
    case NullData => v == NullValue
    case TruthData(b) => v == Truth(b)
    case TextData(s) => v == Text(s)
    case NumberData(n) => v == Number(true, n)
    case BytesData(content) => v == Ref(lo) && lo in copies && copies[lo] == BytesCopy(content)
    case ListData(items) =>
      v == Ref(lo) && lo in copies && copies[lo].ListCopy? && copies[lo].frozen && |copies[lo].items| == |items|
      && forall i: nat :: i < |items| ==> HoldsItem(copies, copies[lo].items, items, i, lo)
    case RecordData(fields) =>
      v == Ref(lo) && lo in copies && copies[lo].RecordCopy? && copies[lo].frozen && |copies[lo].fields| == |fields|
      && forall i: nat :: i < |fields| ==> HoldsField(copies, copies[lo].fields, fields, i, lo)
  }

  lemma {:induction false} ItemRange(items: seq<Data>, i: nat)
    requires i < |items|
    ensures ItemCells(items[..i]) + Cells(items[i]) <= ItemCells(items)
  {
    var n := |items| - 1;
    if i < n {
      ItemRange(items[..n], i);
      assert items[..n][..i] == items[..i];
    }
  }

  lemma {:induction false} FieldRange(fields: seq<Field>, i: nat)
    requires i < |fields|
    ensures FieldCells(fields[..i]) + Cells(fields[i].data) <= FieldCells(fields)
  {
    var n := |fields| - 1;
    if i < n {
      FieldRange(fields[..n], i);
      assert fields[..n][..i] == fields[..i];
    }
  }

  /** The two heaps of copies have the same objects from `lo` up to `hi`. */
  ghost predicate Agree(copies: Copies, other: Copies, lo: Address, hi: Address) {
    forall a :: lo <= a < hi && a in copies ==> a in other && other[a] == copies[a]
  }

  /** A copy is not disturbed by what happens at other addresses. */
  lemma {:induction false} HoldsStays(copies: Copies, other: Copies, v: Value, d: Data, lo: Address)
    requires Holds(copies, v, d, lo) && Agree(copies, other, lo, lo + Cells(d))
    ensures Holds(other, v, d, lo)
    decreases d
  {
    match d
    case ListData(items) =>
      forall i: nat | i < |items| ensures HoldsItem(other, other[lo].items, items, i, lo) {
        assert HoldsItem(copies, copies[lo].items, items, i, lo);
        ItemRange(items, i);
        HoldsStays(copies, other, copies[lo].items[i], items[i], lo + 1 + ItemCells(items[..i]));
      }
    case RecordData(fields) =>
      forall i: nat | i < |fields| ensures HoldsField(other, other[lo].fields, fields, i, lo) {
        assert HoldsField(copies, copies[lo].fields, fields, i, lo);
        FieldRange(fields, i);
        HoldsStays(copies, other, copies[lo].fields[i].1, fields[i].data, lo + 1 + FieldCells(fields[..i]));
      }
    case _ =>
  }

  // ------------------------------------------------------------------
  // What a copy is: fresh, closed and frozen.

  /** The value refers to no object outside of `[lo, hi)`. */
  predicate Inside(v: Value, lo: Address, hi: Address) {
    v.Ref? ==> lo <= v.at < hi
  }

  predicate RefersInside(copy: Copy, lo: Address, hi: Address) {
    match copy
    case BytesCopy(_) => true
    case ListCopy(items, _) => forall i :: 0 <= i < |items| ==> Inside(items[i], lo, hi)
    case RecordCopy(fields, _) => forall i :: 0 <= i < |fields| ==> Inside(fields[i].1, lo, hi)
  }

  /** The object can no longer change, unless it is a byte array. */
  predicate Settled(copy: Copy) {
    copy.BytesCopy? || copy.frozen
  }

  /** Every address of the run is an object that is frozen or a byte array, and refers to no object outside. */
  ghost predicate Sealed(copies: Copies, lo: Address, hi: Address) {
    forall a :: lo <= a < hi ==> a in copies && Settled(copies[a]) && RefersInside(copies[a], lo, hi)
  }

  /** Part of a sealed run, as seen from a larger one. */
  ghost predicate SealedPart(copies: Copies, from: Address, to: Address, lo: Address, hi: Address) {
    forall a :: from <= a < to ==> a in copies && Settled(copies[a]) && RefersInside(copies[a], lo, hi)
  }

  lemma SealedIsPart(copies: Copies, from: Address, to: Address, lo: Address, hi: Address)
    requires Sealed(copies, from, to) && lo <= from && to <= hi
    ensures SealedPart(copies, from, to, lo, hi)
  {}

  /** A copy is sealed in its own run of addresses. */
  lemma {:induction false} HoldsIsSealed(copies: Copies, v: Value, d: Data, lo: Address)
    requires Holds(copies, v, d, lo)
    ensures Sealed(copies, lo, lo + Cells(d)) && Inside(v, lo, lo + Cells(d))
    decreases d, 1
  {
    match d
    case ListData(items) =>
      assert items[..|items|] == items;
      ItemsAreSealed(copies, copies[lo].items, items, |items|, lo, lo + Cells(d));
    case RecordData(fields) =>
      assert fields[..|fields|] == fields;
      FieldsAreSealed(copies, copies[lo].fields, fields, |fields|, lo, lo + Cells(d));
    case _ =>
  }

  lemma {:induction false} ItemsAreSealed(copies: Copies, values: seq<Value>, items: seq<Data>, n: nat, lo: Address,
                                          hi: Address)
    requires n <= |items| == |values| && lo + 1 + ItemCells(items) <= hi
    requires forall i: nat :: i < |items| ==> HoldsItem(copies, values, items, i, lo)
    ensures SealedPart(copies, lo + 1, lo + 1 + ItemCells(items[..n]), lo, hi)
    ensures forall i :: 0 <= i < n ==> Inside(values[i], lo, hi)
    decreases items, 0, n
  {
    if n > 0 {
      ItemsAreSealed(copies, values, items, n - 1, lo, hi);
      ItemRange(items, n - 1);
      var at := lo + 1 + ItemCells(items[..n - 1]);
      assert HoldsItem(copies, values, items, n - 1, lo);
      HoldsIsSealed(copies, values[n - 1], items[n - 1], at);
      SealedIsPart(copies, at, at + Cells(items[n - 1]), lo, hi);
      assert items[..n][..n - 1] == items[..n - 1] && items[..n][n - 1] == items[n - 1];
    } else {
      assert items[..0] == [];
    }
  }

  lemma {:induction false} FieldsAreSealed(copies: Copies, values: seq<(Key, Value)>, fields: seq<Field>, n: nat,
                                           lo: Address, hi: Address)
    requires n <= |fields| == |values| && lo + 1 + FieldCells(fields) <= hi
    requires forall i: nat :: i < |fields| ==> HoldsField(copies, values, fields, i, lo)
    ensures SealedPart(copies, lo + 1, lo + 1 + FieldCells(fields[..n]), lo, hi)
    ensures forall i :: 0 <= i < n ==> Inside(values[i].1, lo, hi)
    decreases fields, 0, n
  {
    if n > 0 {
      FieldsAreSealed(copies, values, fields, n - 1, lo, hi);
      FieldRange(fields, n - 1);
      var at := lo + 1 + FieldCells(fields[..n - 1]);
      assert HoldsField(copies, values, fields, n - 1, lo);
      var last := fields[n - 1];
      assert last.data < last;
      HoldsIsSealed(copies, values[n - 1].1, last.data, at);
      SealedIsPart(copies, at, at + Cells(last.data), lo, hi);
      assert fields[..n][..n - 1] == fields[..n - 1] && fields[..n][n - 1] == last;
    } else {
      assert fields[..0] == [];
    }
  }
}
