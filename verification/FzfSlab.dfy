/**
 Typed-array windows over the matcher's reusable slab.  A window is a view of a
 buffer, as `subarray` gives it; taking one never clears what it shows.
 */
module FzfSlab {

  newtype int16 = x: int | -0x8000 <= x < 0x8000
  newtype int32 = x: int | -0x8000_0000 <= x < 0x8000_0000

  const SLAB_16_SIZE := 100 * 1024
  const SLAB_32_SIZE := 2048

  datatype Window<T> = Window(buffer: array<T>, offset: nat, length: nat) {
    ghost predicate Fits() {
      offset + length <= buffer.Length
    }
  }

  function Get<T>(w: Window<T>, i: nat): T
    requires w.Fits() && i < w.length
    reads w.buffer
  {
    w.buffer[w.offset + i]
  }

  /** Two windows that share no cell. */
  ghost predicate Separate<T>(v: Window<T>, w: Window<T>) {
    v.buffer != w.buffer || v.offset + v.length <= w.offset || w.offset + w.length <= v.offset
  }

  /** The slab is only used below the cursor, so whatever is taken next is separate from `w`. */
  ghost predicate Below<T>(w: Window<T>, slab: array<T>, cursor: nat) {
    w.Fits() && (w.buffer == slab ==> w.offset + w.length <= cursor)
  }

  /** The cursor after `size` cells were taken: the slab is used only while it has room left. */
  function CursorAfter(length: nat, cursor: nat, size: nat): (next: nat)
    ensures cursor <= length ==> next <= length
    ensures cursor <= next
  {
    if length > cursor + size then cursor + size else cursor
  }

  /** What `size` cells taken at the cursor show, when the slab holds `cells`. */
  ghost function Shown<T>(cells: seq<T>, cursor: nat, size: nat, zero: T): (shown: seq<T>)
    ensures |shown| == size
  {
    if |cells| > cursor + size then cells[cursor..cursor + size] else seq(size, _ => zero)
  }

  /** What is shown depends only on the cells from the cursor on. */
  lemma ShownFrom<T>(cells: seq<T>, other: seq<T>, from: nat, cursor: nat, size: nat, zero: T)
    requires |cells| == |other| && from <= |cells| && cells[from..] == other[from..] && from <= cursor
    ensures Shown(cells, cursor, size, zero) == Shown(other, cursor, size, zero)
  {
    if |cells| > cursor + size {
      forall i | cursor <= i < cursor + size ensures cells[i] == other[i] {
        assert cells[from..][i - from] == other[from..][i - from];
      }
    }
  }

  /** The module-level slab. */
  class Slab {
    const i16: array<int16>
    const i32: array<int32>

    constructor ()
      ensures i16.Length == SLAB_16_SIZE && i32.Length == SLAB_32_SIZE
      ensures fresh(i16) && fresh(i32)
    {
      i16 := new int16[SLAB_16_SIZE];
      i32 := new int32[SLAB_32_SIZE];
    }
  }

  /**
   Take `size` cells at the cursor, or a fresh zeroed array when the slab has no
   room left.  Windows taken earlier lie below the old cursor, so they are separate
   from the new one.
   */
  method Take<T>(cursor: nat, slab: array<T>, size: nat, zero: T) returns (next: nat, w: Window<T>)
    ensures w.length == size && w.Fits() && next == CursorAfter(slab.Length, cursor, size)
    ensures slab.Length > cursor + size ==> w.buffer == slab && w.offset == cursor
    ensures slab.Length <= cursor + size ==> fresh(w.buffer)
    ensures w.buffer[w.offset..w.offset + size] == Shown(slab[..], cursor, size, zero)
    ensures Below(w, slab, next)
    ensures w.buffer == slab || fresh(w.buffer)
  {
    if slab.Length > cursor + size {
      w := Window(slab, cursor, size);
      next := cursor + size;
    } else {
      var cells := new T[size](_ => zero);
      assert cells[..] == seq(size, _ => zero);
      w := Window(cells, 0, size);
      next := cursor;
    }
  }
}
