/** Text in UTF-16 code units and its bytes in UTF-8, where a lone surrogate becomes U+FFFD. */
module Utf8 {
  import opened JsHeap

  type Byte = b: int | 0 <= b < 256

  /** A Unicode scalar value. */
  type Rune = r: int | (0 <= r < 0xD800 || 0xE000 <= r < 0x11_0000)

  predicate IsHigh(u: Unit) { 0xD800 <= u < 0xDC00 }
  predicate IsLow(u: Unit) { 0xDC00 <= u < 0xE000 }

  predicate StartsPair(s: seq<Unit>) {
    |s| > 1 && IsHigh(s[0]) && IsLow(s[1])
  }

  function Pair(high: Unit, low: Unit): Rune
    requires IsHigh(high) && IsLow(low)
  {
    0x1_0000 + (high - 0xD800) * 0x400 + (low - 0xDC00)
  }

  function Runes(s: seq<Unit>): seq<Rune> {
    if s == [] then []
    else if StartsPair(s) then [Pair(s[0], s[1])] + Runes(s[2..])
    else [if IsHigh(s[0]) || IsLow(s[0]) then 0xFFFD else s[0]] + Runes(s[1..])
  }

  /** No surrogate stands alone. */
  predicate WellFormed(s: seq<Unit>) {
    s == []
    || (StartsPair(s) && WellFormed(s[2..]))
    || (!IsHigh(s[0]) && !IsLow(s[0]) && WellFormed(s[1..]))
  }

  function EncodeRune(r: Rune): (b: seq<Byte>)
    ensures 1 <= |b| <= 4
  {
    if r < 0x80 then [r]
    else if r < 0x800 then [0xC0 + r / 64, 0x80 + r % 64]
    else if r < 0x1_0000 then [0xE0 + r / 4096, 0x80 + r / 64 % 64, 0x80 + r % 64]
    else [0xF0 + r / 262144, 0x80 + r / 4096 % 64, 0x80 + r / 64 % 64, 0x80 + r % 64]
  }

  function EncodeRunes(rs: seq<Rune>): seq<Byte> {
    if rs == [] then [] else EncodeRune(rs[0]) + EncodeRunes(rs[1..])
  }

  function Encode(s: seq<Unit>): seq<Byte> {
    EncodeRunes(Runes(s))
  }

  /** The first byte tells how many there are, and together they tell the rune. */
  lemma RuneIsPrefixFree(r: Rune, q: Rune, x: seq<Byte>, y: seq<Byte>)
    requires EncodeRune(r) + x == EncodeRune(q) + y
    ensures r == q && x == y
  {
    var a, b := EncodeRune(r), EncodeRune(q);
    assert (a + x)[0] == a[0] && (b + y)[0] == b[0];
    assert |a| == |b|;
    assert a == (a + x)[..|a|] && b == (b + y)[..|b|];
    assert x == (a + x)[|a|..] && y == (b + y)[|b|..];
    SameBytesSameRune(r, q);
  }

  lemma SameBytesSameRune(r: Rune, q: Rune)
    requires EncodeRune(r) == EncodeRune(q)
    ensures r == q
  {
    var a := EncodeRune(r);
    if |a| == 2 {
      assert r / 64 == q / 64 && r % 64 == q % 64;
    } else if |a| == 3 {
      Digits64(r);
      Digits64(q);
    } else if |a| == 4 {
      Digits64(r);
      Digits64(q);
    }
  }

  lemma Digits64(r: nat)
    ensures r == 4096 * (r / 4096) + 64 * (r / 64 % 64) + r % 64
    ensures r == 262144 * (r / 262144) + 4096 * (r / 4096 % 64) + 64 * (r / 64 % 64) + r % 64
  {
    var a := r / 64;
    var b := a / 64;
    assert r / 4096 == b && r / 262144 == b / 64;
  }

  lemma {:induction false} RunesEncodeInjectively(rs: seq<Rune>, qs: seq<Rune>)
    requires EncodeRunes(rs) == EncodeRunes(qs)
    ensures rs == qs
  {
    if rs != [] && qs != [] {
      RuneIsPrefixFree(rs[0], qs[0], EncodeRunes(rs[1..]), EncodeRunes(qs[1..]));
      RunesEncodeInjectively(rs[1..], qs[1..]);
    }
  }

  lemma {:induction false} RunesAreInjective(s: seq<Unit>, t: seq<Unit>)
    requires WellFormed(s) && WellFormed(t) && Runes(s) == Runes(t)
    ensures s == t
  {
    if s != [] && t != [] {
      var rs, qs := Runes(s), Runes(t);
      assert rs[0] == qs[0];
      if StartsPair(s) {
        assert rs[1..] == Runes(s[2..]) && qs[1..] == Runes(t[2..]);
        RunesAreInjective(s[2..], t[2..]);
        assert s == s[..2] + s[2..] && t == t[..2] + t[2..];
      } else {
        assert rs[1..] == Runes(s[1..]) && qs[1..] == Runes(t[1..]);
        RunesAreInjective(s[1..], t[1..]);
      }
    }
  }

  /** Well-formed texts with the same bytes are the same. */
  lemma EncodeIsInjective(s: seq<Unit>, t: seq<Unit>)
    requires WellFormed(s) && WellFormed(t) && Encode(s) == Encode(t)
    ensures s == t
  {
    RunesEncodeInjectively(Runes(s), Runes(t));
    RunesAreInjective(s, t);
  }

  /** The byte count agrees with the one that is computed without encoding. */
  lemma {:induction false} EncodedLength(s: seq<Unit>)
    ensures |Encode(s)| == Utf8Length(s)
  {
    if s != [] {
      var next := if StartsPair(s) then 2 else 1;
      EncodedLength(s[next..]);
      assert Runes(s)[1..] == Runes(s[next..]);
    }
  }
}
