/**
 The canonical timestamp of a deployment status, a profile of RFC 3339: section 5.1
 says that such texts, compared as strings, sort in time order.
 */
module Timestamps {
  import opened Calendar
  import opened Decimals

  datatype Option<+T> = None | Some(value: T)

  const DAY := 86_400_000
  const TTL := 30 * DAY

  /** Strings compare by their first differing unit. */
  predicate Less(a: string, b: string) {
    b != [] && (a == [] || a[0] < b[0] || (a[0] == b[0] && Less(a[1..], b[1..])))
  }

  datatype Part = Part(width: nat, mark: char)

  /** Four digits of the year, then month, day, hour, minute, second and millisecond, each with its mark. */
  const SHAPE := [Part(4, '-'), Part(2, '-'), Part(2, 'T'), Part(2, ':'), Part(2, ':'), Part(2, '.'), Part(3, 'Z')]

  predicate InWidth(parts: seq<Part>, v: seq<nat>) {
    |v| == |parts| && forall i :: 0 <= i < |v| ==> v[i] < Power(parts[i].width)
  }

  function Render(parts: seq<Part>, v: seq<nat>): string
    requires |v| == |parts|
  {
    if v == [] then [] else Pad(v[0], parts[0].width) + [parts[0].mark] + Render(parts[1..], v[1..])
  }

  /** The numbers of a text that matches the pattern. */
  function Match(parts: seq<Part>, text: string): (v: Option<seq<nat>>)
    ensures v.Some? ==> |v.value| == |parts|
  {
    if parts == [] then (if text == [] then Some([]) else None)
    else
      var w := parts[0].width;
      if |text| > w && AllDigits(text[..w]) && text[w] == parts[0].mark then
        match Match(parts[1..], text[w + 1..])
        case Some(rest) => Some([Number(text[..w])] + rest)
        case None => None
      else None
  }

  lemma {:induction false} MatchOfRender(parts: seq<Part>, v: seq<nat>)
    requires InWidth(parts, v)
    ensures Match(parts, Render(parts, v)) == Some(v)
  {
    if v != [] {
      var text, w := Render(parts, v), parts[0].width;
      assert text[..w] == Pad(v[0], w) && text[w] == parts[0].mark && text[w + 1..] == Render(parts[1..], v[1..]);
      NumberOfPad(v[0], w);
      MatchOfRender(parts[1..], v[1..]);
      assert AllDigits(text[..w]) && [v[0]] + v[1..] == v;
    }
  }

  lemma {:induction false} RenderOfMatch(parts: seq<Part>, text: string)
    requires Match(parts, text).Some?
    ensures InWidth(parts, Match(parts, text).value) && Render(parts, Match(parts, text).value) == text
  {
    if parts != [] {
      var w := parts[0].width;
      var v, rest := Match(parts, text).value, Match(parts[1..], text[w + 1..]).value;
      PadOfNumber(text[..w]);
      RenderOfMatch(parts[1..], text[w + 1..]);
      assert v[0] == Number(text[..w]) && v[1..] == rest;
      forall i | 0 <= i < |v| ensures v[i] < Power(parts[i].width) {
        assert i > 0 ==> v[i] == rest[i - 1] && parts[i] == parts[1..][i - 1];
      }
      assert text == text[..w] + [text[w]] + text[w + 1..];
    }
  }

  predicate Earlier(v: seq<nat>, u: seq<nat>)
    requires |v| == |u|
  {
    v != [] && (v[0] < u[0] || (v[0] == u[0] && Earlier(v[1..], u[1..])))
  }

  lemma {:induction false} LessIsTransitive(a: string, b: string, c: string)
    requires Less(a, b) && Less(b, c)
    ensures Less(a, c)
  {
    if a != [] {
      if a[0] == b[0] == c[0] {
        LessIsTransitive(a[1..], b[1..], c[1..]);
      }
    }
  }

  lemma {:induction false} LessIsAsymmetric(a: string, b: string)
    requires Less(a, b)
    ensures !Less(b, a)
  {
    if a != [] && a[0] == b[0] {
      LessIsAsymmetric(a[1..], b[1..]);
    }
  }

  lemma {:induction false} LessByParts(p: string, q: string, x: string, y: string)
    requires |p| == |q|
    ensures Less(p + x, q + y) <==> Less(p, q) || (p == q && Less(x, y))
  {
    if p == [] {
      assert p + x == x && q + y == y;
    } else {
      assert (p + x)[1..] == p[1..] + x && (q + y)[1..] == q[1..] + y;
      assert p == q <==> p[0] == q[0] && p[1..] == q[1..];
      LessByParts(p[1..], q[1..], x, y);
    }
  }

  lemma {:induction false} PadsSort(a: nat, b: nat, width: nat)
    requires a < Power(width) && b < Power(width)
    ensures Less(Pad(a, width), Pad(b, width)) <==> a < b
    ensures Pad(a, width) == Pad(b, width) <==> a == b
    decreases width
  {
    NumberOfPad(a, width);
    NumberOfPad(b, width);
    if width > 0 {
      PadsSort(a / 10, b / 10, width - 1);
      LessByParts(Pad(a / 10, width - 1), Pad(b / 10, width - 1), [Digit(a % 10)], [Digit(b % 10)]);
    }
  }

  lemma {:induction false} RendersSort(parts: seq<Part>, v: seq<nat>, u: seq<nat>)
    requires InWidth(parts, v) && InWidth(parts, u)
    ensures Less(Render(parts, v), Render(parts, u)) <==> Earlier(v, u)
  {
    if v != [] {
      var w, mark := parts[0].width, parts[0].mark;
      var x, y := Render(parts[1..], v[1..]), Render(parts[1..], u[1..]);
      PadsSort(v[0], u[0], w);
      LessByParts(Pad(v[0], w), Pad(u[0], w), [mark] + x, [mark] + y);
      assert Pad(v[0], w) + [mark] + x == Pad(v[0], w) + ([mark] + x);
      assert Pad(u[0], w) + [mark] + y == Pad(u[0], w) + ([mark] + y);
      assert ([mark] + x)[1..] == x && ([mark] + y)[1..] == y;
      RendersSort(parts[1..], v[1..], u[1..]);
    }
  }

  function DateIn(v: seq<nat>): Date
    requires |v| == 7
  {
    Date(v[0], v[1], v[2])
  }

  function TimeOfDay(v: seq<nat>): nat
    requires |v| == 7
  {
    ((v[3] * 60 + v[4]) * 60 + v[5]) * 1000 + v[6]
  }

  /** A day that exists and a time of that day. */
  predicate IsMoment(v: seq<nat>) {
    |v| == 7 && IsDate(DateIn(v)) && v[3] < 24 && v[4] < 60 && v[5] < 60 && v[6] < 1000
  }

  /** What `Date.parse` takes: days up to 31 run over into the next month, and 24:00 into the next day. */
  predicate Parses(v: seq<nat>) {
    |v| == 7 && 1 <= v[1] <= 12 && 1 <= v[2] <= 31 && v[4] < 60 && v[5] < 60 && v[6] < 1000
    && (v[3] < 24 || (v[3] == 24 && v[4] == 0 && v[5] == 0 && v[6] == 0))
  }

  /** Milliseconds since the start of year 0. */
  function TimeValue(v: seq<nat>): nat
    requires |v| == 7 && v[2] >= 1
  {
    DayNumber(DateIn(v)) * DAY + TimeOfDay(v)
  }

  function MomentOf(t: nat): (v: seq<nat>)
    ensures IsMoment(v) && TimeValue(v) == t
  {
    var d, rest := DateOf(t / DAY), t % DAY;
    var seconds := rest / 1000;
    var minutes := seconds / 60;
    [d.year, d.month, d.day, minutes / 60, minutes % 60, seconds % 60, rest % 1000]
  }

  /** `toISOString`: years past 9999 are printed with a sign and six digits. */
  function ToIso(t: nat): string {
    var v := MomentOf(t);
    if v[0] < 10000 then Render(SHAPE, v)
    else ['+'] + Pad(v[0], 6) + ['-'] + Render(SHAPE[1..], v[1..])
  }

  predicate Canonical(text: string) {
    match Match(SHAPE, text)
    case Some(v) => Parses(v) && ToIso(TimeValue(v)) == text
    case None => false
  }

  function TimeOf(text: string): nat
    requires Canonical(text)
  {
    TimeValue(Match(SHAPE, text).value)
  }

  lemma EarlierMoments(v: seq<nat>, u: seq<nat>)
    requires IsMoment(v) && IsMoment(u)
    ensures Earlier(v, u) <==> TimeValue(v) < TimeValue(u)
  {
    EarlierFields(v, u);
    if Before(DateIn(v), DateIn(u)) {
      DayNumberIncreases(DateIn(v), DateIn(u));
    } else if Before(DateIn(u), DateIn(v)) {
      DayNumberIncreases(DateIn(u), DateIn(v));
    }
  }

  lemma EarlierFrom(v: seq<nat>, u: seq<nat>, i: nat)
    requires |v| == |u| && i < |v|
    ensures Earlier(v[i..], u[i..]) <==> v[i] < u[i] || (v[i] == u[i] && Earlier(v[i + 1..], u[i + 1..]))
  {
    assert v[i..][1..] == v[i + 1..] && u[i..][1..] == u[i + 1..];
  }

  lemma EarlierFields(v: seq<nat>, u: seq<nat>)
    requires IsMoment(v) && IsMoment(u)
    ensures Earlier(v, u) <==> Before(DateIn(v), DateIn(u)) || (DateIn(v) == DateIn(u) && TimeOfDay(v) < TimeOfDay(u))
  {
    assert v[0..] == v && u[0..] == u && !Earlier(v[7..], u[7..]);
    EarlierFrom(v, u, 0);
    EarlierFrom(v, u, 1);
    EarlierFrom(v, u, 2);
    EarlierFrom(v, u, 3);
    EarlierFrom(v, u, 4);
    EarlierFrom(v, u, 5);
    EarlierFrom(v, u, 6);
  }

  lemma MixedRadix(a: nat, b: nat, x: nat, y: nat, radix: nat)
    requires radix in {60, 1000, DAY}
    requires x < radix && y < radix && a * radix + x == b * radix + y
    ensures a == b && x == y
  {
    if radix == 60 {
      assert a * 60 + x == b * 60 + y;
    } else if radix == 1000 {
      assert a * 1000 + x == b * 1000 + y;
    } else {
      assert a * DAY + x == b * DAY + y;
    }
  }

  /** A time value names one moment only. */
  lemma MomentIsUnique(v: seq<nat>)
    requires IsMoment(v)
    ensures MomentOf(TimeValue(v)) == v
  {
    var u := MomentOf(TimeValue(v));
    MixedRadix(DayNumber(DateIn(v)), DayNumber(DateIn(u)), TimeOfDay(v), TimeOfDay(u), DAY);
    DateIsUnique(DateIn(v));
    DateIsUnique(DateIn(u));
    TimeOfDayIsUnique(v, u);
    assert v == [v[0], v[1], v[2], v[3], v[4], v[5], v[6]];
    assert u == [u[0], u[1], u[2], u[3], u[4], u[5], u[6]];
  }

  lemma TimeOfDayIsUnique(v: seq<nat>, u: seq<nat>)
    requires IsMoment(v) && IsMoment(u) && TimeOfDay(v) == TimeOfDay(u)
    ensures v[3] == u[3] && v[4] == u[4] && v[5] == u[5] && v[6] == u[6]
  {
    MixedRadix((v[3] * 60 + v[4]) * 60 + v[5], (u[3] * 60 + u[4]) * 60 + u[5], v[6], u[6], 1000);
    MixedRadix(v[3] * 60 + v[4], u[3] * 60 + u[4], v[5], u[5], 60);
    MixedRadix(v[3], u[3], v[4], u[4], 60);
  }

  lemma Widths()
    ensures Power(4) == 10000 && Power(2) == 100 && Power(3) == 1000
  {
  }

  lemma MomentFits(v: seq<nat>)
    requires IsMoment(v) && v[0] < 10000
    ensures InWidth(SHAPE, v)
  {
    Widths();
  }

  lemma {:induction false} RenderLength(parts: seq<Part>, v: seq<nat>, u: seq<nat>)
    requires |v| == |u| == |parts|
    ensures |Render(parts, v)| == |Render(parts, u)|
  {
    if v != [] {
      RenderLength(parts[1..], v[1..], u[1..]);
    }
  }

  lemma OnlyMomentsArePrinted(t: nat, v: seq<nat>)
    requires |v| == |SHAPE| && !IsMoment(v)
    ensures ToIso(t) != Render(SHAPE, v) || !InWidth(SHAPE, v)
  {
    var u := MomentOf(t);
    RenderLength(SHAPE, v, u);
    if u[0] < 10000 && InWidth(SHAPE, v) {
      MomentFits(u);
      MatchOfRender(SHAPE, u);
      MatchOfRender(SHAPE, v);
    } else if u[0] >= 10000 {
      assert |ToIso(t)| == |Render(SHAPE, u)| + 3;
    }
  }

  /** A text is canonical exactly when it matches the pattern and names a moment that exists. */
  lemma CanonicalIsMoment(text: string)
    ensures Canonical(text) <==> Match(SHAPE, text).Some? && IsMoment(Match(SHAPE, text).value)
  {
    if Match(SHAPE, text).Some? {
      var v := Match(SHAPE, text).value;
      RenderOfMatch(SHAPE, text);
      Widths();
      if IsMoment(v) {
        assert v[0] < Power(SHAPE[0].width);
        MomentIsUnique(v);
      } else if Parses(v) {
        OnlyMomentsArePrinted(TimeValue(v), v);
      }
    }
  }

  /** String order on canonical timestamps is time order. */
  lemma StringOrderIsTimeOrder(a: string, b: string)
    requires Canonical(a) && Canonical(b)
    ensures Less(a, b) <==> TimeOf(a) < TimeOf(b)
    ensures a == b <==> TimeOf(a) == TimeOf(b)
  {
    var v, u := Match(SHAPE, a).value, Match(SHAPE, b).value;
    CanonicalIsMoment(a);
    CanonicalIsMoment(b);
    RenderOfMatch(SHAPE, a);
    RenderOfMatch(SHAPE, b);
    RendersSort(SHAPE, v, u);
    EarlierMoments(v, u);
    if TimeOf(a) == TimeOf(b) {
      MomentIsUnique(v);
      MomentIsUnique(u);
    }
  }

  lemma PrintedIsCanonical(t: nat)
    requires MomentOf(t)[0] < 10000
    ensures Canonical(ToIso(t)) && TimeOf(ToIso(t)) == t
  {
    MomentFits(MomentOf(t));
    MatchOfRender(SHAPE, MomentOf(t));
    CanonicalIsMoment(ToIso(t));
  }

  function DeriveStaleAfter(acceptedAt: string): Option<string>
    requires Canonical(acceptedAt)
  {
    var staleAfter := ToIso(TimeOf(acceptedAt) + TTL);
    if Match(SHAPE, staleAfter).None? then None else Some(staleAfter)
  }

  /** The expiry is the canonical timestamp thirty days later; it fails exactly past the last four-digit year. */
  lemma StaleAfterThirtyDays(acceptedAt: string)
    requires Canonical(acceptedAt)
    ensures var r := DeriveStaleAfter(acceptedAt);
      && (r.Some? <==> MomentOf(TimeOf(acceptedAt) + TTL)[0] < 10000)
      && (r.Some? ==> Canonical(r.value) && TimeOf(r.value) == TimeOf(acceptedAt) + TTL && Less(acceptedAt, r.value))
  {
    var t := TimeOf(acceptedAt) + TTL;
    var v := MomentOf(t);
    if v[0] < 10000 {
      PrintedIsCanonical(t);
      StringOrderIsTimeOrder(acceptedAt, ToIso(t));
    } else {
      assert ToIso(t)[..4][0] == '+';
    }
  }
}
