/**
 Content identity of a static frontend: the entries sorted by path, each framed by its
 lengths, in one byte stream.  The digest is taken of that stream, so everything is said
 of the stream.
 */
module StaticManifest {
  import opened JsHeap
  import opened Utf8

  const MAXIMUM_NODE_COUNT := 20_000
  const MAXIMUM_FILE_BYTES := 64 * 1024 * 1024
  const MAXIMUM_TOTAL_BYTES := 512 * 1024 * 1024
  const MAXIMUM_PATH_BYTES := 1_024

  type Path = seq<Unit>

  /** The content digest is its 32 bytes. */
  type Digest = d: seq<Byte> | |d| == 32 witness seq(32, i => 0)

  datatype Entry = Entry(path: Path, byteLength: nat, contentSha256: Digest)

  const SLASH: Unit := 47
  const BACKSLASH: Unit := 92
  const DOT: Unit := 46

  /** The segments between slashes. */
  function Split(path: Path): (segments: seq<Path>)
    ensures segments != []
  {
    if path == [] then [[]]
    else
      var rest := Split(path[1..]);
      if path[0] == SLASH then [[]] + rest else [[path[0]] + rest[0]] + rest[1..]
  }

  predicate IsContentPath(path: Path) {
    && path != [] && 0 !in path && |Encode(path)| <= MAXIMUM_PATH_BYTES
    && path[0] != SLASH && BACKSLASH !in path && path[|path| - 1] != SLASH
    && forall segment :: segment in Split(path) ==> segment != [] && segment != [DOT] && segment != [DOT, DOT]
  }

  predicate AdmitsEntry(e: Entry) {
    e.byteLength <= MAXIMUM_FILE_BYTES && IsContentPath(e.path)
  }

  /** Eight bytes, the most significant first, of a number that fits. */
  function BigEndian(value: nat, width: nat): (b: seq<Byte>)
    ensures |b| == width
    decreases width
  {
    if width == 0 then [] else BigEndian(value / 256, width - 1) + [value % 256]
  }

  function Power256(width: nat): nat {
    if width == 0 then 1 else 256 * Power256(width - 1)
  }

  function Uint64(value: nat): (b: seq<Byte>)
    ensures |b| == 8
  {
    BigEndian(value, 8)
  }

  lemma {:induction false} BigEndianIsInjective(a: nat, b: nat, width: nat)
    requires a < Power256(width) && b < Power256(width) && BigEndian(a, width) == BigEndian(b, width)
    ensures a == b
    decreases width
  {
    if width > 0 {
      var x, y := BigEndian(a, width), BigEndian(b, width);
      assert x[..width - 1] == BigEndian(a / 256, width - 1) && x[width - 1] == a % 256;
      assert y[..width - 1] == BigEndian(b / 256, width - 1) && y[width - 1] == b % 256;
      BigEndianIsInjective(a / 256, b / 256, width - 1);
    }
  }

  lemma Uint64IsInjective(a: nat, b: nat)
    requires a < 0x1_0000_0000 && b < 0x1_0000_0000 && Uint64(a) == Uint64(b)
    ensures a == b
  {
    assert Power256(4) == 0x1_0000_0000;
    assert Power256(8) == 256 * (256 * (256 * (256 * Power256(4))));
    BigEndianIsInjective(a, b, 8);
  }

  /** JavaScript's order of strings, unit by unit. */
  predicate Before(a: Path, b: Path) {
    b != [] && (a == [] || a[0] < b[0] || (a[0] == b[0] && Before(a[1..], b[1..])))
  }

  lemma {:induction false} BeforeIsTotal(a: Path, b: Path)
    ensures Before(a, b) || a == b || Before(b, a)
    ensures !(Before(a, b) && Before(b, a)) && !Before(a, a)
  {
    if a != [] {
      BeforeIsTotal(a[1..], a[1..]);
      if b != [] {
        BeforeIsTotal(a[1..], b[1..]);
      }
    }
  }

  lemma {:induction false} BeforeIsTransitive(a: Path, b: Path, c: Path)
    requires Before(a, b) && Before(b, c)
    ensures Before(a, c)
  {
    if a != [] && a[0] == b[0] == c[0] {
      BeforeIsTransitive(a[1..], b[1..], c[1..]);
    }
  }

  /** Each path comes before the next one. */
  ghost predicate Ascending(es: seq<Entry>) {
    forall i, j :: 0 <= i < j < |es| ==> Before(es[i].path, es[j].path)
  }

  ghost predicate Distinct(es: seq<Entry>) {
    forall i, j :: 0 <= i < j < |es| ==> es[i].path != es[j].path
  }

  function Insert(e: Entry, es: seq<Entry>): (r: seq<Entry>)
    ensures multiset(r) == multiset(es) + multiset{e}
  {
    if es == [] then [e]
    else if Before(es[0].path, e.path) then
      assert es == [es[0]] + es[1..];
      [es[0]] + Insert(e, es[1..])
    else [e] + es
  }

  /** The entries by path; a stable sort, like the engine's. */
  function SortByPath(es: seq<Entry>): (r: seq<Entry>)
    ensures multiset(r) == multiset(es)
  {
    if es == [] then []
    else
      assert es == [es[0]] + es[1..];
      Insert(es[0], SortByPath(es[1..]))
  }

  lemma {:induction false} InsertKeepsAscending(e: Entry, es: seq<Entry>)
    requires Ascending(es) && forall i :: 0 <= i < |es| ==> es[i].path != e.path
    ensures Ascending(Insert(e, es))
    ensures forall x :: x in Insert(e, es) <==> x == e || x in es
  {
    if es != [] {
      BeforeIsTotal(es[0].path, e.path);
      if Before(es[0].path, e.path) {
        InsertKeepsAscending(e, es[1..]);
        var r := Insert(e, es[1..]);
        forall j | 0 <= j < |r| ensures Before(es[0].path, r[j].path) {
          assert r[j] in r;
          if r[j] != e {
            var k :| 0 <= k < |es| - 1 && es[1..][k] == r[j];
            assert es[k + 1] == r[j];
          }
        }
      } else {
        forall j | 0 < j < |es| ensures Before(e.path, es[j].path) {
          BeforeIsTransitive(e.path, es[0].path, es[j].path);
        }
      }
    }
  }

  lemma {:induction false} DistinctSortAscends(es: seq<Entry>)
    requires Distinct(es)
    ensures Ascending(SortByPath(es))
  {
    if es != [] {
      DistinctSortAscends(es[1..]);
      var r := SortByPath(es[1..]);
      forall i | 0 <= i < |r| ensures r[i].path != es[0].path {
        assert r[i] in multiset(r) && multiset(r) == multiset(es[1..]);
        assert r[i] in es[1..];
      }
      InsertKeepsAscending(es[0], r);
    }
  }

  lemma {:induction false} TwiceInList(s: seq<Entry>, x: Entry)
    requires multiset(s)[x] >= 2
    ensures exists k, l :: 0 <= k < l < |s| && s[k] == x && s[l] == x
  {
    assert s == [s[0]] + s[1..];
    if s[0] == x {
      assert x in multiset(s[1..]);
      var l :| 0 <= l < |s| - 1 && s[1..][l] == x;
      assert s[0] == x && s[l + 1] == x;
    } else {
      TwiceInList(s[1..], x);
      var k, l :| 0 <= k < l < |s| - 1 && s[1..][k] == x && s[1..][l] == x;
      assert s[k + 1] == x && s[l + 1] == x;
    }
  }

  lemma CountedTwice(s: seq<Entry>, i: nat, j: nat)
    requires i < j < |s| && s[i] == s[j]
    ensures multiset(s)[s[i]] >= 2
  {
    assert s == s[..j] + [s[j]] + s[j + 1..];
    assert s[i] in s[..j];
  }

  /** Reordering does not make duplicates. */
  lemma PermutationKeepsDistinct(a: seq<Entry>, b: seq<Entry>)
    requires multiset(a) == multiset(b) && Distinct(a)
    ensures Distinct(b)
  {
    forall i, j | 0 <= i < j < |b| ensures b[i].path != b[j].path {
      assert b[i] in multiset(a) && b[j] in multiset(a);
      if b[i] == b[j] {
        CountedTwice(b, i, j);
        TwiceInList(a, b[i]);
      }
    }
  }

  lemma HeadsAgree(a: seq<Entry>, b: seq<Entry>)
    requires Ascending(a) && Ascending(b) && a != [] && b != [] && a[0] in b && b[0] in a
    ensures a[0] == b[0]
  {
    var i :| 0 <= i < |b| && b[i] == a[0];
    var j :| 0 <= j < |a| && a[j] == b[0];
    BeforeIsTotal(a[0].path, b[0].path);
  }

  /** An ascending list is determined by its elements. */
  lemma {:induction false} AscendingIsUnique(a: seq<Entry>, b: seq<Entry>)
    requires Ascending(a) && Ascending(b) && multiset(a) == multiset(b)
    ensures a == b
  {
    assert |a| == |multiset(a)| && |b| == |multiset(b)|;
    if a != [] {
      assert a[0] in multiset(b) && b[0] in multiset(a);
      HeadsAgree(a, b);
      WithoutHead(a);
      WithoutHead(b);
      AscendingIsUnique(a[1..], b[1..]);
    }
  }

  lemma WithoutHead(a: seq<Entry>)
    requires Ascending(a) && a != []
    ensures Ascending(a[1..]) && multiset(a[1..]) == multiset(a) - multiset{a[0]} && a == [a[0]] + a[1..]
  {
    assert a == [a[0]] + a[1..];
  }

  /** The domain that starts every stream: its characters are all ASCII, with a zero at the end. */
  const DOMAIN: seq<Byte> := [
    115, 116, 97, 114, 107, 45, 98, 97, 108, 108, 111, 116, 45, 115, 116, 97, 116, 105, 99, 45, 102, 114, 111, 110,
    116, 101, 110, 100, 45, 99, 111, 110, 116, 101, 110, 116, 0]

  function Frame(e: Entry): seq<Byte> {
    Uint64(|Encode(e.path)|) + Encode(e.path) + Uint64(e.byteLength) + e.contentSha256
  }

  function Join(parts: seq<seq<Byte>>): seq<Byte> {
    if parts == [] then [] else parts[0] + Join(parts[1..])
  }

  lemma {:induction false} JoinAppend(parts: seq<seq<Byte>>, i: nat)
    requires i < |parts|
    ensures Join(parts[..i + 1]) == Join(parts[..i]) + parts[i]
  {
    if i == 0 {
      assert parts[..1] == [parts[0]];
    } else {
      JoinAppend(parts[1..], i - 1);
      assert parts[..i + 1][1..] == parts[1..][..i] && parts[..i][1..] == parts[1..][..i - 1];
    }
  }

  function FrameList(es: seq<Entry>): (parts: seq<seq<Byte>>)
    ensures |parts| == |es|
  {
    seq(|es|, i requires 0 <= i < |es| => Frame(es[i]))
  }

  function Frames(es: seq<Entry>): seq<Byte> {
    Join(FrameList(es))
  }

  function Stream(es: seq<Entry>): seq<Byte> {
    DOMAIN + Uint64(|es|) + Frames(SortByPath(es))
  }

  function TotalBytes(es: seq<Entry>): nat {
    if es == [] then 0 else TotalBytes(es[..|es| - 1]) + es[|es| - 1].byteLength
  }

  lemma {:induction false} TotalFromHead(es: seq<Entry>)
    requires es != []
    ensures TotalBytes(es) == es[0].byteLength + TotalBytes(es[1..])
  {
    if |es| > 1 {
      TotalFromHead(es[..|es| - 1]);
      assert es[1..][..|es| - 2] == es[..|es| - 1][1..];
    }
  }

  lemma {:induction false} InsertAddsBytes(e: Entry, es: seq<Entry>)
    ensures TotalBytes(Insert(e, es)) == e.byteLength + TotalBytes(es)
  {
    var r := Insert(e, es);
    TotalFromHead(r);
    if es != [] && Before(es[0].path, e.path) {
      TotalFromHead(es);
      InsertAddsBytes(e, es[1..]);
    } else {
      assert r[1..] == es;
    }
  }

  /** The order of the entries does not matter to their total. */
  lemma {:induction false} SortKeepsTotal(es: seq<Entry>)
    ensures TotalBytes(SortByPath(es)) == TotalBytes(es)
  {
    if es != [] {
      SortKeepsTotal(es[1..]);
      InsertAddsBytes(es[0], SortByPath(es[1..]));
      TotalFromHead(es);
    }
  }

  /** What the manifest admits: enough entries, each in bounds, no path twice, and a bounded total. */
  ghost predicate Accepts(es: seq<Entry>) {
    && 0 < |es| <= MAXIMUM_NODE_COUNT && (forall e :: e in es ==> AdmitsEntry(e))
    && Distinct(es) && TotalBytes(es) <= MAXIMUM_TOTAL_BYTES
  }

  function AdmitAggregateBytes(current: nat, next: nat): Option<nat> {
    if current + next > MAXIMUM_TOTAL_BYTES then None else Some(current + next)
  }

  /** How much may be read of a file of which so much was observed: never less than that, and never past the bounds. */
  function AdmitFileReadMaximum(current: nat, observed: nat): (r: Option<nat>)
    ensures r.Some? <==> observed <= MAXIMUM_FILE_BYTES && current + observed <= MAXIMUM_TOTAL_BYTES
    ensures r.Some? ==> observed <= r.value <= MAXIMUM_FILE_BYTES && r.value >= 1
    ensures r.Some? ==> current + r.value <= MAXIMUM_TOTAL_BYTES || (current == MAXIMUM_TOTAL_BYTES && r.value == 1)
  {
    if observed > MAXIMUM_FILE_BYTES || AdmitAggregateBytes(current, observed).None? then None
    else
      var room := MAXIMUM_TOTAL_BYTES - current;
      var least := if MAXIMUM_FILE_BYTES < room then MAXIMUM_FILE_BYTES else room;
      Some(if least < 1 then 1 else least)
  }

  datatype Identity = Identity(fileCount: nat, stream: seq<Byte>, totalBytes: nat)

  lemma {:induction false} PrefixTotals(es: seq<Entry>, n: nat)
    requires n <= |es|
    ensures TotalBytes(es[..n]) <= TotalBytes(es)
    decreases |es|
  {
    if n == |es| {
      assert es[..n] == es;
    } else {
      PrefixTotals(es[..|es| - 1], n);
      assert es[..|es| - 1][..n] == es[..n];
    }
  }

  /** Some path is there twice: the set of paths is smaller than the list. */
  method HasDuplicatePaths(sorted: seq<Entry>) returns (r: bool)
    ensures r <==> !Distinct(sorted)
  {
    var paths: set<Path> := {};
    for i := 0 to |sorted|
      invariant forall p :: p in paths <==> exists k :: 0 <= k < i && sorted[k].path == p
      invariant Distinct(sorted[..i])
    {
      if sorted[i].path in paths {
        var k :| 0 <= k < i && sorted[k].path == sorted[i].path;
        return true;
      }
      paths := paths + {sorted[i].path};
      assert sorted[i].path in paths;
    }
    assert sorted[..|sorted|] == sorted;
    r := false;
  }

  method DeriveDigestEntryIdentity(entries: seq<Entry>) returns (r: Option<Identity>)
    ensures r.Some? <==> Accepts(entries)
    ensures r.Some? ==> r.value == Identity(|entries|, Stream(entries), TotalBytes(entries))
  {
    if |entries| == 0 || |entries| > MAXIMUM_NODE_COUNT || exists e :: e in entries && !AdmitsEntry(e) {
      return None;
    }
    var admitted := SortByPath(entries);
    if Distinct(admitted) {
      PermutationKeepsDistinct(admitted, entries);
    } else if Distinct(entries) {
      PermutationKeepsDistinct(entries, admitted);
    }
    SortKeepsTotal(entries);
    var duplicates := HasDuplicatePaths(admitted);
    if duplicates {
      return None;
    }
    assert |admitted| == |multiset(admitted)| == |multiset(entries)| == |entries|;
    var totalBytes, stream := HashEntries(DOMAIN + Uint64(|admitted|), admitted);
    r := if totalBytes.None? then None else Some(Identity(|admitted|, stream, totalBytes.value));
  }

  ghost predicate TotalledUpTo(es: seq<Entry>, i: nat, totalBytes: nat) {
    i <= |es| && totalBytes == TotalBytes(es[..i])
  }

  lemma TotalledOneMore(es: seq<Entry>, i: nat, totalBytes: nat)
    requires i < |es| && TotalledUpTo(es, i, totalBytes)
    ensures TotalledUpTo(es, i + 1, totalBytes + es[i].byteLength) && totalBytes + es[i].byteLength <= TotalBytes(es)
    ensures i + 1 == |es| ==> totalBytes + es[i].byteLength == TotalBytes(es)
  {
    assert es[..i + 1][..i] == es[..i];
    PrefixTotals(es, i + 1);
    assert i + 1 == |es| ==> es[..i + 1] == es;
  }

  /** What was hashed after the first `i` frames. */
  ghost predicate HashedUpTo(head: seq<Byte>, parts: seq<seq<Byte>>, i: nat, stream: seq<Byte>) {
    i <= |parts| && stream == head + Join(parts[..i])
  }

  lemma HashedOneMore(head: seq<Byte>, parts: seq<seq<Byte>>, i: nat, stream: seq<Byte>)
    requires i < |parts| && HashedUpTo(head, parts, i, stream)
    ensures HashedUpTo(head, parts, i + 1, stream + parts[i])
    ensures i + 1 == |parts| ==> stream + parts[i] == head + Join(parts)
  {
    JoinAppend(parts, i);
    Associates(head, Join(parts[..i]), parts[i]);
    if i + 1 == |parts| {
      assert parts[..i + 1] == parts;
    }
  }

  lemma Associates(a: seq<Byte>, b: seq<Byte>, c: seq<Byte>)
    ensures a + b + c == a + (b + c)
  {
  }

  /** The running total, and what is hashed after the head of the stream. */
  method HashEntries(head: seq<Byte>, admitted: seq<Entry>) returns (totalBytes: Option<nat>, stream: seq<Byte>)
    requires admitted != []
    ensures totalBytes == if TotalBytes(admitted) <= MAXIMUM_TOTAL_BYTES then Some(TotalBytes(admitted)) else None
    ensures totalBytes.Some? ==> stream == head + Frames(admitted)
  {
    var total: nat := 0;
    stream := head;
    ghost var parts := FrameList(admitted);
    for i := 0 to |admitted|
      invariant TotalledUpTo(admitted, i, total) && total <= MAXIMUM_TOTAL_BYTES
      invariant i == |admitted| ==> total == TotalBytes(admitted) && stream == head + Join(parts)
      invariant HashedUpTo(head, parts, i, stream)
    {
      TotalledOneMore(admitted, i, total);
      HashedOneMore(head, parts, i, stream);
      totalBytes := AdmitAggregateBytes(total, admitted[i].byteLength);
      if totalBytes.None? {
        return;
      }
      total := totalBytes.value;
      var frame := HashEntry(admitted[i]);
      assert frame == parts[i];
      stream := stream + frame;
    }
    totalBytes := Some(total);
  }

  method HashEntry(e: Entry) returns (frame: seq<Byte>)
    ensures frame == Frame(e)
  {
    var pathBytes := Encode(e.path);
    frame := Uint64(|pathBytes|);
    frame := frame + pathBytes;
    frame := frame + Uint64(e.byteLength);
    frame := frame + e.contentSha256;
  }

  /** Alike in all that is hashed: same size, same digest, and paths that differ at most in their lone surrogates. */
  predicate Alike(a: Entry, b: Entry) {
    Runes(a.path) == Runes(b.path) && a.byteLength == b.byteLength && a.contentSha256 == b.contentSha256
  }

  ghost predicate AllAlike(a: seq<Entry>, b: seq<Entry>) {
    |a| == |b| && forall i :: 0 <= i < |a| ==> Alike(a[i], b[i])
  }

  /** Two texts cut at the same place. */
  lemma Cut(p: seq<Byte>, q: seq<Byte>, x: seq<Byte>, y: seq<Byte>)
    requires |p| == |q| && p + x == q + y
    ensures p == q && x == y
  {
    assert p == (p + x)[..|p|] && q == (q + y)[..|q|] && x == (p + x)[|p|..] && y == (q + y)[|q|..];
  }

  lemma CutFrame(m: seq<Byte>, p: seq<Byte>, k: seq<Byte>, d: seq<Byte>, x: seq<Byte>,
                 n: seq<Byte>, q: seq<Byte>, l: seq<Byte>, e: seq<Byte>, y: seq<Byte>)
    requires |m| == |n| == |k| == |l| == 8 && |d| == |e| && (m == n ==> |p| == |q|)
    requires m + p + k + d + x == n + q + l + e + y
    ensures m == n && p == q && k == l && d == e && x == y
  {
    assert m + p + k + d + x == m + (p + k + d + x) && n + q + l + e + y == n + (q + l + e + y);
    Cut(m, n, p + k + d + x, q + l + e + y);
    Cut(p + k + d, q + l + e, x, y);
    Cut(p + k, q + l, d, e);
    Cut(p, q, k, l);
  }

  /** The lengths tell where a frame ends. */
  lemma FrameIsPrefixFree(a: Entry, b: Entry, x: seq<Byte>, y: seq<Byte>)
    requires AdmitsEntry(a) && AdmitsEntry(b) && Frame(a) + x == Frame(b) + y
    ensures Alike(a, b) && x == y
  {
    var p, q := Encode(a.path), Encode(b.path);
    var m, n := Uint64(|p|), Uint64(|q|);
    if m == n {
      Uint64IsInjective(|p|, |q|);
    }
    CutFrame(m, p, Uint64(a.byteLength), a.contentSha256, x, n, q, Uint64(b.byteLength), b.contentSha256, y);
    Uint64IsInjective(a.byteLength, b.byteLength);
    RunesEncodeInjectively(Runes(a.path), Runes(b.path));
  }

  lemma FramesUnfold(es: seq<Entry>)
    requires es != []
    ensures Frames(es) == Frame(es[0]) + Frames(es[1..])
  {
    assert FrameList(es)[1..] == FrameList(es[1..]);
  }

  lemma AlikeFrames(a: Entry, b: Entry)
    requires Alike(a, b)
    ensures Frame(a) == Frame(b)
  {
  }

  lemma {:induction false} FramesDecode(a: seq<Entry>, b: seq<Entry>)
    requires |a| == |b| && forall i :: 0 <= i < |a| ==> AdmitsEntry(a[i]) && AdmitsEntry(b[i])
    ensures Frames(a) == Frames(b) <==> AllAlike(a, b)
  {
    if a != [] {
      FramesUnfold(a);
      FramesUnfold(b);
      FramesDecode(a[1..], b[1..]);
      if Frames(a) == Frames(b) {
        FrameIsPrefixFree(a[0], b[0], Frames(a[1..]), Frames(b[1..]));
      }
      if AllAlike(a, b) {
        AlikeFrames(a[0], b[0]);
      }
    }
  }

  lemma SortedAreAdmitted(es: seq<Entry>)
    requires forall e :: e in es ==> AdmitsEntry(e)
    ensures |SortByPath(es)| == |es| && forall i :: 0 <= i < |es| ==> AdmitsEntry(SortByPath(es)[i])
  {
    var r := SortByPath(es);
    assert |r| == |multiset(r)| == |multiset(es)| == |es|;
    forall i | 0 <= i < |r| ensures AdmitsEntry(r[i]) {
      assert r[i] in multiset(r);
      assert r[i] in es;
    }
  }

  lemma CutStream(d: seq<Byte>, m: seq<Byte>, x: seq<Byte>, n: seq<Byte>, y: seq<Byte>)
    requires |m| == |n| && d + m + x == d + n + y
    ensures m == n && x == y
  {
    Cut(d + m, d + n, x, y);
    Cut(d, d, m, n);
  }

  /** Two accepted lists give the same stream exactly when, sorted, they are alike entry by entry. */
  lemma StreamTellsEntries(a: seq<Entry>, b: seq<Entry>)
    requires Accepts(a) && Accepts(b)
    ensures Stream(a) == Stream(b) <==> AllAlike(SortByPath(a), SortByPath(b))
  {
    var x, y := SortByPath(a), SortByPath(b);
    SortedAreAdmitted(a);
    SortedAreAdmitted(b);
    if Stream(a) == Stream(b) {
      CutStream(DOMAIN, Uint64(|a|), Frames(x), Uint64(|b|), Frames(y));
      Uint64IsInjective(|a|, |b|);
      FramesDecode(x, y);
    } else if |a| == |b| {
      FramesDecode(x, y);
    }
  }

  /** Entries with well-formed paths are alike only when they are equal. */
  lemma AlikeIsEqual(x: seq<Entry>, y: seq<Entry>)
    requires forall i :: 0 <= i < |x| ==> WellFormed(x[i].path)
    requires forall i :: 0 <= i < |y| ==> WellFormed(y[i].path)
    ensures AllAlike(x, y) <==> x == y
  {
    if AllAlike(x, y) {
      forall i | 0 <= i < |x| ensures x[i] == y[i] {
        assert Alike(x[i], y[i]);
        RunesAreInjective(x[i].path, y[i].path);
      }
    }
  }

  lemma SortedAreWellFormed(es: seq<Entry>)
    requires forall e :: e in es ==> WellFormed(e.path)
    ensures forall i :: 0 <= i < |SortByPath(es)| ==> WellFormed(SortByPath(es)[i].path)
  {
    var r := SortByPath(es);
    forall i | 0 <= i < |r| ensures WellFormed(r[i].path) {
      assert r[i] in multiset(r);
      assert r[i] in es;
    }
  }

  /** With well-formed paths, two accepted lists give the same stream exactly when one is a permutation of the other. */
  lemma StreamDeterminesEntries(a: seq<Entry>, b: seq<Entry>)
    requires Accepts(a) && Accepts(b)
    requires forall e :: e in a || e in b ==> WellFormed(e.path)
    ensures Stream(a) == Stream(b) <==> multiset(a) == multiset(b)
  {
    var x, y := SortByPath(a), SortByPath(b);
    StreamTellsEntries(a, b);
    SortedAreWellFormed(a);
    SortedAreWellFormed(b);
    AlikeIsEqual(x, y);
    if multiset(a) == multiset(b) {
      DistinctSortAscends(a);
      DistinctSortAscends(b);
      AscendingIsUnique(x, y);
    }
  }

  /** Lone surrogates have no bytes of their own, so that different paths can give one stream. */
  lemma LoneSurrogatesCollide(digest: Digest)
    ensures var a, b := [Entry([0xD800], 0, digest)], [Entry([0xD801], 0, digest)];
      a != b && Accepts(a) && Accepts(b) && Stream(a) == Stream(b)
  {
    var a, b := Entry([0xD800], 0, digest), Entry([0xD801], 0, digest);
    SinglePath(0xD800);
    SinglePath(0xD801);
    SingleEntry(a);
    SingleEntry(b);
    assert Alike(a, b);
    StreamTellsEntries([a], [b]);
  }

  lemma SinglePath(u: Unit)
    requires IsHigh(u)
    ensures Runes([u]) == [0xFFFD] && IsContentPath([u])
  {
    assert Runes([u]) == [0xFFFD];
    assert EncodeRunes([0xFFFD]) == EncodeRune(0xFFFD);
    SplitUnit(u);
  }

  lemma SplitUnit(u: Unit)
    requires u != SLASH
    ensures Split([u]) == [[u]]
  {
    var path := [u];
    assert path[1..] == [];
    var rest := Split(path[1..]);
    assert rest == [[]];
    assert rest[1..] == [] && [u] + rest[0] == [u];
  }

  lemma SingleEntry(e: Entry)
    requires AdmitsEntry(e)
    ensures SortByPath([e]) == [e] && Accepts([e])
  {
    assert SortByPath([e][1..]) == [];
    assert [e][..0] == [];
    assert TotalBytes([e]) == e.byteLength;
  }
}
