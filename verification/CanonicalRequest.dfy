/** The canonical form of a signed request (route/auth/middleware.go): decoding, sorting and
    re-encoding the query, and joining the signed fields with newlines. */
module CanonicalRequest {
  import opened Runs
  import opened Sorting
  import opened Splitting

  type Byte = c: char | c as int < 256 witness 'a'
  type Bytes = seq<Byte>

  // ---- percent encoding -------------------------------------------------------------------

  predicate Unreserved(c: Byte) {
    'a' <= c <= 'z' || 'A' <= c <= 'Z' || '0' <= c <= '9' || c == '-' || c == '_' || c == '.' || c == '~'
  }

  function HexDigit(n: nat): Byte
    requires n < 16
  {
    if n < 10 then (n + '0' as int) as char else (n - 10 + 'A' as int) as char
  }

  function Unhex(c: Byte): Option<nat> {
    if '0' <= c <= '9' then Some(c as int - '0' as int)
    else if 'A' <= c <= 'F' then Some(c as int - 'A' as int + 10)
    else if 'a' <= c <= 'f' then Some(c as int - 'a' as int + 10)
    else None
  }

  function EscapeByte(c: Byte): Bytes {
    if Unreserved(c) then [c]
    else if c == ' ' then ['+']
    else ['%', HexDigit(c as int / 16), HexDigit(c as int % 16)]
  }

  /** url.QueryEscape */
  function Escape(s: Bytes): Bytes {
    if s == [] then [] else EscapeByte(s[0]) + Escape(s[1..])
  }

  /** url.QueryUnescape */
  function Unescape(s: Bytes): Option<Bytes> {
    if s == [] then Some([])
    else if s[0] == '%' then
      if |s| < 3 || Unhex(s[1]).None? || Unhex(s[2]).None? then None
      else
        var rest := Unescape(s[3..]);
        var c: int := Unhex(s[1]).value * 16 + Unhex(s[2]).value;
        if rest.None? || c >= 256 then None else Some([c as char] + rest.value)
    else
      var rest := Unescape(s[1..]);
      if rest.None? then None else Some([if s[0] == '+' then ' ' else s[0]] + rest.value)
  }

  // What escaping does to each byte, and unescaping to each form, in so many characters.

  /** The unreserved bytes by number: digits, letters, and `-`, `.`, `_`, `~`. */
  lemma UnreservedCodes(c: Byte)
    ensures var n := c as int;
            Unreserved(c) <==> 48 <= n <= 57 || 65 <= n <= 90 || 97 <= n <= 122 || n in {45, 46, 95, 126}
  {
  }

  const UpperHex: string := "0123456789ABCDEF"
  const LowerHex: string := "0123456789abcdef"

  lemma HexDigits(c: Byte, n: nat)
    requires n < 16
    ensures HexDigit(n) == UpperHex[n]
    ensures Unhex(c) == Some(n) <==> c == UpperHex[n] || c == LowerHex[n]
  {
  }

  lemma {:induction false} EscapeConcat(a: Bytes, b: Bytes)
    ensures Escape(a + b) == Escape(a) + Escape(b)
  {
    if a == [] {
      assert a + b == b;
    } else {
      assert (a + b)[1..] == a[1..] + b;
      EscapeConcat(a[1..], b);
      Associate(EscapeByte(a[0]), Escape(a[1..]), Escape(b));
    }
  }

  /** Unreserved bytes stay, a space becomes `+`, any other byte its two upper-case hex digits. */
  lemma EscapedForm(c: Byte)
    ensures Unreserved(c) ==> Escape([c]) == [c]
    ensures Escape([' ']) == ['+']
    ensures !Unreserved(c) && c != ' ' ==> Escape([c]) == ['%', UpperHex[c as int / 16], UpperHex[c as int % 16]]
  {
    HexDigits(c, c as int / 16);
    HexDigits(c, c as int % 16);
    assert [c][1..] == [] && [' '][1..] == [];
  }

  function Hex(n: nat, lower: bool): Byte
    requires n < 16
  {
    if lower then LowerHex[n] else UpperHex[n]
  }

  /** `+` reads as a space, `%` with two hex digits of either case as the byte, and any other byte as
      itself; everything else is malformed. */
  lemma UnescapedForms(s: Bytes, hi: nat, lo: nat, lowerHi: bool, lowerLo: bool, c: Byte)
    requires hi < 16 && lo < 16 && Unescape(s).Some?
    ensures Unescape(['+'] + s) == Some([' '] + Unescape(s).value)
    ensures Unescape(['%', Hex(hi, lowerHi), Hex(lo, lowerLo)] + s) == Some([(hi * 16 + lo) as char] + Unescape(s).value)
    ensures c != '%' && c != '+' ==> Unescape([c] + s) == Some([c] + Unescape(s).value)
    ensures Unhex(c).None? ==> Unescape(['%', c] + s).None? && Unescape(['%', Hex(hi, lowerHi), c] + s).None?
  {
    HexDigits(Hex(hi, lowerHi), hi);
    HexDigits(Hex(lo, lowerLo), lo);
    var coded := ['%', Hex(hi, lowerHi), Hex(lo, lowerLo)] + s;
    assert (['+'] + s)[1..] == s && ([c] + s)[1..] == s && coded[3..] == s;
  }

  predicate Safe(c: Byte) {
    Unreserved(c) || c == '+' || c == '%'
  }

  lemma UnhexDigit(n: nat)
    requires n < 16
    ensures Unhex(HexDigit(n)) == Some(n) && Safe(HexDigit(n))
  {
  }

  lemma {:induction false} EscapeIsSafe(s: Bytes)
    ensures forall c :: c in Escape(s) ==> Safe(c)
  {
    if s != [] {
      EscapeIsSafe(s[1..]);
      UnhexDigit(s[0] as int / 16);
      UnhexDigit(s[0] as int % 16);
    }
  }

  lemma {:induction false} UnescapeEscape(s: Bytes)
    ensures Unescape(Escape(s)) == Some(s)
  {
    if s != [] {
      UnescapeEscape(s[1..]);
      var head, tail := EscapeByte(s[0]), Escape(s[1..]);
      var all := head + tail;
      assert s == [s[0]] + s[1..];
      if |head| == 3 {
        UnhexDigit(s[0] as int / 16);
        UnhexDigit(s[0] as int % 16);
        assert all[3..] == tail && all[0] == '%';
      } else {
        assert all[1..] == tail;
      }
    }
  }

  // ---- query strings ----------------------------------------------------------------------

  datatype Pair = Pair(key: Bytes, value: Bytes)

  /** strings.Cut(s, "=") */
  function CutEquals(s: Bytes): (Bytes, Bytes) {
    if s == [] then ([], [])
    else if s[0] == '=' then ([], s[1..])
    else var (k, v) := CutEquals(s[1..]); ([s[0]] + k, v)
  }

  /** The first `=` separates; without one the value is empty. */
  lemma {:induction false} CutMeaning(s: Bytes)
    ensures '=' !in CutEquals(s).0
    ensures '=' in s ==> s == CutEquals(s).0 + ['='] + CutEquals(s).1
    ensures '=' !in s ==> CutEquals(s) == (s, [])
  {
    if s != [] && s[0] != '=' {
      CutMeaning(s[1..]);
      var (k, v) := CutEquals(s[1..]);
      assert s == [s[0]] + s[1..];
      if '=' in s[1..] {
        assert [s[0]] + (k + ['='] + v) == ([s[0]] + k) + ['='] + v;
      }
    } else if s != [] {
      assert s == [] + ['='] + s[1..];
    }
  }

  function ParseSegment(s: Bytes): Option<seq<Pair>> {
    if ';' in s then None
    else if s == [] then Some([])
    else
      var (k, v) := CutEquals(s);
      var key, value := Unescape(k), Unescape(v);
      if key.None? || value.None? then None else Some([Pair(key.value, value.value)])
  }

  /** Which segments are refused: those with a semicolon or a malformed escape in key or value. */
  lemma SegmentMeaning(k: Bytes, v: Bytes)
    requires '=' !in k
    ensures ParseSegment(k + ['='] + v) ==
            if ';' in k || ';' in v || Unescape(k).None? || Unescape(v).None? then None
            else Some([Pair(Unescape(k).value, Unescape(v).value)])
    ensures k != [] ==>
              ParseSegment(k) == if ';' in k || Unescape(k).None? then None else Some([Pair(Unescape(k).value, [])])
    ensures ParseSegment([]) == Some([])
  {
    CutEncoded(k, v);
    CutMeaning(k);
    var s := k + ['='] + v;
    assert ';' in s <==> ';' in k || ';' in v;
  }

  function ParseSegments(segments: seq<Bytes>): Option<seq<Pair>> {
    if segments == [] then Some([])
    else
      var first, rest := ParseSegment(segments[0]), ParseSegments(segments[1..]);
      if first.None? || rest.None? then None else Some(first.value + rest.value)
  }

  /** url.ParseQuery as the list of decoded pairs in order of appearance, or an error. */
  function ParseQuery(raw: Bytes): Option<seq<Pair>> {
    ParseSegments(Split<Byte>('&', raw))
  }

  function EncodePair(p: Pair): Bytes {
    Escape(p.key) + ['='] + Escape(p.value)
  }

  function Parts(pairs: seq<Pair>): seq<Bytes> {
    seq(|pairs|, i requires 0 <= i < |pairs| => EncodePair(pairs[i]))
  }

  function Encode(pairs: seq<Pair>): Bytes {
    Join<Byte>('&', Parts(pairs))
  }

  lemma {:induction false} CutEncoded(k: Bytes, v: Bytes)
    requires '=' !in k
    ensures CutEquals(k + ['='] + v) == (k, v)
  {
    var s := k + ['='] + v;
    if k == [] {
      assert s[1..] == v;
    } else {
      CutEncoded(k[1..], v);
      assert s[1..] == k[1..] + ['='] + v;
      assert [k[0]] + k[1..] == k;
    }
  }

  lemma EncodedPairIsPlain(p: Pair)
    ensures '=' !in Escape(p.key)
    ensures '&' !in EncodePair(p) && '\n' !in EncodePair(p) && ';' !in EncodePair(p)
  {
    EscapeIsSafe(p.key);
    EscapeIsSafe(p.value);
    assert forall c :: c in EncodePair(p) ==> Safe(c) || c == '=';
  }

  lemma EncodedPairParses(p: Pair)
    ensures ParseSegment(EncodePair(p)) == Some([p])
  {
    EncodedPairIsPlain(p);
    CutEncoded(Escape(p.key), Escape(p.value));
    UnescapeEscape(p.key);
    UnescapeEscape(p.value);
    assert |EncodePair(p)| > 0;
  }

  lemma {:induction false} EncodedPartsParse(pairs: seq<Pair>)
    ensures ParseSegments(Parts(pairs)) == Some(pairs)
  {
    if pairs != [] {
      EncodedPairParses(pairs[0]);
      EncodedPartsParse(pairs[1..]);
      assert Parts(pairs)[1..] == Parts(pairs[1..]);
      assert pairs == [pairs[0]] + pairs[1..];
    }
  }

  /** Parsing undoes encoding for every list of pairs. */
  lemma ParseEncode(pairs: seq<Pair>)
    ensures ParseQuery(Encode(pairs)) == Some(pairs)
  {
    if pairs == [] {
      var none: seq<Bytes> := [[]];
      assert Parts(pairs) == [] && Split<Byte>('&', Encode(pairs)) == none && none[1..] == [];
      assert ParseSegment(none[0]) == Some([]) && ParseSegments(none[1..]) == Some([]);
      assert pairs + pairs == pairs;
    } else {
      forall p | p in Parts(pairs) ensures '&' !in p {
        var i :| 0 <= i < |pairs| && p == EncodePair(pairs[i]);
        EncodedPairIsPlain(pairs[i]);
      }
      SplitJoin<Byte>('&', Parts(pairs));
      EncodedPartsParse(pairs);
    }
  }

  // ---- order ------------------------------------------------------------------------------

  /** Bytewise lexicographic order, as sort.Strings uses. */
  predicate Le(a: Bytes, b: Bytes) {
    a == [] || (b != [] && (a[0] < b[0] || (a[0] == b[0] && Le(a[1..], b[1..]))))
  }

  /** `a` comes first where it ends or has the smaller byte. */
  predicate ComesFirst(a: Bytes, b: Bytes, i: nat) {
    i <= |a| && i <= |b| && a[..i] == b[..i] && (i == |a| || (i < |b| && a[i] < b[i]))
  }

  /** What the order is about: the first position where the strings differ decides. */
  lemma {:induction false} LeDecides(a: Bytes, b: Bytes)
    ensures Le(a, b) <==> exists i :: ComesFirst(a, b, i)
  {
    if a == [] {
      assert ComesFirst(a, b, 0);
    } else if b != [] {
      LeDecides(a[1..], b[1..]);
      if a[0] < b[0] {
        assert ComesFirst(a, b, 0);
      } else if a[0] == b[0] {
        if i: nat :| ComesFirst(a[1..], b[1..], i) {
          assert a[..i + 1] == [a[0]] + a[1..][..i] && b[..i + 1] == [b[0]] + b[1..][..i];
          assert ComesFirst(a, b, i + 1);
        }
      }
      if i: nat :| ComesFirst(a, b, i) && i > 0 {
        assert a[0] == a[..i][0] && b[0] == b[..i][0];
        assert a[1..][..i - 1] == a[..i][1..] && b[1..][..i - 1] == b[..i][1..];
        assert ComesFirst(a[1..], b[1..], i - 1);
      }
    }
  }

  lemma {:induction false} LeTotal(a: Bytes, b: Bytes)
    ensures Le(a, b) || Le(b, a)
    ensures Le(a, b) && Le(b, a) ==> a == b
    ensures Le(a, a)
  {
    if a != [] && b != [] {
      LeTotal(a[1..], b[1..]);
      assert a == [a[0]] + a[1..] && b == [b[0]] + b[1..];
    } else if a != [] {
      LeTotal(a[1..], a[1..]);
    }
  }

  lemma {:induction false} LeTransitive(a: Bytes, b: Bytes, c: Bytes)
    requires Le(a, b) && Le(b, c)
    ensures Le(a, c)
  {
    if a != [] && a[0] == b[0] == c[0] {
      LeTransitive(a[1..], b[1..], c[1..]);
    }
  }

  /** Pairs are ordered by key, then by value. */
  predicate PairLe(p: Pair, q: Pair) {
    if p.key == q.key then Le(p.value, q.value) else Le(p.key, q.key)
  }

  lemma PairLeTotal(p: Pair, q: Pair)
    ensures PairLe(p, q) || PairLe(q, p)
    ensures PairLe(p, q) && PairLe(q, p) ==> p == q
  {
    LeTotal(p.key, q.key);
    LeTotal(p.value, q.value);
  }

  lemma PairLeTransitive(p: Pair, q: Pair, r: Pair)
    requires PairLe(p, q) && PairLe(q, r)
    ensures PairLe(p, r)
  {
    if p.key == q.key == r.key {
      LeTransitive(p.value, q.value, r.value);
    } else {
      LeTotal(p.key, q.key);
      LeTotal(q.key, r.key);
      LeTransitive(p.key, q.key, r.key);
    }
  }

  lemma LeIsTotalOrder()
    ensures TotalOrder(Le)
  {
    forall a, b ensures (Le(a, b) || Le(b, a)) && (Le(a, b) && Le(b, a) ==> a == b) { LeTotal(a, b); }
    forall a, b, c | Le(a, b) && Le(b, c) ensures Le(a, c) { LeTransitive(a, b, c); }
  }

  lemma PairLeIsTotalOrder()
    ensures TotalOrder(PairLe)
  {
    forall a, b ensures (PairLe(a, b) || PairLe(b, a)) && (PairLe(a, b) && PairLe(b, a) ==> a == b) { PairLeTotal(a, b); }
    forall a, b, c | PairLe(a, b) && PairLe(b, c) ensures PairLe(a, c) { PairLeTransitive(a, b, c); }
  }

  lemma PairsSorted(ps: seq<Pair>)
    ensures Sorted(PairLe, Sort(PairLe, ps)) && multiset(Sort(PairLe, ps)) == multiset(ps)
  {
    PairLeIsTotalOrder();
    SortSorts(PairLe, ps);
  }

  lemma BytesSorted(xs: seq<Bytes>)
    ensures Sorted(Le, Sort(Le, xs)) && multiset(Sort(Le, xs)) == multiset(xs)
  {
    LeIsTotalOrder();
    SortSorts(Le, xs);
  }

  lemma SortedPairsEqual(a: seq<Pair>, b: seq<Pair>)
    requires Sorted(PairLe, a) && Sorted(PairLe, b) && multiset(a) == multiset(b)
    ensures a == b
  {
    PairLeIsTotalOrder();
    SortedUnique(PairLe, a, b);
  }

  // ---- the canonical query ----------------------------------------------------------------

  function CanonicalizeQuery(raw: Bytes): Option<Bytes> {
    var pairs := ParseQuery(raw);
    if pairs.None? then None else Some(Encode(Sort(PairLe, pairs.value)))
  }

  /** Canonicalising twice changes nothing. */
  lemma CanonicalizeIdempotent(raw: Bytes)
    requires CanonicalizeQuery(raw).Some?
    ensures CanonicalizeQuery(CanonicalizeQuery(raw).value) == CanonicalizeQuery(raw)
  {
    var sorted := Sort(PairLe, ParseQuery(raw).value);
    PairsSorted(ParseQuery(raw).value);
    ParseEncode(sorted);
    PairsSorted(sorted);
    SortedPairsEqual(Sort(PairLe, sorted), sorted);
  }

  /** Two queries have the same canonical form exactly if they decode to the same pairs, counted
      with repetition and in any order. */
  lemma CanonicalMeansSamePairs(q1: Bytes, q2: Bytes)
    requires ParseQuery(q1).Some? && ParseQuery(q2).Some?
    ensures CanonicalizeQuery(q1) == CanonicalizeQuery(q2) <==>
            multiset(ParseQuery(q1).value) == multiset(ParseQuery(q2).value)
  {
    var p1, p2 := ParseQuery(q1).value, ParseQuery(q2).value;
    PairsSorted(p1);
    PairsSorted(p2);
    if multiset(p1) == multiset(p2) {
      SortedPairsEqual(Sort(PairLe, p1), Sort(PairLe, p2));
    }
    if CanonicalizeQuery(q1) == CanonicalizeQuery(q2) {
      ParseEncode(Sort(PairLe, p1));
      ParseEncode(Sort(PairLe, p2));
    }
  }

  /** The canonical query lists the decoded pairs in ascending order of keys, then values. */
  lemma CanonicalIsSorted(raw: Bytes)
    requires CanonicalizeQuery(raw).Some?
    ensures var pairs := ParseQuery(CanonicalizeQuery(raw).value);
            && pairs.Some? && Sorted(PairLe, pairs.value) && multiset(pairs.value) == multiset(ParseQuery(raw).value)
            && CanonicalizeQuery(raw).value == Encode(pairs.value)
  {
    PairsSorted(ParseQuery(raw).value);
    ParseEncode(Sort(PairLe, ParseQuery(raw).value));
  }

  lemma {:induction false} SegmentsConcat(a: seq<Bytes>, b: seq<Bytes>)
    ensures ParseSegments(a + b) ==
            if ParseSegments(a).None? || ParseSegments(b).None? then None
            else Some(ParseSegments(a).value + ParseSegments(b).value)
  {
    if a == [] {
      assert a + b == b;
      if ParseSegments(b).Some? {
        assert [] + ParseSegments(b).value == ParseSegments(b).value;
      }
    } else {
      SegmentsConcat(a[1..], b);
      assert (a + b)[1..] == a[1..] + b;
      if ParseSegments(a + b).Some? {
        Associate(ParseSegment(a[0]).value, ParseSegments(a[1..]).value, ParseSegments(b).value);
      }
    }
  }

  /** Bringing one segment to the front changes neither success nor the decoded pairs. */
  lemma SegmentToFront(before: seq<Bytes>, x: Bytes, after: seq<Bytes>)
    ensures SamePairs(ParseSegments(before + [x] + after), ParseSegments([x] + (before + after)))
  {
    SegmentsConcat(before + [x], after);
    SegmentsConcat(before, [x]);
    SegmentsConcat([x], before + after);
    SegmentsConcat(before, after);
  }

  /** Both fail, or both give the same pairs in some order. */
  ghost predicate SamePairs(a: Option<seq<Pair>>, b: Option<seq<Pair>>) {
    a.None? == b.None? && (a.Some? ==> multiset(a.value) == multiset(b.value))
  }

  lemma SamePairsCons(x: Bytes, u: seq<Bytes>, v: seq<Bytes>)
    requires SamePairs(ParseSegments(u), ParseSegments(v))
    ensures SamePairs(ParseSegments([x] + u), ParseSegments([x] + v))
  {
    SegmentsConcat([x], u);
    SegmentsConcat([x], v);
  }

  lemma WithoutOne(a: seq<Bytes>, b: seq<Bytes>, j: nat)
    requires multiset(a) == multiset(b) && a != [] && j < |b| && b[j] == a[0]
    ensures multiset(a[1..]) == multiset(b[..j] + b[j + 1..])
    ensures a == [a[0]] + a[1..] && b == b[..j] + [a[0]] + b[j + 1..]
  {
    assert a == [a[0]] + a[1..];
    assert b == b[..j] + [a[0]] + b[j + 1..];
    assert multiset(a) == multiset{a[0]} + multiset(a[1..]);
    assert multiset(b) == multiset(b[..j]) + multiset{a[0]} + multiset(b[j + 1..]);
    assert multiset(b[..j] + b[j + 1..]) == multiset(b[..j]) + multiset(b[j + 1..]);
    assert multiset(b[..j] + b[j + 1..]) == multiset(b) - multiset{a[0]};
    assert multiset(a[1..]) == multiset(a) - multiset{a[0]};
  }

  lemma {:induction false} SegmentsReordered(a: seq<Bytes>, b: seq<Bytes>)
    requires multiset(a) == multiset(b)
    ensures SamePairs(ParseSegments(a), ParseSegments(b))
  {
    assert |multiset(a)| == |a| && |multiset(b)| == |b|;
    if a != [] {
      assert a[0] in multiset(b);
      var j :| 0 <= j < |b| && b[j] == a[0];
      WithoutOne(a, b, j);
      SegmentsReordered(a[1..], b[..j] + b[j + 1..]);
      SegmentToFront(b[..j], a[0], b[j + 1..]);
      SamePairsCons(a[0], a[1..], b[..j] + b[j + 1..]);
    }
  }

  /** The order of the parameters in the query string never matters, failures included. */
  lemma CanonicalReordered(q1: Bytes, q2: Bytes)
    requires multiset(Split<Byte>('&', q1)) == multiset(Split<Byte>('&', q2))
    ensures CanonicalizeQuery(q1) == CanonicalizeQuery(q2)
  {
    SegmentsReordered(Split<Byte>('&', q1), Split<Byte>('&', q2));
    if ParseQuery(q1).Some? {
      PairsSorted(ParseQuery(q1).value);
      PairsSorted(ParseQuery(q2).value);
      SortedPairsEqual(Sort(PairLe, ParseQuery(q1).value), Sort(PairLe, ParseQuery(q2).value));
    }
  }

  lemma {:induction false} JoinPlain(sep: Byte, parts: seq<Bytes>, c: Byte)
    requires c != sep && forall p :: p in parts ==> c !in p
    ensures c !in Join<Byte>(sep, parts)
  {
    if |parts| > 1 {
      JoinPlain(sep, parts[1..], c);
    }
  }

  lemma CanonicalHasNoNewline(raw: Bytes)
    requires CanonicalizeQuery(raw).Some?
    ensures '\n' !in CanonicalizeQuery(raw).value
  {
    var sorted := Sort(PairLe, ParseQuery(raw).value);
    forall p | p in Parts(sorted) ensures '\n' !in p {
      var i :| 0 <= i < |sorted| && p == EncodePair(sorted[i]);
      EncodedPairIsPlain(sorted[i]);
    }
    JoinPlain('&', Parts(sorted), '\n');
  }

  // ---- the canonical request --------------------------------------------------------------

  /** What the signature covers; `method` is already upper-cased. */
  datatype Signed = Signed(timestamp: Bytes, nonce: Bytes, keyId: Bytes, method_: Bytes, path: Bytes, rawQuery: Bytes, bodyHash: Bytes)

  /** Header values, method, escaped path and hex digest never contain a newline. */
  predicate OneLine(r: Signed) {
    '\n' !in r.timestamp && '\n' !in r.nonce && '\n' !in r.keyId && '\n' !in r.method_ && '\n' !in r.path && '\n' !in r.bodyHash
  }

  function Path(r: Signed): Bytes {
    if r.path == [] then ['/'] else r.path
  }

  function Fields(r: Signed, query: Bytes): seq<Bytes> {
    ["SPARKLE-AUTH-V2", r.timestamp, r.nonce, r.keyId, r.method_, Path(r), query, r.bodyHash]
  }

  /** buildCanonicalRequestV2 */
  function Canonical(r: Signed): Option<Bytes> {
    var query := CanonicalizeQuery(r.rawQuery);
    if query.None? then None else Some(Join<Byte>('\n', Fields(r, query.value)))
  }

  lemma FieldsPlain(r: Signed)
    requires OneLine(r) && CanonicalizeQuery(r.rawQuery).Some?
    ensures forall f :: f in Fields(r, CanonicalizeQuery(r.rawQuery).value) ==> '\n' !in f
  {
    CanonicalHasNoNewline(r.rawQuery);
  }

  /** The signed string, line by line; it exists exactly if the query can be parsed. */
  lemma CanonicalLines(r: Signed)
    requires OneLine(r)
    ensures Canonical(r).Some? <==> ParseQuery(r.rawQuery).Some?
    ensures Canonical(r).Some? ==>
              var lines := Split<Byte>('\n', Canonical(r).value);
              && |lines| == 8
              && lines[0] == "SPARKLE-AUTH-V2" && lines[1] == r.timestamp && lines[2] == r.nonce && lines[3] == r.keyId
              && lines[4] == r.method_ && lines[5] == (if r.path == [] then ['/'] else r.path)
              && CanonicalizeQuery(r.rawQuery) == Some(lines[6]) && lines[7] == r.bodyHash
  {
    if Canonical(r).Some? {
      FieldsPlain(r);
      SplitJoin<Byte>('\n', Fields(r, CanonicalizeQuery(r.rawQuery).value));
    }
  }

  /** Main result: equal canonical strings identify the same request - every signed field and the
      multiset of decoded query pairs - and only those. */
  lemma CanonicalIdentifiesRequest(r1: Signed, r2: Signed)
    requires OneLine(r1) && OneLine(r2) && Canonical(r1).Some? && Canonical(r2).Some?
    ensures Canonical(r1) == Canonical(r2) <==>
              && r1.timestamp == r2.timestamp && r1.nonce == r2.nonce && r1.keyId == r2.keyId
              && r1.method_ == r2.method_ && Path(r1) == Path(r2) && r1.bodyHash == r2.bodyHash
              && multiset(ParseQuery(r1.rawQuery).value) == multiset(ParseQuery(r2.rawQuery).value)
  {
    var q1, q2 := CanonicalizeQuery(r1.rawQuery).value, CanonicalizeQuery(r2.rawQuery).value;
    CanonicalMeansSamePairs(r1.rawQuery, r2.rawQuery);
    if Canonical(r1) == Canonical(r2) {
      FieldsPlain(r1);
      FieldsPlain(r2);
      SplitJoin<Byte>('\n', Fields(r1, q1));
      SplitJoin<Byte>('\n', Fields(r2, q2));
      var f1, f2 := Fields(r1, q1), Fields(r2, q2);
      assert f1 == f2;
      assert f1[1] == f2[1] && f1[2] == f2[2] && f1[3] == f2[3] && f1[4] == f2[4] && f1[5] == f2[5] && f1[6] == f2[6] && f1[7] == f2[7];
    }
  }

  // ---- the code of canonicalizeQuery ------------------------------------------------------

  /** The values of one key in order of appearance. */
  function ValuesOf(pairs: seq<Pair>, k: Bytes): seq<Bytes> {
    if pairs == [] then []
    else ValuesOf(pairs[..|pairs| - 1], k) +
         (if pairs[|pairs| - 1].key == k then [pairs[|pairs| - 1].value] else [])
  }

  function Tag(k: Bytes, values: seq<Bytes>): seq<Pair> {
    if values == [] then [] else Tag(k, values[..|values| - 1]) + [Pair(k, values[|values| - 1])]
  }

  lemma {:induction false} ValuesCount(pairs: seq<Pair>, p: Pair)
    ensures multiset(ValuesOf(pairs, p.key))[p.value] == multiset(pairs)[p]
  {
    if pairs != [] {
      ValuesCount(pairs[..|pairs| - 1], p);
      assert pairs == pairs[..|pairs| - 1] + [pairs[|pairs| - 1]];
    }
  }

  lemma {:induction false} TagCount(k: Bytes, values: seq<Bytes>, p: Pair)
    ensures multiset(Tag(k, values))[p] == if p.key == k then multiset(values)[p.value] else 0
  {
    if values != [] {
      TagCount(k, values[..|values| - 1], p);
      assert values == values[..|values| - 1] + [values[|values| - 1]];
    }
  }

  lemma {:induction false} TagElements(k: Bytes, values: seq<Bytes>)
    ensures |Tag(k, values)| == |values| && forall i :: 0 <= i < |values| ==> Tag(k, values)[i] == Pair(k, values[i])
  {
    if values != [] { TagElements(k, values[..|values| - 1]); }
  }

  ghost predicate GroupedBy(values: map<Bytes, seq<Bytes>>, pairs: seq<Pair>) {
    && (forall k :: k in values ==> values[k] == ValuesOf(pairs, k))
    && (forall p :: p in pairs ==> p.key in values)
  }

  /** `flat` holds exactly the pairs with a key in `done`. */
  ghost predicate Collected(flat: seq<Pair>, pairs: seq<Pair>, done: seq<Bytes>) {
    forall p: Pair :: multiset(flat)[p] == if p.key in done then multiset(pairs)[p] else 0
  }

  lemma CollectKey(flat: seq<Pair>, pairs: seq<Pair>, done: seq<Bytes>, k: Bytes, vals: seq<Bytes>)
    requires Collected(flat, pairs, done) && k !in done && multiset(vals) == multiset(ValuesOf(pairs, k))
    ensures Collected(flat + Tag(k, vals), pairs, done + [k])
  {
    forall p: Pair ensures multiset(flat + Tag(k, vals))[p] == if p.key in done + [k] then multiset(pairs)[p] else 0 {
      TagCount(k, vals, p);
      ValuesCount(pairs, p);
    }
  }

  lemma AppendGroupSorted(flat: seq<Pair>, k: Bytes, vals: seq<Bytes>)
    requires Sorted(PairLe, flat) && Sorted(Le, vals)
    requires forall p :: p in flat ==> p.key != k && Le(p.key, k)
    ensures Sorted(PairLe, flat + Tag(k, vals))
  {
    TagElements(k, vals);
    var all, tagged := flat + Tag(k, vals), Tag(k, vals);
    forall i, j | 0 <= i < j < |all| ensures PairLe(all[i], all[j]) {
      if i < |flat| <= j {
        assert flat[i] in flat;
        assert all[j] == tagged[j - |flat|];
      } else if |flat| <= i {
        assert all[i] == tagged[i - |flat|] && all[j] == tagged[j - |flat|];
      }
    }
  }

  ghost predicate Grouped(flat: seq<Pair>, pairs: seq<Pair>, done: seq<Bytes>) {
    Sorted(PairLe, flat) && Collected(flat, pairs, done) && forall p :: p in flat ==> p.key in done
  }

  lemma GroupStep(flat: seq<Pair>, pairs: seq<Pair>, keys: seq<Bytes>, n: nat, vals: seq<Bytes>)
    requires n < |keys| && Sorted(Le, keys) && Distinct(keys) && Grouped(flat, pairs, keys[..n])
    requires Sorted(Le, vals) && multiset(vals) == multiset(ValuesOf(pairs, keys[n]))
    ensures Grouped(flat + Tag(keys[n], vals), pairs, keys[..n + 1])
  {
    assert keys[..n + 1] == keys[..n] + [keys[n]];
    CollectKey(flat, pairs, keys[..n], keys[n], vals);
    AppendGroupSorted(flat, keys[n], vals);
    TagElements(keys[n], vals);
  }

  lemma AllGrouped(flat: seq<Pair>, pairs: seq<Pair>, keys: seq<Bytes>)
    requires Grouped(flat, pairs, keys) && forall p :: p in pairs ==> p.key in keys
    ensures flat == Sort(PairLe, pairs)
  {
    forall p: Pair ensures multiset(flat)[p] == multiset(pairs)[p] {
      if p.key !in keys { assert p !in multiset(pairs); }
    }
    PairsSorted(pairs);
    SortedPairsEqual(flat, Sort(PairLe, pairs));
  }

  method GroupValues(pairs: seq<Pair>) returns (values: map<Bytes, seq<Bytes>>)
    ensures GroupedBy(values, pairs)
    ensures forall k :: k in values ==> exists p :: p in pairs && p.key == k
  {
    values := map[];
    for n := 0 to |pairs|
      invariant GroupedBy(values, pairs[..n])
      invariant forall k :: k in values ==> exists p :: p in pairs[..n] && p.key == k
    {
      var p := pairs[n];
      assert pairs[..n + 1] == pairs[..n] + [p];
      assert pairs[..n + 1][..n] == pairs[..n];
      if p.key !in values {
        NoValues(pairs[..n], p.key);
      }
      values := values[p.key := (if p.key in values then values[p.key] else []) + [p.value]];
      forall k | k in values ensures exists q :: q in pairs[..n + 1] && q.key == k {
        if k == p.key {
          assert p in pairs[..n + 1];
        }
      }
    }
    assert pairs[..|pairs|] == pairs;
  }

  lemma {:induction false} NoValues(pairs: seq<Pair>, k: Bytes)
    requires forall p :: p in pairs ==> p.key != k
    ensures ValuesOf(pairs, k) == []
  {
    if pairs != [] { NoValues(pairs[..|pairs| - 1], k); }
  }

  /** The keys of a map, in no particular order. */
  method ListKeys(values: map<Bytes, seq<Bytes>>) returns (keys: seq<Bytes>)
    ensures forall k :: k in keys <==> k in values
    ensures forall i, j :: 0 <= i < j < |keys| ==> keys[i] != keys[j]
  {
    keys := [];
    var left := values.Keys;
    while left != {}
      invariant left <= values.Keys
      invariant forall k :: k in keys <==> k in values.Keys - left
      invariant forall i, j :: 0 <= i < j < |keys| ==> keys[i] != keys[j]
      decreases |left|
    {
      var k :| k in left;
      assert k !in keys;
      keys := keys + [k];
      left := left - {k};
    }
  }

  ghost predicate Distinct(keys: seq<Bytes>) {
    forall i, j :: 0 <= i < j < |keys| ==> keys[i] != keys[j]
  }

  lemma PermutationDistinct(a: seq<Bytes>, b: seq<Bytes>)
    requires Distinct(a) && multiset(a) == multiset(b)
    ensures Distinct(b)
    ensures forall k :: k in a <==> k in b
  {
    forall k ensures k in a <==> k in b { assert k in multiset(a) <==> k in multiset(b); }
    forall i, j | 0 <= i < j < |b| ensures b[i] != b[j] {
      CountedOnce(a, b[j]);
      assert b == b[..j] + [b[j]] + b[j + 1..];
      assert b[..j][i] == b[i];
    }
  }

  /** Sorting distinct keys keeps them distinct and complete. */
  lemma SortedKeys(keys: seq<Bytes>)
    requires Distinct(keys)
    ensures Sorted(Le, Sort(Le, keys)) && Distinct(Sort(Le, keys))
    ensures forall k :: k in Sort(Le, keys) <==> k in keys
  {
    BytesSorted(keys);
    PermutationDistinct(keys, Sort(Le, keys));
  }

  lemma {:induction false} CountedOnce(keys: seq<Bytes>, k: Bytes)
    requires Distinct(keys)
    ensures multiset(keys)[k] <= 1
  {
    if keys != [] {
      CountedOnce(keys[..|keys| - 1], k);
      assert keys == keys[..|keys| - 1] + [keys[|keys| - 1]];
      assert k == keys[|keys| - 1] ==> k !in keys[..|keys| - 1];
    }
  }

  /** Grouping by key, sorting the keys and then the values of each key gives the sorted pairs. */
  method CollectParts(pairs: seq<Pair>) returns (parts: seq<Bytes>)
    ensures parts == Parts(Sort(PairLe, pairs))
  {
    var values := GroupValues(pairs);
    var keys := ListKeys(values);
    SortedKeys(keys);
    keys := Sort(Le, keys);
    ghost var flat: seq<Pair> := [];
    parts := [];
    for n := 0 to |keys|
      invariant parts == Parts(flat) && Grouped(flat, pairs, keys[..n])
    {
      var vals := Sort(Le, values[keys[n]]);
      BytesSorted(values[keys[n]]);
      GroupStep(flat, pairs, keys, n, vals);
      parts := AppendParts(parts, keys[n], vals, flat);
      flat := flat + Tag(keys[n], vals);
    }
    assert keys[..|keys|] == keys;
    AllGrouped(flat, pairs, keys);
  }

  method AppendParts(parts: seq<Bytes>, k: Bytes, vals: seq<Bytes>, ghost flat: seq<Pair>) returns (r: seq<Bytes>)
    requires parts == Parts(flat)
    ensures r == Parts(flat + Tag(k, vals))
  {
    TagElements(k, vals);
    ghost var tagged := Tag(k, vals);
    r := parts;
    assert flat + tagged[..0] == flat;
    for i := 0 to |vals|
      invariant r == Parts(flat + tagged[..i])
    {
      PartsSnoc(flat + tagged[..i], Pair(k, vals[i]));
      assert flat + tagged[..i + 1] == flat + tagged[..i] + [Pair(k, vals[i])];
      r := r + [Escape(k) + ['='] + Escape(vals[i])];
    }
    assert tagged[..|vals|] == tagged;
  }

  lemma PartsSnoc(pairs: seq<Pair>, p: Pair)
    ensures Parts(pairs + [p]) == Parts(pairs) + [EncodePair(p)]
  {
  }

  method CanonicalizeQueryCode(raw: Bytes) returns (r: Option<Bytes>)
    ensures r == CanonicalizeQuery(raw)
  {
    if raw == [] {
      ParseEncode([]);
      assert Encode([]) == [];
      return Some([]);
    }
    var pairs := ParseQuery(raw);
    if pairs.None? {
      return None;
    }
    var parts := CollectParts(pairs.value);
    r := Some(Join<Byte>('&', parts));
  }
}
