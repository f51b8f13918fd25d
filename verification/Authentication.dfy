/** Admission of signed requests (route/auth/middleware.go, route/auth/auth.go): timestamp window,
    key id check and replay check together.  Hashing and signature verification are foreign; their
    outcomes are parameters. */
module Authentication {
  import opened Runs
  import opened NonceStore
  import opened Text

  const Millisecond: int := 1_000_000
  const MaxDrift: int := 30 * 1000 * Millisecond

  // ---- header fields ----------------------------------------------------------------------

  /** strconv.ParseInt(s, 10, 64) */
  function ParseInt64(s: string): Option<int> {
    if s == "" then None
    else
      var negative := s[0] == '-';
      var digits := if s[0] == '-' || s[0] == '+' then s[1..] else s;
      var n := DigitsValue(digits);
      if digits == "" || n.None? then None
      else
        var magnitude: int := n.value;
        var value := if negative then -magnitude else magnitude;
        if -0x8000_0000_0000_0000 <= value < 0x8000_0000_0000_0000 then Some(value) else None
  }

  const Int64Bound: int := 0x8000_0000_0000_0000

  /** The value of a timestamp: what its decimal digits and sign say, within 64 bits. */
  lemma ParsesDecimal(n: int)
    requires n >= 0
    ensures ParseInt64(Decimal(n)) == ParseInt64(['+'] + Decimal(n)) == (if n < Int64Bound then Some(n) else None)
    ensures ParseInt64(['-'] + Decimal(n)) == (if n <= Int64Bound then Some(-n) else None)
  {
    DecimalReads(n);
    OnlyDigits(Decimal(n));
    assert Decimal(n)[0] in Decimal(n);
    Unsigned(Decimal(n), n);
    Signed(Decimal(n), n);
  }

  lemma Unsigned(digits: string, n: int)
    requires digits != "" && Digit(digits[0]) && DigitsValue(digits).Some? && DigitsValue(digits).value == n
    ensures ParseInt64(digits) == (if n < Int64Bound then Some(n) else None)
  {
  }

  lemma Signed(digits: string, n: int)
    requires digits != "" && DigitsValue(digits).Some? && DigitsValue(digits).value == n
    ensures ParseInt64(['+'] + digits) == (if n < Int64Bound then Some(n) else None)
    ensures ParseInt64(['-'] + digits) == (if n <= Int64Bound then Some(-n) else None)
  {
    assert (['+'] + digits)[1..] == digits && (['-'] + digits)[1..] == digits;
  }

  /** Which timestamps are refused for their form: anything but digits after an optional sign. */
  lemma ParsesOnlyDigits(s: string)
    ensures var digits := if s != "" && (s[0] == '-' || s[0] == '+') then s[1..] else s;
            ParseInt64(s).Some? <==>
            && digits != "" && (forall c :: c in digits ==> Digit(c))
            && DigitsValue(digits).Some?
            && (if s[0] == '-' then DigitsValue(digits).value <= Int64Bound else DigitsValue(digits).value < Int64Bound)
  {
    var digits := if s != "" && (s[0] == '-' || s[0] == '+') then s[1..] else s;
    if DigitsValue(digits).Some? {
      OnlyDigits(digits);
    }
  }

  predicate KeyChar(c: char) {
    'a' <= c <= 'z' || 'A' <= c <= 'Z' || '0' <= c <= '9' || c == '-' || c == '_' || c == '.'
  }

  /** Key ids are ASCII once accepted, so characters and bytes count alike. */
  function ValidateKeyId(keyId: string): Option<string> {
    var trimmed := TrimSpace(keyId);
    if trimmed == "" || |trimmed| > 128 || exists c :: c in trimmed && !KeyChar(c) then None else Some(trimmed)
  }

  /** Which key ids are accepted: 1 to 128 letters, digits, `-`, `_` or `.`, white space around them
      not counting. */
  lemma KeyIdsAccepted(before: string, id: string, after: string)
    requires forall c :: c in before || c in after ==> Space(c)
    requires id != "" && !Space(id[0]) && !Space(id[|id| - 1])
    ensures ValidateKeyId(before + id + after) ==
            if |id| <= 128 && (forall c :: c in id ==> KeyCode(c as int)) then Some(id) else None
  {
    TrimsTo(before, id, after);
    forall c: char ensures KeyChar(c) <==> KeyCode(c as int) {
    }
  }

  predicate KeyCode(n: int) {
    48 <= n <= 57 || 65 <= n <= 90 || 97 <= n <= 122 || n == 45 || n == 46 || n == 95
  }

  lemma {:induction false} TrimsTo(before: string, id: string, after: string)
    requires forall c :: c in before || c in after ==> Space(c)
    requires id != "" && !Space(id[0]) && !Space(id[|id| - 1])
    ensures TrimSpace(before + id + after) == id
    decreases |before| + |after|
  {
    var s := before + id + after;
    if before != "" {
      TrimsTo(before[1..], id, after);
      assert s[1..] == before[1..] + id + after;
      assert s[0] == before[0] && before[0] in before;
    } else if after != "" {
      TrimsTo(before, id, after[..|after| - 1]);
      assert s[..|s| - 1] == before + id + after[..|after| - 1];
      assert after[|after| - 1] in after && s[0] == id[0] && s[|s| - 1] == after[|after| - 1];
    } else {
      assert s == id;
    }
  }

  lemma TimestampHasNoColon(s: string)
    requires ParseInt64(s).Some?
    ensures ':' !in s
  {
    var digits := if s[0] == '-' || s[0] == '+' then s[1..] else s;
    OnlyDigits(digits);
    assert !Digit(':');
    assert s == [s[0]] + s[1..];
  }

  lemma {:induction false} TrimmedColon(s: string)
    requires ':' in s
    ensures ':' in TrimSpace(s)
    decreases |s|
  {
    if Space(s[0]) {
      assert s == [s[0]] + s[1..];
      TrimmedColon(s[1..]);
    } else if Space(s[|s| - 1]) {
      assert s == s[..|s| - 1] + [s[|s| - 1]];
      TrimmedColon(s[..|s| - 1]);
    }
  }

  lemma KeyIdHasNoColon(keyId: string)
    requires ValidateKeyId(keyId).Some?
    ensures ':' !in keyId
  {
    if ':' in keyId {
      TrimmedColon(keyId);
    }
  }

  // ---- the joined nonce key ---------------------------------------------------------------

  function NonceKey(keyId: string, timestamp: string, nonce: string): string {
    keyId + ":" + timestamp + ":" + nonce
  }

  lemma {:induction false} CutAtColon(a: string, x: string, b: string, y: string)
    requires ':' !in a && ':' !in b && a + ":" + x == b + ":" + y
    ensures a == b && x == y
  {
    var s, t := a + ":" + x, b + ":" + y;
    assert s[|a|] == ':' && t[|b|] == ':';
    assert forall i :: 0 <= i < |a| ==> s[i] == a[i] && a[i] in a;
    assert forall i :: 0 <= i < |b| ==> t[i] == b[i] && b[i] in b;
    assert |a| == |b|;
    assert a == s[..|a|] && b == t[..|b|];
    assert x == s[|a| + 1..] && y == t[|b| + 1..];
  }

  /** The joined key stands for exactly one (key id, timestamp, nonce). */
  lemma NonceKeyInjective(k1: string, t1: string, n1: string, k2: string, t2: string, n2: string)
    requires ValidateKeyId(k1).Some? && ValidateKeyId(k2).Some?
    requires ParseInt64(t1).Some? && ParseInt64(t2).Some?
    requires NonceKey(k1, t1, n1) == NonceKey(k2, t2, n2)
    ensures k1 == k2 && t1 == t2 && n1 == n2
  {
    KeyIdHasNoColon(k1);
    KeyIdHasNoColon(k2);
    TimestampHasNoColon(t1);
    TimestampHasNoColon(t2);
    assert NonceKey(k1, t1, n1) == k1 + ":" + (t1 + ":" + n1);
    assert NonceKey(k2, t2, n2) == k2 + ":" + (t2 + ":" + n2);
    CutAtColon(k1, t1 + ":" + n1, k2, t2 + ":" + n2);
    CutAtColon(t1, n1, t2, n2);
  }

  // ---- admission --------------------------------------------------------------------------

  datatype Headers = Headers(timestamp: string, keyId: string, nonce: string, contentHash: string, signature: string)

  datatype Outcome =
    | Incomplete | BadTimestamp | Expired | UnreadableBody | BodyMismatch | BadQuery | BadSignature | Replayed | Accepted

  /** Outcomes of the foreign parts: the hash of the request body if it could be read, whether the
      query could be canonicalised, and whether the signature verifies under the named key. */
  datatype Checks = Checks(bodyHash: Option<string>, canonical: bool, signature: bool)

  /** One reading of the clock: the window is about wall time, the nonce store compares monotonic
      readings, and the wall clock may be set. */
  datatype Instant = Instant(wall: int, mono: int)

  predicate InWindow(ts: int, wall: int) {
    -MaxDrift <= wall - ts * Millisecond <= MaxDrift
  }

  /** Thirty seconds either way, both ends included; instants count nanoseconds, timestamps
      milliseconds. */
  lemma WindowIsThirtySeconds(ts: int, wall: int)
    ensures InWindow(ts, wall) <==> ts * 1_000_000 - 30_000_000_000 <= wall <= ts * 1_000_000 + 30_000_000_000
  {
  }

  /** One admitted request. */
  datatype Admission = Admission(h: Headers, at: Instant)

  predicate Admissible(a: Admission) {
    && ParseInt64(a.h.timestamp).Some? && ValidateKeyId(a.h.keyId).Some?
    && InWindow(ParseInt64(a.h.timestamp).value, a.at.wall)
  }

  ghost predicate Logged(log: seq<Admission>, history: seq<Acceptance>) {
    && |log| == |history|
    && (forall i :: 0 <= i < |log| ==>
          && Admissible(log[i])
          && history[i] == Acceptance(NonceKey(log[i].h.keyId, log[i].h.timestamp, log[i].h.nonce), log[i].at.mono))
  }

  /** Everything but the replay check is in order. */
  predicate Passes(h: Headers, checks: Checks, now: Instant) {
    && Admissible(Admission(h, now))
    && h.contentHash != "" && h.nonce != "" && h.signature != ""
    && checks.bodyHash == Some(h.contentHash) && checks.canonical && checks.signature
  }

  predicate Complete(h: Headers) {
    h.timestamp != "" && h.keyId != "" && h.nonce != "" && h.contentHash != "" && h.signature != ""
  }

  predicate Timed(h: Headers) {
    Complete(h) && ParseInt64(h.timestamp).Some?
  }

  predicate Current(h: Headers, now: Instant) {
    Timed(h) && InWindow(ParseInt64(h.timestamp).value, now.wall)
  }

  predicate SameRequest(g: Headers, h: Headers) {
    g.keyId == h.keyId && g.timestamp == h.timestamp && g.nonce == h.nonce
  }

  /** The same key id, timestamp and nonce were admitted less than two drifts ago. */
  ghost predicate Replays(log: seq<Admission>, h: Headers, mono: int) {
    exists i :: 0 <= i < |log| && log[i].at.mono + 2 * MaxDrift > mono && SameRequest(log[i].h, h)
  }

  class Authenticator {
    const store: Store
    ghost var log: seq<Admission>

    constructor ()
      ensures Valid() && log == [] && fresh(store) && store.ttl == 60_000_000_000
    {
      store := new Store(2 * MaxDrift);
      log := [];
    }

    ghost predicate Valid()
      reads this, store
    {
      store.Valid() && store.ttl == 2 * MaxDrift && Logged(log, store.history)
    }

    /** authenticateV2 with its checks in order; nothing is remembered unless all others passed. */
    method AuthenticateV2(h: Headers, checks: Checks, now: Instant) returns (outcome: Outcome)
      requires Valid() && (store.history == [] || store.clock <= now.mono)
      modifies this, store
      ensures Valid()
      ensures outcome.Accepted? <==> Passes(h, checks, now) && !Replays(old(log), h, now.mono)
      ensures outcome.Replayed? <==> Passes(h, checks, now) && Replays(old(log), h, now.mono)
      // The first check that fails decides the answer.
      ensures outcome.Incomplete? <==> !Complete(h)
      ensures outcome.BadTimestamp? <==> Complete(h) && ParseInt64(h.timestamp).None?
      ensures outcome.Expired? <==> Timed(h) && !InWindow(ParseInt64(h.timestamp).value, now.wall)
      ensures outcome.UnreadableBody? <==> Current(h, now) && checks.bodyHash.None?
      ensures outcome.BodyMismatch? <==> Current(h, now) && checks.bodyHash.Some? && checks.bodyHash.value != h.contentHash
      ensures outcome.BadQuery? <==> Current(h, now) && checks.bodyHash == Some(h.contentHash) && !checks.canonical
      ensures log == if outcome.Accepted? then old(log) + [Admission(h, now)] else old(log)
      ensures store.clock == if Passes(h, checks, now) then now.mono else old(store.clock)
    {
      if h.timestamp == "" || h.keyId == "" || h.nonce == "" || h.contentHash == "" || h.signature == "" {
        return Incomplete;
      }
      var ts := ParseInt64(h.timestamp);
      if ts.None? {
        return BadTimestamp;
      }
      var diff := now.wall - ts.value * Millisecond;
      if diff < -MaxDrift || diff > MaxDrift {
        return Expired;
      }
      if checks.bodyHash.None? {
        return UnreadableBody;
      }
      if checks.bodyHash.value != h.contentHash {
        return BodyMismatch;
      }
      if !checks.canonical {
        return BadQuery;
      }
      if ValidateKeyId(h.keyId).None? || !checks.signature {
        return BadSignature;
      }
      var remembered := Admit(h, now);
      outcome := if remembered then Accepted else Replayed;
    }

    /** The replay check, which remembers the request if it passes. */
    method Admit(h: Headers, now: Instant) returns (remembered: bool)
      requires Valid() && (store.history == [] || store.clock <= now.mono) && Admissible(Admission(h, now))
      modifies this, store
      ensures Valid()
      ensures remembered <==> !Replays(old(log), h, now.mono)
      ensures log == (if remembered then old(log) + [Admission(h, now)] else old(log)) && store.clock == now.mono
    {
      FreshMeansNoReplay(log, store.history, h, now.mono);
      remembered := store.Remember(NonceKey(h.keyId, h.timestamp, h.nonce), now.mono);
      if remembered {
        log := log + [Admission(h, now)];
      }
    }
  }

  /** The nonce store's answer is the answer about the request itself. */
  lemma FreshMeansNoReplay(log: seq<Admission>, history: seq<Acceptance>, h: Headers, mono: int)
    requires Logged(log, history) && ValidateKeyId(h.keyId).Some? && ParseInt64(h.timestamp).Some?
    ensures Fresh(history, 2 * MaxDrift, NonceKey(h.keyId, h.timestamp, h.nonce), mono) <==> !Replays(log, h, mono)
  {
    forall i | 0 <= i < |log|
      ensures history[i].key == NonceKey(h.keyId, h.timestamp, h.nonce) <==> SameRequest(log[i].h, h)
    {
      var g := log[i].h;
      assert Admissible(log[i]);
      if history[i].key == NonceKey(h.keyId, h.timestamp, h.nonce) {
        NonceKeyInjective(g.keyId, g.timestamp, g.nonce, h.keyId, h.timestamp, h.nonce);
      }
    }
  }

  /** How much the wall clock fell behind the monotonic one between two instants: zero unless it was
      set, positive if it was set back. */
  function SetBack(a: Instant, b: Instant): int {
    (b.mono - a.mono) - (b.wall - a.wall)
  }

  /** Main result over every history of admissions: unless the wall clock was set back in between,
      the same (key id, timestamp, nonce) is admitted a second time only if the two instants are
      exactly the two ends of its window; and it is not admitted a third time unless the wall clock
      was set back by at least the whole window. */
  lemma ReplayOnlyAtWindowEnds(log: seq<Admission>, history: seq<Acceptance>, i: nat, j: nat)
    requires Logged(log, history) && Spaced(history, 2 * MaxDrift)
    requires i < j < |log| && SameRequest(log[i].h, log[j].h)
    ensures SetBack(log[i].at, log[j].at) >= 0
    ensures SetBack(log[i].at, log[j].at) == 0 ==>
              var ts := ParseInt64(log[i].h.timestamp).value * Millisecond;
              log[i].at.wall == ts - MaxDrift && log[j].at.wall == ts + MaxDrift
    ensures forall k :: j < k < |log| && SameRequest(log[i].h, log[k].h) ==> SetBack(log[i].at, log[k].at) >= 2 * MaxDrift
  {
    assert Admissible(log[i]) && Admissible(log[j]);
    SpacedPairs(history, 2 * MaxDrift, i, j);
    forall k | j < k < |log| && SameRequest(log[i].h, log[k].h) ensures SetBack(log[i].at, log[k].at) >= 2 * MaxDrift {
      assert Admissible(log[k]);
      SpacedPairs(history, 2 * MaxDrift, j, k);
    }
  }

  /** Two acceptances of one key, at least a ttl apart. */
  lemma TwoSpaced(key: string, ttl: int, gap: int) returns (history: seq<Acceptance>)
    requires 0 <= ttl <= gap
    ensures history == [Acceptance(key, 0), Acceptance(key, gap)] && Spaced(history, ttl)
  {
    var first, second := Acceptance(key, 0), Acceptance(key, gap);
    SpacedSnoc([], ttl, first);
    assert [] + [first] == [first];
    SpacedSnoc([first], ttl, second);
    history := [first] + [second];
  }

  predicate AtWindowEnds(h: Headers, a: Instant, b: Instant)
    requires ParseInt64(h.timestamp).Some?
  {
    var ts := ParseInt64(h.timestamp).value * Millisecond;
    a.wall == ts - MaxDrift && b.wall == ts + MaxDrift
  }

  /** When to send a request twice if the wall clock is set back in between: at the start of its
      window, and as soon as the nonce store has forgotten it. */
  function ReplayInstants(h: Headers, back: int): (r: (Instant, Instant))
    requires ParseInt64(h.timestamp).Some?
    ensures SetBack(r.0, r.1) == back && r.1.mono - r.0.mono >= 2 * MaxDrift
    ensures back > 0 ==>
              && !AtWindowEnds(h, r.0, r.1)
              && InWindow(ParseInt64(h.timestamp).value, r.0.wall) && InWindow(ParseInt64(h.timestamp).value, r.1.wall)
  {
    var start := ParseInt64(h.timestamp).value * Millisecond - MaxDrift;
    var gap := if back > 2 * MaxDrift then back else 2 * MaxDrift;
    (Instant(start, 0), Instant(start + gap - back, gap))
  }

  /** A history with two admissions of `h` between which the wall clock was set back by `back`, not
      made at the two ends of the window. */
  ghost predicate ReplayedInside(h: Headers, back: int, log: seq<Admission>, history: seq<Acceptance>)
    requires ParseInt64(h.timestamp).Some?
  {
    && Logged(log, history) && Spaced(history, 2 * MaxDrift)
    && |log| == 2 && log[0].h == log[1].h == h
    && SetBack(log[0].at, log[1].at) == back && !AtWindowEnds(h, log[0].at, log[1].at)
  }

  lemma SetBackAllowsReplay(h: Headers, back: int) returns (log: seq<Admission>, history: seq<Acceptance>)
    requires ParseInt64(h.timestamp).Some? && ValidateKeyId(h.keyId).Some? && back > 0
    ensures ReplayedInside(h, back, log, history)
  {
    var (first, second) := ReplayInstants(h, back);
    log := [Admission(h, first), Admission(h, second)];
    history := TwoSpaced(NonceKey(h.keyId, h.timestamp, h.nonce), 2 * MaxDrift, second.mono);
    assert Admissible(log[0]) && Admissible(log[1]);
  }

  /** Exactly when a request can be admitted twice other than at the two ends of its window: if and
      only if the wall clock was set back in between, by whatever amount. */
  lemma ReplayInsideExactlyIf(h: Headers, back: int)
    requires ParseInt64(h.timestamp).Some? && ValidateKeyId(h.keyId).Some?
    ensures (exists log, history :: ReplayedInside(h, back, log, history)) <==> back > 0
  {
    if back > 0 {
      var log, history := SetBackAllowsReplay(h, back);
    }
    forall log, history | ReplayedInside(h, back, log, history) ensures back > 0 {
      ReplayOnlyAtWindowEnds(log, history, 0, 1);
    }
  }

  /** The same on the authenticator itself: any request that passes every other check is accepted a
      second time inside its window after any set-back of the wall clock. */
  method ReplayAfterSetBack(h: Headers, checks: Checks, back: int) returns (first: Outcome, second: Outcome)
    requires back > 0 && ParseInt64(h.timestamp).Some?
    requires Passes(h, checks, ReplayInstants(h, back).0)
    ensures first.Accepted? && second.Accepted?
    ensures !AtWindowEnds(h, ReplayInstants(h, back).0, ReplayInstants(h, back).1)
  {
    var (now, later) := ReplayInstants(h, back);
    var authenticator := new Authenticator();
    assert Passes(h, checks, later);
    first := authenticator.AuthenticateV2(h, checks, now);
    second := authenticator.AuthenticateV2(h, checks, later);
  }
}
