/** WebSocket frames (route/httphelper/websocket.go), sections 5.2 and 5.3 of RFC 6455. */
module WebSocket {
  import opened Runs

  type Bytes = seq<bv8>

  /** webSocketMaxPayload */
  const MaxPayload: nat := 0x10_0000

  // ---- network byte order -----------------------------------------------------------------

  function Pow256(w: nat): nat {
    if w == 0 then 1 else 256 * Pow256(w - 1)
  }

  function BigEndian(n: nat, w: nat): Bytes {
    if w == 0 then [] else BigEndian(n / 256, w - 1) + [(n % 256) as bv8]
  }

  function Value(bs: Bytes): nat {
    if bs == [] then 0 else Value(bs[..|bs| - 1]) * 256 + bs[|bs| - 1] as int
  }

  lemma {:induction false} ByteFor(n: nat) returns (b: bv8)
    requires n < 256
    ensures b as int == n
  {
    if n == 0 {
      b := 0;
    } else {
      var c := ByteFor(n - 1);
      NextByte(c);
      b := c + 1;
    }
  }

  lemma NextByte(c: bv8)
    requires c != 255
    ensures (c + 1) as int == c as int + 1
  {
  }

  lemma BackToByte(b: bv8)
    ensures ((b as int) as bv8) == b
  {
  }

  lemma ByteRoundTrip(n: nat)
    requires n < 256
    ensures (n as bv8) as int == n
  {
    var b := ByteFor(n);
    BackToByte(b);
  }

  lemma {:induction false} ValueOfBigEndian(n: nat, w: nat)
    requires n < Pow256(w)
    ensures |BigEndian(n, w)| == w && Value(BigEndian(n, w)) == n
    decreases w
  {
    if w > 0 {
      ValueOfBigEndian(n / 256, w - 1);
      ByteRoundTrip(n % 256);
      assert BigEndian(n, w)[..w - 1] == BigEndian(n / 256, w - 1);
    }
  }

  lemma {:induction false} BigEndianOfValue(bs: Bytes)
    ensures Value(bs) < Pow256(|bs|) && BigEndian(Value(bs), |bs|) == bs
  {
    if bs != [] {
      var front, last := bs[..|bs| - 1], bs[|bs| - 1];
      BigEndianOfValue(front);
      assert Value(bs) / 256 == Value(front) && Value(bs) % 256 == last as int;
      assert ((last as int) as bv8) == last;
      assert bs == front + [last];
    }
  }

  lemma Widths()
    ensures Pow256(2) == 0x1_0000 && Pow256(8) == 0x1_0000_0000_0000_0000
  {
    assert Pow256(1) == 256 && Pow256(2) == 256 * 256;
    assert Pow256(3) == 256 * Pow256(2) && Pow256(4) == 256 * Pow256(3) && Pow256(5) == 256 * Pow256(4);
    assert Pow256(6) == 256 * Pow256(5) && Pow256(7) == 256 * Pow256(6) && Pow256(8) == 256 * Pow256(7);
  }

  // ---- frames as section 5.2 defines them -------------------------------------------------

  /** The three ways to write a payload length. */
  datatype Form = Short | Medium | Long

  predicate Fits(form: Form, n: nat) {
    match form
    case Short => n <= 125
    case Medium => n < 0x1_0000
    case Long => n < 0x1_0000_0000_0000_0000
  }

  /** Second header byte and extended length; `mask` is the mask bit, 0x80 or 0. */
  function LengthBytes(form: Form, n: nat, mask: bv8): Bytes
    requires Fits(form, n)
  {
    match form
    case Short => [mask | (n as bv8)]
    case Medium => [mask | 126] + BigEndian(n, 2)
    case Long => [mask | 127] + BigEndian(n, 8)
  }

  /** Section 5.3. */
  function Mask(payload: Bytes, key: Bytes): Bytes
    requires |key| == 4
  {
    seq(|payload|, i requires 0 <= i < |payload| => payload[i] ^ key[i % 4])
  }

  /** Masking twice with the same key gives the payload back. */
  lemma MaskIsInvolution(payload: Bytes, key: Bytes)
    requires |key| == 4
    ensures Mask(Mask(payload, key), key) == payload
  {
    forall i | 0 <= i < |payload| ensures (payload[i] ^ key[i % 4]) ^ key[i % 4] == payload[i] {
      XorTwice(payload[i], key[i % 4]);
    }
  }

  lemma XorTwice(b: bv8, k: bv8)
    ensures (b ^ k) ^ k == b
  {
  }

  /** A final client frame: `first` carries the FIN bit, reserved bits and opcode. */
  function ClientFrame(first: bv8, form: Form, key: Bytes, payload: Bytes): Bytes
    requires |key| == 4 && Fits(form, |payload|)
  {
    [first] + LengthBytes(form, |payload|, 0x80) + key + Mask(payload, key)
  }

  // ---- what ReadWebSocketFrame does to a stream -------------------------------------------

  datatype ReadResult =
    | Frame(opcode: bv8, payload: Bytes, rest: Bytes)
    | ShortRead | Fragmented | Unmasked | TooLarge

  /** The stream after the two header bytes, with the payload length. */
  datatype Sized = Sized(n: nat, rest: Bytes) | NoLength

  function ReadLength(len7: bv8, s: Bytes): Sized {
    if len7 == 126 then (if |s| < 2 then NoLength else Sized(Value(s[..2]), s[2..]))
    else if len7 == 127 then (if |s| < 8 then NoLength else Sized(Value(s[..8]), s[8..]))
    else Sized(len7 as int, s)
  }

  /** Key and payload, once the length is known. */
  function ReadBody(first: bv8, sized: Sized): ReadResult {
    if sized.NoLength? then ShortRead
    else if sized.n > MaxPayload then TooLarge
    else if |sized.rest| < 4 + sized.n then ShortRead
    else Frame(first & 0x0f, Mask(sized.rest[4..4 + sized.n], sized.rest[..4]), sized.rest[4 + sized.n..])
  }

  function Read(s: Bytes): ReadResult {
    if |s| < 2 then ShortRead
    else if s[0] & 0x80 == 0 then Fragmented
    else if s[1] & 0x80 == 0 then Unmasked
    else ReadBody(s[0], ReadLength(s[1] & 0x7f, s[2..]))
  }

  lemma BodyReads(first: bv8, key: Bytes, payload: Bytes, rest: Bytes)
    requires |key| == 4
    ensures |payload| <= MaxPayload ==>
              ReadBody(first, Sized(|payload|, key + Mask(payload, key) + rest)) == Frame(first & 0x0f, payload, rest)
  {
    var tail := key + Mask(payload, key) + rest;
    assert tail[..4] == key && tail[4..4 + |payload|] == Mask(payload, key) && tail[4 + |payload|..] == rest;
    MaskIsInvolution(payload, key);
  }

  lemma BodyIsMasked(first: bv8, sized: Sized)
    requires ReadBody(first, sized).Frame?
    ensures var f := ReadBody(first, sized);
            && |f.payload| == sized.n <= MaxPayload && f.opcode == first & 0x0f
            && |sized.rest| >= 4
            && sized.rest == sized.rest[..4] + Mask(f.payload, sized.rest[..4]) + f.rest
  {
    var key, masked := sized.rest[..4], sized.rest[4..4 + sized.n];
    MaskIsInvolution(masked, key);
  }

  lemma ShortHeader(n: nat)
    requires n <= 125
    ensures (0x80 | (n as bv8)) & 0x80 != 0
    ensures (0x80 | (n as bv8)) & 0x7f == n as bv8 && n as bv8 != 126 && n as bv8 != 127
    ensures (n as bv8) as int == n
    ensures (0 | (n as bv8)) & 0x80 == 0 && (0 | (n as bv8)) & 0x7f == n as bv8
  {
    ByteRoundTrip(n);
    var b := n as bv8;
    assert b <= 125;
    SmallByte(b);
  }

  lemma SmallByte(b: bv8)
    requires b <= 125
    ensures (0x80 | b) & 0x80 != 0 && (0x80 | b) & 0x7f == b && b != 126 && b != 127
    ensures (0 | b) & 0x80 == 0 && (0 | b) & 0x7f == b
  {
  }

  /** The length field of a frame reads back in every form. */
  lemma LengthReads(form: Form, n: nat, mask: bv8, tail: Bytes)
    requires Fits(form, n) && (mask == 0x80 || mask == 0)
    ensures var bytes := LengthBytes(form, n, mask);
            && (bytes[0] & 0x80 != 0 <==> mask == 0x80)
            && ReadLength(bytes[0] & 0x7f, bytes[1..] + tail) == Sized(n, tail)
  {
    var bytes := LengthBytes(form, n, mask);
    var s := bytes[1..] + tail;
    match form
    case Short =>
      ShortHeader(n);
      assert s == tail;
    case Medium =>
      Widths();
      ValueOfBigEndian(n, 2);
      assert bytes[1..] == BigEndian(n, 2) && s[..2] == BigEndian(n, 2) && s[2..] == tail;
    case Long =>
      Widths();
      ValueOfBigEndian(n, 8);
      assert bytes[1..] == BigEndian(n, 8) && s[..8] == BigEndian(n, 8) && s[8..] == tail;
  }

  lemma FramedReads(first: bv8, bytes: Bytes, key: Bytes, payload: Bytes, rest: Bytes)
    requires bytes != [] && first & 0x80 != 0 && bytes[0] & 0x80 != 0 && |key| == 4
    requires var tail := key + Mask(payload, key) + rest;
             ReadLength(bytes[0] & 0x7f, bytes[1..] + tail) == Sized(|payload|, tail)
    ensures Read([first] + bytes + key + Mask(payload, key) + rest) ==
            if |payload| <= MaxPayload then Frame(first & 0x0f, payload, rest) else TooLarge
  {
    var tail := key + Mask(payload, key) + rest;
    var s := [first] + bytes + key + Mask(payload, key) + rest;
    Group(first, bytes, key, Mask(payload, key), rest);
    HeaderOf(first, bytes, tail, s);
    BodyReads(first, key, payload, rest);
  }

  lemma Group(first: bv8, bytes: Bytes, key: Bytes, masked: Bytes, rest: Bytes)
    ensures [first] + bytes + key + masked + rest == [first] + bytes + (key + masked + rest)
  {
  }

  /** Main result, one direction: every final masked frame of admissible size, in any length form
      and with anything after it, is read as its opcode and unmasked payload, consuming exactly
      that frame; a larger one is refused. */
  lemma ReadsEveryClientFrame(first: bv8, form: Form, key: Bytes, payload: Bytes, rest: Bytes)
    requires |key| == 4 && Fits(form, |payload|) && first & 0x80 != 0
    ensures |payload| <= 0x10_0000 ==>
              Read(ClientFrame(first, form, key, payload) + rest) == Frame(first & 0x0f, payload, rest)
    ensures |payload| > 0x10_0000 ==> Read(ClientFrame(first, form, key, payload) + rest) == TooLarge
  {
    LengthReads(form, |payload|, 0x80, key + Mask(payload, key) + rest);
    FramedReads(first, LengthBytes(form, |payload|, 0x80), key, payload, rest);
  }

  /** What is refused at once: a frame that is not final, and one that is not masked. */
  lemma ReadRefuses(s: Bytes)
    requires |s| >= 2
    ensures s[0] < 0x80 <==> Read(s) == Fragmented
    ensures s[0] >= 0x80 && s[1] < 0x80 <==> Read(s) == Unmasked
  {
    HighBit(s[0]);
    HighBit(s[1]);
  }

  lemma HighBit(b: bv8)
    ensures b & 0x80 == 0 <==> b < 0x80
  {
  }

  /** The extended length is announced before it is read. */
  lemma LengthAnnounced(form: Form, n: nat)
    requires Fits(form, n)
    ensures var bytes := LengthBytes(form, n, 0x80);
            && bytes[0] & 0x80 != 0
            && |bytes| == (match form case Short => 1 case Medium => 3 case Long => 9)
            && (form.Medium? ==> bytes[0] & 0x7f == 126) && (form.Long? ==> bytes[0] & 0x7f == 127)
  {
    LengthReads(form, n, 0x80, []);
    Widths();
    if form.Medium? { ValueOfBigEndian(n, 2); }
    if form.Long? { ValueOfBigEndian(n, 8); }
  }

  /** A frame that has not arrived completely is never taken for one: every proper prefix of a
      readable frame is a short read. */
  lemma PrefixIsShort(first: bv8, form: Form, key: Bytes, payload: Bytes, n: nat)
    requires |key| == 4 && Fits(form, |payload|) && first & 0x80 != 0 && |payload| <= MaxPayload
    requires n < |ClientFrame(first, form, key, payload)|
    ensures Read(ClientFrame(first, form, key, payload)[..n]) == ShortRead
  {
    var bytes, body := LengthBytes(form, |payload|, 0x80), key + Mask(payload, key);
    LengthAnnounced(form, |payload|);
    FrameParts(first, bytes, key, Mask(payload, key));
    if n < 1 + |bytes| {
      CutInHeader(first, bytes, body, n);
    } else {
      var tail := body[..n - 1 - |bytes|];
      assert ([first] + bytes + body)[..n] == [first] + bytes + tail;
      LengthReads(form, |payload|, 0x80, tail);
      CutInBody(first, bytes, tail, |payload|);
    }
  }

  lemma CutInHeader(first: bv8, bytes: Bytes, body: Bytes, n: nat)
    requires bytes != [] && first & 0x80 != 0 && n < 1 + |bytes| && bytes[0] & 0x80 != 0
    requires |bytes| == 1 || (|bytes| == 3 && bytes[0] & 0x7f == 126) || (|bytes| == 9 && bytes[0] & 0x7f == 127)
    ensures Read(([first] + bytes + body)[..n]) == ShortRead
  {
    var s := ([first] + bytes + body)[..n];
    if n >= 2 {
      assert s[0] == first && s[1] == bytes[0] && |s[2..]| < |bytes| - 1;
    }
  }

  lemma CutInBody(first: bv8, bytes: Bytes, tail: Bytes, n: nat)
    requires bytes != [] && first & 0x80 != 0 && bytes[0] & 0x80 != 0
    requires ReadLength(bytes[0] & 0x7f, bytes[1..] + tail) == Sized(n, tail) && |tail| < 4 + n && n <= MaxPayload
    ensures Read([first] + bytes + tail) == ShortRead
  {
    HeaderOf(first, bytes, tail, [first] + bytes + tail);
  }

  lemma FrameParts(first: bv8, bytes: Bytes, key: Bytes, masked: Bytes)
    ensures [first] + bytes + key + masked == [first] + bytes + (key + masked)
  {
  }

  lemma HeaderOf(first: bv8, bytes: Bytes, tail: Bytes, s: Bytes)
    requires bytes != [] && s == [first] + bytes + tail
    ensures |s| >= 2 && s[0] == first && s[1] == bytes[0] && s[2..] == bytes[1..] + tail
  {
  }

  /** The length form a second header byte announces. */
  function FormOf(len7: bv8): Form {
    if len7 == 126 then Medium else if len7 == 127 then Long else Short
  }

  lemma LengthIsEncoded(second: bv8, s: Bytes)
    requires second & 0x80 != 0 && ReadLength(second & 0x7f, s).Sized?
    ensures Fits(FormOf(second & 0x7f), ReadLength(second & 0x7f, s).n)
    ensures [second] + s == LengthBytes(FormOf(second & 0x7f), ReadLength(second & 0x7f, s).n, 0x80) + ReadLength(second & 0x7f, s).rest
  {
    var len7 := second & 0x7f;
    TopBit(second);
    if len7 == 126 {
      ExtendedIsEncoded(s, 2);
    } else if len7 == 127 {
      ExtendedIsEncoded(s, 8);
    } else {
      SevenBits(second);
      BackToByte(len7);
    }
  }

  lemma ExtendedIsEncoded(s: Bytes, w: nat)
    requires |s| >= w && (w == 2 || w == 8)
    ensures Value(s[..w]) < if w == 2 then 0x1_0000 else 0x1_0000_0000_0000_0000
    ensures s == BigEndian(Value(s[..w]), w) + s[w..]
  {
    Widths();
    BigEndianOfValue(s[..w]);
  }

  lemma TopBit(b: bv8)
    requires b & 0x80 != 0
    ensures b == 0x80 | (b & 0x7f)
  {
  }

  lemma SevenBits(b: bv8)
    ensures (b & 0x7f) as int < 128
    ensures b & 0x7f != 126 && b & 0x7f != 127 ==> (b & 0x7f) as int <= 125
  {
  }

  /** Main result, other direction: whatever is read successfully was such a frame. */
  lemma ReadsOnlyClientFrames(s: Bytes)
    requires Read(s).Frame?
    ensures exists form, key ::
              && |key| == 4 && Fits(form, |Read(s).payload|) && |Read(s).payload| <= MaxPayload
              && s[0] & 0x80 != 0 && Read(s).opcode == s[0] & 0x0f
              && s == ClientFrame(s[0], form, key, Read(s).payload) + Read(s).rest
  {
    var form := FormOf(s[1] & 0x7f);
    var sized := ReadLength(s[1] & 0x7f, s[2..]);
    LengthIsEncoded(s[1], s[2..]);
    BodyIsMasked(s[0], sized);
    var key := sized.rest[..4];
    var bytes := LengthBytes(form, sized.n, 0x80);
    Assemble(s, bytes, sized.rest, key, Mask(Read(s).payload, key), Read(s).rest);
    assert s == ClientFrame(s[0], form, key, Read(s).payload) + Read(s).rest;
  }

  lemma Assemble(s: Bytes, bytes: Bytes, body: Bytes, key: Bytes, masked: Bytes, rest: Bytes)
    requires |s| >= 2 && [s[1]] + s[2..] == bytes + body && body == key + masked + rest
    ensures s == ([s[0]] + bytes + key + masked) + rest
  {
    assert s == [s[0]] + ([s[1]] + s[2..]);
  }

  // ---- what WriteWebSocketFrame produces --------------------------------------------------

  function MinimalForm(n: nat): Form {
    if n <= 125 then Short else if n <= 0xffff then Medium else Long
  }

  /** No form that fits is shorter. */
  lemma MinimalIsShortest(form: Form, n: nat)
    requires Fits(form, n)
    ensures Fits(MinimalForm(n), n)
    ensures |LengthBytes(MinimalForm(n), n, 0)| <= |LengthBytes(form, n, 0)|
  {
    Widths();
    if n < 0x1_0000 { ValueOfBigEndian(n, 2); }
    ValueOfBigEndian(n, 8);
  }

  function ServerFrame(opcode: bv8, payload: Bytes): Bytes
    requires Fits(Long, |payload|)
  {
    [0x80 | opcode] + LengthBytes(MinimalForm(|payload|), |payload|, 0) + payload
  }

  datatype Message = Message(opcode: bv8, payload: Bytes)

  ghost predicate Sendable(ms: seq<Message>) {
    forall m :: m in ms ==> Fits(Long, |m.payload|)
  }

  function WriteAll(ms: seq<Message>): Bytes
    requires Sendable(ms)
  {
    if ms == [] then []
    else assert ms[0] in ms; ServerFrame(ms[0].opcode, ms[0].payload) + WriteAll(ms[1..])
  }

  /** A client decoder written from section 5.2: final, unmasked frames until the stream ends. */
  function Decode(s: Bytes): Option<seq<Message>>
    decreases |s|
  {
    if s == [] then Some([])
    else if |s| < 2 || s[0] & 0x80 == 0 || s[1] & 0x80 != 0 then None
    else
      var sized := ReadLength(s[1] & 0x7f, s[2..]);
      if sized.NoLength? || |sized.rest| < sized.n then None
      else
        var later := Decode(sized.rest[sized.n..]);
        if later.None? then None else Some([Message(s[0] & 0x0f, sized.rest[..sized.n])] + later.value)
  }

  lemma OpcodeKept(opcode: bv8)
    ensures (0x80 | opcode) & 0x80 != 0 && (0x80 | opcode) & 0x0f == opcode & 0x0f
    ensures opcode < 16 ==> opcode & 0x0f == opcode
  {
  }

  function LowNibble(m: Message): Message {
    m.(opcode := m.opcode & 0x0f)
  }

  function LowNibbles(ms: seq<Message>): seq<Message> {
    seq(|ms|, i requires 0 <= i < |ms| => LowNibble(ms[i]))
  }

  lemma DecodeStep(s: Bytes, n: nat, rest: Bytes)
    requires |s| >= 2 && s[0] & 0x80 != 0 && s[1] & 0x80 == 0
    requires ReadLength(s[1] & 0x7f, s[2..]) == Sized(n, rest) && |rest| >= n && Decode(rest[n..]).Some?
    ensures Decode(s) == Some([Message(s[0] & 0x0f, rest[..n])] + Decode(rest[n..]).value)
  {
  }

  lemma DecodeFramed(first: bv8, bytes: Bytes, payload: Bytes, later: Bytes)
    requires bytes != [] && first & 0x80 != 0 && bytes[0] & 0x80 == 0 && Decode(later).Some?
    requires ReadLength(bytes[0] & 0x7f, bytes[1..] + (payload + later)) == Sized(|payload|, payload + later)
    ensures Decode([first] + bytes + payload + later) == Some([Message(first & 0x0f, payload)] + Decode(later).value)
  {
    var tail := payload + later;
    var s := [first] + bytes + payload + later;
    Regroup(first, bytes, payload, later);
    HeaderOf(first, bytes, tail, s);
    TailSplits(payload, later);
    DecodeStep(s, |payload|, tail);
  }

  lemma Regroup(first: bv8, bytes: Bytes, payload: Bytes, later: Bytes)
    ensures [first] + bytes + payload + later == [first] + bytes + (payload + later)
  {
  }

  lemma TailSplits(payload: Bytes, later: Bytes)
    ensures (payload + later)[..|payload|] == payload && (payload + later)[|payload|..] == later
  {
  }

  lemma ServerLength(payload: Bytes, later: Bytes) returns (bytes: Bytes)
    requires Fits(Long, |payload|)
    ensures bytes == LengthBytes(MinimalForm(|payload|), |payload|, 0)
    ensures bytes != [] && bytes[0] & 0x80 == 0
    ensures ReadLength(bytes[0] & 0x7f, bytes[1..] + (payload + later)) == Sized(|payload|, payload + later)
  {
    bytes := LengthBytes(MinimalForm(|payload|), |payload|, 0);
    LengthReads(MinimalForm(|payload|), |payload|, 0, payload + later);
  }

  lemma DecodeFirst(m: Message, later: Bytes)
    requires Fits(Long, |m.payload|) && Decode(later).Some?
    ensures Decode(ServerFrame(m.opcode, m.payload) + later) == Some([LowNibble(m)] + Decode(later).value)
  {
    var bytes := ServerLength(m.payload, later);
    OpcodeKept(m.opcode);
    DecodeFramed(0x80 | m.opcode, bytes, m.payload, later);
    assert ServerFrame(m.opcode, m.payload) == [0x80 | m.opcode] + bytes + m.payload;
  }

  lemma LowNibblesSplit(ms: seq<Message>)
    requires ms != []
    ensures LowNibbles(ms) == [LowNibble(ms[0])] + LowNibbles(ms[1..])
  {
  }

  /** A client recovers every sequence of written frames: the low four opcode bits and the
      payloads exactly, so the whole sequence whenever the opcodes are below 16. */
  lemma {:induction false} ClientRecoversMessages(ms: seq<Message>)
    requires Sendable(ms)
    ensures Decode(WriteAll(ms)) == Some(LowNibbles(ms))
  {
    if ms == [] {
      assert LowNibbles(ms) == [];
    } else {
      assert ms[0] in ms;
      ClientRecoversMessages(ms[1..]);
      LowNibblesSplit(ms);
      DecodeFirst(ms[0], WriteAll(ms[1..]));
    }
  }

  lemma ClientRecoversExactly(ms: seq<Message>)
    requires Sendable(ms)
    ensures Decode(WriteAll(ms)) == Some(ms) <==> forall m :: m in ms ==> m.opcode < 16
  {
    ClientRecoversMessages(ms);
    var low := LowNibbles(ms);
    forall i | 0 <= i < |ms| ensures low[i] == ms[i] <==> ms[i].opcode < 16 {
      OpcodeKept(ms[i].opcode);
      NibbleBound(ms[i].opcode);
    }
    if low == ms {
      forall m | m in ms ensures m.opcode < 16 {
        var i :| 0 <= i < |ms| && ms[i] == m;
        assert low[i] == ms[i];
      }
    } else if forall m :: m in ms ==> m.opcode < 16 {
      assert forall i :: 0 <= i < |ms| ==> ms[i] in ms && low[i] == ms[i];
    }
  }

  lemma NibbleBound(b: bv8)
    ensures b & 0x0f < 16
  {
  }

  // ---- the code ---------------------------------------------------------------------------

  /** A byte stream; a read that cannot be satisfied fails. */
  class Stream {
    var data: Bytes

    constructor (data: Bytes)
      ensures this.data == data
    {
      this.data := data;
    }

    /** io.ReadFull */
    method ReadFull(n: nat) returns (b: Option<Bytes>)
      modifies this
      ensures |old(data)| < n ==> b.None?
      ensures |old(data)| >= n ==> b == Some(old(data)[..n]) && data == old(data)[n..]
    {
      if |data| < n {
        data := [];
        return None;
      }
      b := Some(data[..n]);
      data := data[n..];
    }

    /** Writes may fail at the header or at the payload. */
    method WriteFrame(opcode: bv8, payload: Bytes, headerOk: bool, payloadOk: bool) returns (ok: bool)
      requires Fits(Long, |payload|)
      modifies this
      ensures ok <==> headerOk && payloadOk
      ensures ok ==> data == old(data) + ServerFrame(opcode, payload)
      ensures old(data) <= data <= old(data) + ServerFrame(opcode, payload)
      ensures !headerOk ==> data == old(data)
    {
      var n := |payload|;
      var header: Bytes := [0x80 | opcode];
      if n <= 125 {
        header := header + [n as bv8];
        assert 0 | (n as bv8) == n as bv8;
      } else if n <= 0xffff {
        header := header + [126] + BigEndian(n, 2);
        assert (0 as bv8) | 126 == 126;
      } else {
        header := header + [127] + BigEndian(n, 8);
        assert (0 as bv8) | 127 == 127;
      }
      assert header == [0x80 | opcode] + LengthBytes(MinimalForm(n), n, 0);
      if !headerOk {
        return false;
      }
      data := data + header;
      if !payloadOk {
        return false;
      }
      data := data + payload;
      assert data == old(data) + ServerFrame(opcode, payload);
      ok := true;
    }
  }

  /** The in-place unmasking loop. */
  method Unmask(payload: array<bv8>, key: Bytes)
    requires |key| == 4
    modifies payload
    ensures payload[..] == Mask(old(payload[..]), key)
  {
    for i := 0 to payload.Length
      invariant forall j :: 0 <= j < i ==> payload[j] == old(payload[j]) ^ key[j % 4]
      invariant forall j :: i <= j < payload.Length ==> payload[j] == old(payload[j])
    {
      payload[i] := payload[i] ^ key[i % 4];
    }
  }

  method ReadFrame(r: Stream) returns (result: ReadResult)
    modifies r
    ensures result == Read(old(r.data))
    ensures result.Frame? ==> r.data == result.rest
  {
    var header := r.ReadFull(2);
    if header.None? {
      return ShortRead;
    }
    var first, second := header.value[0], header.value[1];
    if first & 0x80 == 0 {
      return Fragmented;
    }
    if second & 0x80 == 0 {
      return Unmasked;
    }
    var n := ReadExtendedLength(r, second & 0x7f);
    if n.None? {
      return ShortRead;
    }
    result := ReadPayload(r, first, n.value);
  }

  method ReadExtendedLength(r: Stream, len7: bv8) returns (n: Option<nat>)
    modifies r
    ensures n.None? <==> ReadLength(len7, old(r.data)).NoLength?
    ensures n.Some? ==> ReadLength(len7, old(r.data)) == Sized(n.value, r.data)
  {
    if len7 == 126 {
      var buf := r.ReadFull(2);
      return if buf.None? then None else Some(Value(buf.value));
    } else if len7 == 127 {
      var buf := r.ReadFull(8);
      return if buf.None? then None else Some(Value(buf.value));
    }
    n := Some(len7 as int);
  }

  method ReadPayload(r: Stream, first: bv8, n: nat) returns (result: ReadResult)
    modifies r
    ensures result == ReadBody(first, Sized(n, old(r.data)))
    ensures result.Frame? ==> r.data == result.rest
  {
    if n > MaxPayload {
      return TooLarge;
    }
    var key := r.ReadFull(4);
    if key.None? {
      return ShortRead;
    }
    var masked := r.ReadFull(n);
    if masked.None? {
      return ShortRead;
    }
    assert masked.value == old(r.data)[4..4 + n];
    var payload := new bv8[n](i requires 0 <= i < n => masked.value[i]);
    assert payload[..] == masked.value;
    Unmask(payload, key.value);
    result := Frame(first & 0x0f, payload[..], r.data);
  }
}
