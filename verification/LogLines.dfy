/** Watching the core's output as it arrives in chunks (core/manager_logs.go,
    core/manager_startup.go). */
module LogLines {
  import opened Text
  import opened Splitting

  const StartupBufferLimit: nat := 128 * 1024
  const LineLimit: nat := 16 * 1024

  // ---- the error buffer -------------------------------------------------------------------

  function LastOf(s: string, limit: nat): string {
    if |s| <= limit then s else s[|s| - limit..]
  }

  class BoundedOutputBuffer {
    var buf: string
    const limit: nat
    ghost var total: string

    /** The buffer is exactly the last `limit` characters of everything written. */
    ghost predicate Valid()
      reads this
    {
      limit > 0 && buf == LastOf(total, limit)
    }

    constructor (limit: int)
      ensures Valid() && total == "" && this.limit == if limit <= 0 then 131072 else limit
    {
      this.limit := if limit <= 0 then StartupBufferLimit else limit;
      buf, total := "", "";
    }

    method Write(p: string)
      requires Valid()
      modifies this
      ensures Valid() && total == old(total) + p
    {
      LastOfAppend(total, p, limit);
      buf := buf + p;
      if |buf| > limit {
        buf := buf[|buf| - limit..];
      }
      total := total + p;
    }
  }

  /** Cutting early loses nothing that a later cut would keep. */
  lemma LastOfAppend(s: string, p: string, limit: nat)
    ensures LastOf(LastOf(s, limit) + p, limit) == LastOf(s + p, limit)
  {
    if |s| > limit {
      assert s == s[..|s| - limit] + s[|s| - limit..];
    }
  }

  // ---- carriage returns -------------------------------------------------------------------

  /** strings.ReplaceAll(s, "\r\n", "\n") */
  function DropCR(s: string): string {
    if s == "" then ""
    else if |s| >= 2 && s[0] == '\r' && s[1] == '\n' then ['\n'] + DropCR(s[2..])
    else [s[0]] + DropCR(s[1..])
  }

  predicate HasLineEnd(s: string) {
    exists i :: 0 < i < |s| && s[i - 1] == '\r' && s[i] == '\n'
  }

  /** Text without CRLF stays as it is. */
  lemma {:induction false} DropNothing(s: string)
    requires !HasLineEnd(s)
    ensures DropCR(s) == s
  {
    if s != "" {
      if |s| >= 2 {
        assert !(s[1 - 1] == '\r' && s[1] == '\n');
      }
      var rest := s[1..];
      forall i | 0 < i < |rest| ensures !(rest[i - 1] == '\r' && rest[i] == '\n') {
        assert rest[i - 1] == s[i + 1 - 1] && rest[i] == s[i + 1];
      }
      DropNothing(rest);
      assert s == [s[0]] + rest;
    }
  }

  /** Every CRLF becomes a newline, whatever surrounds it. */
  lemma {:induction false} DropEach(a: string, b: string)
    ensures DropCR(a + "\r\n" + b) == DropCR(a) + "\n" + DropCR(b)
  {
    var s := a + "\r\n" + b;
    if a == "" {
      assert s[2..] == b && s[0] == '\r' && s[1] == '\n';
    } else if |a| >= 2 && a[0] == '\r' && a[1] == '\n' {
      DropEach(a[2..], b);
      assert s[2..] == a[2..] + "\r\n" + b && s[0] == a[0] && s[1] == a[1];
      assert ['\n'] + (DropCR(a[2..]) + "\n" + DropCR(b)) == (['\n'] + DropCR(a[2..])) + "\n" + DropCR(b);
    } else {
      DropEach(a[1..], b);
      KeepFirst(a, b);
    }
  }

  lemma KeepFirst(a: string, b: string)
    requires a != "" && !(|a| >= 2 && a[0] == '\r' && a[1] == '\n')
    requires DropCR(a[1..] + "\r\n" + b) == DropCR(a[1..]) + "\n" + DropCR(b)
    ensures DropCR(a + "\r\n" + b) == DropCR(a) + "\n" + DropCR(b)
  {
    var s := a + "\r\n" + b;
    assert s[1..] == a[1..] + "\r\n" + b;
    assert s[0] == a[0] && (|a| == 1 ==> s[1] == '\r') && (|a| >= 2 ==> s[1] == a[1]);
    assert [a[0]] + (DropCR(a[1..]) + "\n" + DropCR(b)) == ([a[0]] + DropCR(a[1..])) + "\n" + DropCR(b);
  }

  function Lines(s: string): (r: seq<string>)
    ensures |r| > 0
  {
    Split('\n', s)
  }

  function Tail(s: string): string {
    Lines(s)[|Lines(s)| - 1]
  }

  function Complete(s: string): seq<string> {
    Lines(s)[..|Lines(s)| - 1]
  }

  /** Equal but for a carriage return that ends the second one. */
  predicate SameLine(x: string, y: string) {
    x == y || x + ['\r'] == y
  }

  predicate SameLines(xs: seq<string>, ys: seq<string>) {
    && |xs| == |ys|
    && (forall i :: 0 <= i < |xs| ==> SameLine(xs[i], ys[i]))
    && (xs != [] ==> xs[|xs| - 1] == ys[|ys| - 1])
  }

  lemma ConsSame(c: char, xs: seq<string>, ys: seq<string>)
    requires xs != [] && SameLines(xs, ys)
    ensures SameLines([[c] + xs[0]] + xs[1..], [[c] + ys[0]] + ys[1..])
  {
    assert SameLine([c] + xs[0], [c] + ys[0]) by {
      Associate([c], xs[0], ['\r']);
    }
  }

  lemma PushSame(x: string, y: string, xs: seq<string>, ys: seq<string>)
    requires SameLine(x, y) && xs != [] && SameLines(xs, ys)
    ensures SameLines([x] + xs, [y] + ys)
  {
  }

  lemma LinesOther(s: string)
    requires s != "" && (|s| < 2 || s[0] != '\r' || s[1] != '\n')
    ensures s[0] == '\n' ==> Lines(s) == [""] + Lines(s[1..]) && Lines(DropCR(s)) == [""] + Lines(DropCR(s[1..]))
    ensures s[0] != '\n' ==>
              && Lines(s) == [[s[0]] + Lines(s[1..])[0]] + Lines(s[1..])[1..]
              && Lines(DropCR(s)) == [[s[0]] + Lines(DropCR(s[1..]))[0]] + Lines(DropCR(s[1..]))[1..]
  {
    assert DropCR(s)[0] == s[0] && DropCR(s)[1..] == DropCR(s[1..]);
  }

  lemma LinesCRLF(s: string)
    requires |s| >= 2 && s[0] == '\r' && s[1] == '\n'
    ensures Lines(s) == ["\r"] + Lines(s[2..])
    ensures Lines(DropCR(s)) == [""] + Lines(DropCR(s[2..]))
  {
    SplitFirst('\n', "\r", s[2..]);
    SplitFirst('\n', "", DropCR(s[2..]));
    assert s == "\r" + ['\n'] + s[2..];
    assert DropCR(s) == "" + ['\n'] + DropCR(s[2..]);
  }

  /** Replacing line ends only drops carriage returns at the ends of terminated lines. */
  lemma {:induction false} DropKeepsLines(s: string)
    ensures SameLines(Lines(DropCR(s)), Lines(s))
  {
    if s == "" {
    } else if |s| >= 2 && s[0] == '\r' && s[1] == '\n' {
      DropKeepsLines(s[2..]);
      LinesCRLF(s);
      assert "" + ['\r'] == "\r";
      PushSame("", "\r", Lines(DropCR(s[2..])), Lines(s[2..]));
    } else {
      DropKeepsLines(s[1..]);
      LinesOther(s);
      ConsSame(s[0], Lines(DropCR(s[1..])), Lines(s[1..]));
      PushSame("", "", Lines(DropCR(s[1..])), Lines(s[1..]));
    }
  }

  /** The same with a partial line waiting in front. */
  lemma CombinedLines(buffer: string, p: string)
    requires '\n' !in buffer
    ensures SameLines(Lines(buffer + DropCR(p)), Lines(buffer + p))
  {
    SplitFirst('\n', buffer, "");
    SplitConcat('\n', buffer, p);
    SplitConcat('\n', buffer, DropCR(p));
    DropKeepsLines(p);
    MeldSame(buffer, Lines(DropCR(p)), Lines(p));
  }

  lemma MeldSame(buffer: string, xs: seq<string>, ys: seq<string>)
    requires xs != [] && SameLines(xs, ys)
    ensures SameLines(Meld([buffer], xs), Meld([buffer], ys))
  {
    assert SameLine(buffer + xs[0], buffer + ys[0]) by {
      assert buffer + xs[0] + ['\r'] == buffer + (xs[0] + ['\r']);
    }
    assert Meld([buffer], xs) == [buffer + xs[0]] + xs[1..];
    assert Meld([buffer], ys) == [buffer + ys[0]] + ys[1..];
  }

  lemma TailPlain(stream: string)
    ensures '\n' !in Tail(stream)
  {
    PiecesPlain('\n', stream);
    assert Tail(stream) in Lines(stream);
  }

  lemma MeldLast(xs: seq<string>, ys: seq<string>)
    requires xs != [] && ys != []
    ensures Meld(xs, ys) == xs[..|xs| - 1] + Meld([xs[|xs| - 1]], ys)
  {
    var last := xs[|xs| - 1];
    assert Meld([last], ys) == [last + ys[0]] + ys[1..];
    Associate(xs[..|xs| - 1], [last + ys[0]], ys[1..]);
  }

  /** A chunk continues the line that was waiting. */
  lemma NextLines(stream: string, p: string)
    ensures Lines(stream + p) == Complete(stream) + Lines(Tail(stream) + p)
    ensures '\n' !in Tail(stream)
  {
    TailPlain(stream);
    SplitFirst('\n', Tail(stream), "");
    SplitConcat('\n', stream, p);
    SplitConcat('\n', Tail(stream), p);
    MeldLast(Lines(stream), Lines(p));
  }

  lemma NextTail(stream: string, p: string)
    ensures Tail(stream + p) == Tail(Tail(stream) + p)
    ensures Complete(stream + p) == Complete(stream) + Complete(Tail(stream) + p)
  {
    NextLines(stream, p);
  }

  lemma EndsInNewline(s: string)
    requires s != "" && s[|s| - 1] == '\n'
    ensures Tail(s) == ""
  {
    SplitConcat('\n', s[..|s| - 1], "\n");
    assert s == s[..|s| - 1] + "\n";
    assert "\n"[1..] == "";
    assert Lines("\n") == ["", ""];
  }

  // ---- one chunk --------------------------------------------------------------------------

  datatype Fed = Fed(buffer: string, lines: seq<string>)

  /** What both watchers do with a chunk: the lines to look at, and the partial line kept. */
  function Feed(buffer: string, p: string): Fed {
    var combined := buffer + DropCR(p);
    if combined != "" && combined[|combined| - 1] == '\n' then Fed("", Lines(combined))
    else Fed(LastOf(Tail(combined), LineLimit), Complete(combined))
  }

  // ---- delivered lines --------------------------------------------------------------------

  function Shown(line: string): seq<string> {
    if TrimSpace(line) == "" then [] else [TrimSpace(line)]
  }

  /** Trimmed non-blank lines. */
  function Delivered(lines: seq<string>): seq<string> {
    if lines == [] then [] else Delivered(lines[..|lines| - 1]) + Shown(lines[|lines| - 1])
  }

  lemma {:induction false} DeliveredConcat(xs: seq<string>, ys: seq<string>)
    ensures Delivered(xs + ys) == Delivered(xs) + Delivered(ys)
  {
    if ys == [] {
      assert xs + ys == xs;
    } else {
      DeliveredConcat(xs, ys[..|ys| - 1]);
      assert (xs + ys)[..|xs + ys| - 1] == xs + ys[..|ys| - 1];
      Associate(Delivered(xs), Delivered(ys[..|ys| - 1]), Shown(ys[|ys| - 1]));
    }
  }

  lemma {:induction false} SameDelivered(xs: seq<string>, ys: seq<string>)
    requires |xs| == |ys| && forall i :: 0 <= i < |xs| ==> SameLine(xs[i], ys[i])
    ensures Delivered(xs) == Delivered(ys)
  {
    if xs != [] {
      SameDelivered(xs[..|xs| - 1], ys[..|ys| - 1]);
      TrimEnd(xs[|xs| - 1], '\r');
    }
  }

  lemma LastBlank(xs: seq<string>)
    requires xs != [] && xs[|xs| - 1] == ""
    ensures Delivered(xs) == Delivered(xs[..|xs| - 1])
  {
  }

  /** Apart from the cut, a chunk's lines are those of the buffer and the chunk together. */
  lemma FedIsComplete(buffer: string, p: string)
    requires '\n' !in buffer
    ensures Feed(buffer, p).buffer == LastOf(Tail(buffer + p), LineLimit)
    ensures Delivered(Feed(buffer, p).lines) == Delivered(Complete(buffer + p))
  {
    var combined := buffer + DropCR(p);
    CombinedLines(buffer, p);
    SameDelivered(Complete(combined), Complete(buffer + p));
    if combined != "" && combined[|combined| - 1] == '\n' {
      EndsInNewline(combined);
      LastBlank(Lines(combined));
    }
  }

  // ---- the partial line is always the end of the raw one ----------------------------------

  function Cut(line: string): string {
    LastOf(line, LineLimit)
  }

  lemma CutPlain(line: string)
    requires '\n' !in line
    ensures '\n' !in Cut(line)
  {
  }

  lemma LinesAfter(t: string, p: string)
    requires '\n' !in t
    ensures Lines(t + p) == [t + Lines(p)[0]] + Lines(p)[1..]
  {
    SplitFirst('\n', t, "");
    SplitConcat('\n', t, p);
  }

  lemma CutTail(t: string, p: string)
    requires '\n' !in t
    ensures Cut(Tail(Cut(t) + p)) == Cut(Tail(t + p))
  {
    CutPlain(t);
    LinesAfter(t, p);
    LinesAfter(Cut(t), p);
    LastOfAppend(t, Lines(p)[0], LineLimit);
  }

  /** What a line may lose to the limit is white space. */
  predicate BlankBeyond(line: string) {
    forall i :: 0 <= i < |line| - LineLimit ==> Space(line[i])
  }

  lemma BlankIsTrimmed(t: string, rest: string)
    requires BlankBeyond(t + rest)
    ensures Shown(Cut(t) + rest) == Shown(t + rest)
  {
    var line, k := t + rest, |t| - |Cut(t)|;
    assert forall i :: 0 <= i < k ==> Space(line[i]);
    TrimLeading(line, k);
    assert line[k..] == Cut(t) + rest;
  }

  lemma DeliveredCons(x: string, ys: seq<string>)
    ensures Delivered([x] + ys) == Shown(x) + Delivered(ys)
  {
    assert [x][..0] == [];
    assert Delivered([x]) == Shown(x);
    DeliveredConcat([x], ys);
  }

  lemma CutComplete(t: string, p: string)
    requires '\n' !in t && forall l :: l in Complete(t + p) ==> BlankBeyond(l)
    ensures Delivered(Complete(Cut(t) + p)) == Delivered(Complete(t + p))
  {
    var ps := Lines(p);
    CutPlain(t);
    LinesAfter(t, p);
    LinesAfter(Cut(t), p);
    if |ps| > 1 {
      var middle := ps[1..|ps| - 1];
      assert Complete(t + p) == [t + ps[0]] + middle && Complete(Cut(t) + p) == [Cut(t) + ps[0]] + middle;
      assert t + ps[0] in Complete(t + p);
      BlankIsTrimmed(t, ps[0]);
      DeliveredCons(t + ps[0], middle);
      DeliveredCons(Cut(t) + ps[0], middle);
    }
  }

  /** No terminated line holds anything visible before its last `LineLimit` characters. */
  ghost predicate Robust(s: string) {
    forall l :: l in Complete(s) ==> BlankBeyond(l)
  }

  lemma RobustBefore(stream: string, p: string)
    requires Robust(stream + p)
    ensures Robust(stream) && forall l :: l in Complete(Tail(stream) + p) ==> BlankBeyond(l)
  {
    NextTail(stream, p);
    assert forall l :: l in Complete(stream) || l in Complete(Tail(stream) + p) ==> l in Complete(stream + p);
  }

  /** One chunk keeps the watcher in step with the whole stream. */
  lemma FeedFollowsStream(stream: string, p: string)
    ensures Feed(Cut(Tail(stream)), p).buffer == Cut(Tail(stream + p))
    ensures Robust(stream + p) ==>
              Delivered(Complete(stream)) + Delivered(Feed(Cut(Tail(stream)), p).lines) == Delivered(Complete(stream + p))
  {
    var t := Tail(stream);
    NextLines(stream, p);
    NextTail(stream, p);
    CutPlain(t);
    FedIsComplete(Cut(t), p);
    CutTail(t, p);
    if Robust(stream + p) {
      RobustBefore(stream, p);
      CutComplete(t, p);
      DeliveredConcat(Complete(stream), Complete(t + p));
    }
  }

  // ---- chunk by chunk ---------------------------------------------------------------------

  function Concat(chunks: seq<string>): string {
    if chunks == [] then "" else Concat(chunks[..|chunks| - 1]) + chunks[|chunks| - 1]
  }

  /** Partial line and delivered lines after the chunks. */
  function Watch(chunks: seq<string>): Fed {
    if chunks == [] then Fed("", [])
    else
      var before := Watch(chunks[..|chunks| - 1]);
      var fed := Feed(before.buffer, chunks[|chunks| - 1]);
      Fed(fed.buffer, before.lines + Delivered(fed.lines))
  }

  /** ... and after the final flush. */
  function Published(chunks: seq<string>): seq<string> {
    Watch(chunks).lines + Shown(Watch(chunks).buffer)
  }

  /** What a stream delivers when its chunks do not matter: the trimmed non-blank terminated lines
      and the end of the unterminated one. */
  function Deliverable(s: string): seq<string> {
    Delivered(Complete(s)) + Shown(Cut(Tail(s)))
  }

  lemma {:induction false} WatchFollowsStream(chunks: seq<string>)
    ensures Watch(chunks).buffer == Cut(Tail(Concat(chunks)))
    ensures Robust(Concat(chunks)) ==> Watch(chunks).lines == Delivered(Complete(Concat(chunks)))
  {
    if chunks != [] {
      var front, p := chunks[..|chunks| - 1], chunks[|chunks| - 1];
      WatchFollowsStream(front);
      FeedFollowsStream(Concat(front), p);
      if Robust(Concat(chunks)) {
        RobustBefore(Concat(front), p);
      }
    }
  }

  /** The published lines do not depend on how a robust stream was cut into chunks, not even inside
      a line end. */
  lemma PublishedIgnoresChunks(a: seq<string>, b: seq<string>)
    requires Concat(a) == Concat(b) && Robust(Concat(a))
    ensures Published(a) == Published(b) == Deliverable(Concat(a))
  {
    WatchFollowsStream(a);
    WatchFollowsStream(b);
  }

  // ---- two ways to cut a stream -----------------------------------------------------------

  lemma OneChunk(s: string)
    ensures Concat([s]) == s && Watch([s]) == Fed(Cut(Tail(s)), Delivered(Complete(s)))
  {
    assert [s][..0] == [] && "" + s == s;
    FedIsComplete("", s);
    assert Watch([]) == Fed("", []);
    assert [] + Delivered(Feed("", s).lines) == Delivered(Feed("", s).lines);
  }

  /** A chunk per line, each cut just before the newline. */
  function Cuts(lines: seq<string>): seq<string>
    requires lines != []
  {
    if |lines| == 1 then [lines[0]] else Cuts(lines[..|lines| - 1]) + [['\n'] + lines[|lines| - 1]]
  }

  function CutLines(lines: seq<string>): seq<string> {
    seq(|lines|, i requires 0 <= i < |lines| => Cut(lines[i]))
  }

  lemma ConcatSnoc(chunks: seq<string>, p: string)
    ensures Concat(chunks + [p]) == Concat(chunks) + p
  {
    assert (chunks + [p])[..|chunks|] == chunks;
  }

  lemma {:induction false} CutsConcat(s: string)
    ensures Concat(Cuts(Lines(s))) == s
  {
    if s == "" {
      ConcatSnoc([], "");
      assert Cuts([""]) == [] + [""];
    } else {
      var front, c := s[..|s| - 1], s[|s| - 1];
      CutsConcat(front);
      assert s == front + [c];
      SplitConcat('\n', front, [c]);
      CutsExtended(Lines(front), c);
    }
  }

  lemma OneChar(c: char)
    ensures c == '\n' ==> Lines([c]) == ["", ""]
    ensures c != '\n' ==> Lines([c]) == [[c]]
  {
    if c == '\n' {
      SplitFirst('\n', "", "");
      assert "" + [c] + "" == [c];
    } else {
      SplitFirst('\n', [c], "");
    }
  }

  lemma CutsExtended(lines: seq<string>, c: char)
    requires lines != []
    ensures Concat(Cuts(Meld(lines, Lines([c])))) == Concat(Cuts(lines)) + [c]
  {
    var n := |lines| - 1;
    OneChar(c);
    if c == '\n' {
      assert lines[n] + "" == lines[n];
      assert Meld(lines, ["", ""]) == lines + [""];
      assert (lines + [""])[..n + 1] == lines;
      ConcatSnoc(Cuts(lines), ['\n'] + "");
    } else {
      var more := lines[..n] + [lines[n] + [c]];
      assert Meld(lines, [[c]]) == more;
      if n == 0 {
        ConcatSnoc([], lines[0]);
        ConcatSnoc([], lines[0] + [c]);
        assert Cuts(lines) == [] + [lines[0]] && Cuts(more) == [] + [lines[0] + [c]];
      } else {
        assert more[..n] == lines[..n];
        ConcatSnoc(Cuts(lines[..n]), ['\n'] + lines[n]);
        ConcatSnoc(Cuts(lines[..n]), ['\n'] + (lines[n] + [c]));
        Associate(Concat(Cuts(lines[..n])), ['\n'] + lines[n], [c]);
        Associate(['\n'], lines[n], [c]);
      }
    }
  }

  lemma {:induction false} NothingToDrop(line: string)
    requires '\n' !in line
    ensures DropCR(line) == line && DropCR(['\n'] + line) == ['\n'] + line
  {
    assert (['\n'] + line)[1..] == line;
    if line != "" {
      assert line == [line[0]] + line[1..];
      NothingToDrop(line[1..]);
    }
  }

  lemma LinesNext(kept: string, line: string)
    requires '\n' !in kept && '\n' !in line
    ensures Lines(kept + (['\n'] + line)) == [kept, line]
  {
    SplitFirst('\n', kept, line);
    SplitFirst('\n', line, "");
    Associate(kept, ['\n'], line);
    assert [kept] + [line] == [kept, line];
  }

  /** A newline completes the line that was waiting, as far as it was kept. */
  lemma FeedNext(kept: string, line: string)
    requires '\n' !in kept && '\n' !in line
    ensures Feed(kept, ['\n'] + line) == Fed(Cut(line), if line == "" then [kept, ""] else [kept])
  {
    NothingToDrop(line);
    LinesNext(kept, line);
    var combined := kept + (['\n'] + line);
    assert [kept, line][..1] == [kept];
    assert combined[|combined| - 1] == if line == "" then '\n' else line[|line| - 1];
  }

  lemma FeedFirst(line: string)
    requires '\n' !in line
    ensures Feed("", line) == Fed(Cut(line), [])
  {
    NothingToDrop(line);
    SplitFirst('\n', line, "");
    assert "" + line == line;
  }

  lemma CutLinesSnoc(lines: seq<string>)
    requires lines != []
    ensures CutLines(lines) == CutLines(lines[..|lines| - 1]) + [Cut(lines[|lines| - 1])]
  {
  }

  lemma FirstChunk(line: string)
    requires '\n' !in line
    ensures Watch([line]) == Fed(Cut(line), [])
  {
    WatchSnoc([], line);
    FeedFirst(line);
    assert [] + [line] == [line];
  }

  /** The next line's chunk delivers what was kept of the line before. */
  lemma NextChunk(chunks: seq<string>, kept: string, line: string)
    requires Watch(chunks).buffer == kept && '\n' !in kept && '\n' !in line
    ensures Watch(chunks + [['\n'] + line]) == Fed(Cut(line), Watch(chunks).lines + Shown(kept))
  {
    WatchSnoc(chunks, ['\n'] + line);
    FeedNext(kept, line);
    DeliveredOne(kept);
  }

  /** Cut this way, every line is kept only up to the limit. */
  lemma {:induction false} CutsWatch(lines: seq<string>)
    requires lines != [] && forall l :: l in lines ==> '\n' !in l
    ensures Watch(Cuts(lines)) == Fed(Cut(lines[|lines| - 1]), Delivered(CutLines(lines[..|lines| - 1])))
  {
    if |lines| == 1 {
      FirstChunk(lines[0]);
    } else {
      var front := lines[..|lines| - 1];
      CutsWatch(front);
      CutPlain(front[|front| - 1]);
      NextChunk(Cuts(front), Cut(front[|front| - 1]), lines[|lines| - 1]);
      CutLinesDelivered(front);
    }
  }

  lemma WatchSnoc(chunks: seq<string>, p: string)
    ensures var fed := Feed(Watch(chunks).buffer, p);
            Watch(chunks + [p]) == Fed(fed.buffer, Watch(chunks).lines + Delivered(fed.lines))
  {
    assert (chunks + [p])[..|chunks|] == chunks;
  }

  lemma CutLinesDelivered(lines: seq<string>)
    requires lines != []
    ensures Delivered(CutLines(lines)) == Delivered(CutLines(lines[..|lines| - 1])) + Shown(Cut(lines[|lines| - 1]))
  {
    CutLinesSnoc(lines);
    DeliveredOne(Cut(lines[|lines| - 1]));
    DeliveredConcat(CutLines(lines[..|lines| - 1]), [Cut(lines[|lines| - 1])]);
  }

  lemma DeliveredOne(line: string)
    ensures Delivered([line]) == Shown(line) == Delivered([line, ""])
  {
    assert [line][..0] == [] && [line, ""][..1] == [line];
  }

  // ---- published lines: exactly when chunks do not matter ---------------------------------

  /** Visible characters, counted with the spaces between them. */
  function Visible(lines: seq<string>): nat {
    if lines == [] then 0 else Visible(lines[..|lines| - 1]) + |TrimSpace(lines[|lines| - 1])|
  }

  function Size(lines: seq<string>): nat {
    if lines == [] then 0 else Size(lines[..|lines| - 1]) + |lines[|lines| - 1]|
  }

  lemma {:induction false} DeliveredSize(lines: seq<string>)
    ensures Size(Delivered(lines)) == Visible(lines)
  {
    if lines != [] {
      var front, last := lines[..|lines| - 1], lines[|lines| - 1];
      DeliveredSize(front);
      if TrimSpace(last) != "" {
        var all := Delivered(front) + [TrimSpace(last)];
        assert all[..|all| - 1] == Delivered(front);
      } else {
        assert Delivered(front) + [] == Delivered(front);
      }
    }
  }

  lemma CutVisible(line: string)
    ensures |TrimSpace(Cut(line))| <= |TrimSpace(line)|
    ensures !BlankBeyond(line) ==> |TrimSpace(Cut(line))| < |TrimSpace(line)|
  {
    if |line| > LineLimit {
      var k := |line| - LineLimit;
      if BlankBeyond(line) {
        TrimLeading(line, k);
      } else {
        var i :| 0 <= i < k && !Space(line[i]);
        TrimLoses(line, i, k);
      }
    }
  }

  lemma {:induction false} CutLinesVisible(lines: seq<string>)
    ensures Visible(CutLines(lines)) <= Visible(lines)
    ensures (exists l :: l in lines && !BlankBeyond(l)) ==> Visible(CutLines(lines)) < Visible(lines)
  {
    if lines != [] {
      var front, last := lines[..|lines| - 1], lines[|lines| - 1];
      CutLinesVisible(front);
      CutLinesSnoc(lines);
      CutVisible(last);
      assert CutLines(lines)[..|lines| - 1] == CutLines(front);
      if l :| l in lines && !BlankBeyond(l) {
        assert l in front || l == last;
      }
    }
  }

  /** Main result: the published lines are the same for all chunkings of a stream if and only if
      every terminated line is blank before its last `LineLimit` characters. */
  lemma PublishedExactlyIf(s: string)
    ensures (forall a, b :: Concat(a) == s && Concat(b) == s ==> Published(a) == Published(b)) <==> Robust(s)
  {
    if Robust(s) {
      forall a, b | Concat(a) == s && Concat(b) == s ensures Published(a) == Published(b) {
        PublishedIgnoresChunks(a, b);
      }
    } else {
      TwoWaysDiffer(s);
    }
  }

  lemma TwoWaysDiffer(s: string)
    requires !Robust(s)
    ensures Concat([s]) == s && Concat(Cuts(Lines(s))) == s && Published([s]) != Published(Cuts(Lines(s)))
  {
    OneChunk(s);
    CutsConcat(s);
    PiecesPlain('\n', s);
    CutsWatch(Lines(s));
    CutLinesVisible(Complete(s));
    DeliveredSize(Complete(s));
    DeliveredSize(CutLines(Complete(s)));
    SameEnd(Delivered(Complete(s)), Delivered(CutLines(Complete(s))), Shown(Cut(Tail(s))));
  }

  lemma SameEnd(a: seq<string>, b: seq<string>, end: seq<string>)
    requires a != b
    ensures a + end != b + end
  {
    assert a == (a + end)[..|a|] && b == (b + end)[..|b|];
  }

  // ---- fatal lines ------------------------------------------------------------------------

  predicate OccursAt(s: string, part: string, i: nat) {
    i + |part| <= |s| && s[i..i + |part|] == part
  }

  predicate Contains(s: string, part: string) {
    exists i :: 0 <= i <= |s| && OccursAt(s, part, i)
  }

  function Lower(s: string): string {
    seq(|s|, i requires 0 <= i < |s| =>
      if 'A' <= s[i] <= 'Z' then (s[i] as int + 32) as char else s[i])
  }

  const FatalIndicator: string := "level=fatal"

  const ListenErrors: seq<string> := [
    "External controller pipe listen error",
    "External controller unix listen error",
    "External controller listen error",
    "Start TUN listening error"]

  /** startupFatalLineError finds an error in the line. */
  predicate Fatal(line: string) {
    || Contains(Lower(line), FatalIndicator)
    || exists k :: 0 <= k < |ListenErrors| && Contains(line, ListenErrors[k])
  }

  lemma PartsAreShort(k: nat)
    requires k < |ListenErrors|
    ensures var part := ListenErrors[k]; part != "" && |part| <= LineLimit && part[|part| - 1] != '\r'
  {
  }

  /** The fatal indicator counts in any mixture of cases, the listen errors as they are written. */
  lemma IndicatorsAreFatal(before: string, x: string, after: string, k: nat)
    ensures |x| == 11 && (forall i :: 0 <= i < 11 ==> x[i] == "level=fatal"[i] || x[i] == "LEVEL=FATAL"[i]) ==>
              Fatal(before + x + after)
    ensures k < 4 && x == ["External controller pipe listen error", "External controller unix listen error",
                           "External controller listen error", "Start TUN listening error"][k] ==>
              Fatal(before + x + after)
  {
    if |x| == 11 && forall i :: 0 <= i < 11 ==> x[i] == "level=fatal"[i] || x[i] == "LEVEL=FATAL"[i] {
      LowerOfEither(x);
      WholeIsContained(FatalIndicator);
      FatalWithin(before, x, after);
    }
    if k < 4 && x == ListenErrors[k] {
      WholeIsContained(x);
      FatalWithin(before, x, after);
    }
  }

  lemma LowerOfEither(x: string)
    requires |x| == 11 && forall i :: 0 <= i < 11 ==> x[i] == "level=fatal"[i] || x[i] == "LEVEL=FATAL"[i]
    ensures Lower(x) == FatalIndicator
  {
    forall i | 0 <= i < 11 ensures Lower(x)[i] == FatalIndicator[i] {
      CaseOf(i);
    }
  }

  lemma CaseOf(i: nat)
    requires i < 11
    ensures var lower, upper := "level=fatal"[i], "LEVEL=FATAL"[i];
            && !('A' <= lower <= 'Z') && FatalIndicator[i] == lower
            && (upper == lower || ('A' <= upper <= 'Z' && (upper as int + 32) as char == lower))
  {
  }

  lemma WholeIsContained(x: string)
    ensures Contains(x, x)
  {
    assert x[0..|x|] == x;
    assert OccursAt(x, x, 0);
  }

  /** Nothing else is fatal: a fatal line contains the indicator in some case or a listen error. */
  lemma FatalContains(line: string)
    requires Fatal(line)
    ensures Contains(Lower(line), "level=fatal") ||
            Contains(line, "External controller pipe listen error") || Contains(line, "External controller unix listen error") ||
            Contains(line, "External controller listen error") || Contains(line, "Start TUN listening error")
  {
  }

  lemma ContainsWithin(before: string, s: string, after: string, part: string)
    requires Contains(s, part)
    ensures Contains(before + s + after, part)
  {
    var i :| 0 <= i <= |s| && OccursAt(s, part, i);
    assert OccursAt(before + s + after, part, |before| + i);
  }

  lemma ContainsIgnoresEnd(s: string, c: char, part: string)
    requires part != "" && part[|part| - 1] != c && Contains(s + [c], part)
    ensures Contains(s, part)
  {
    var t := s + [c];
    var i :| 0 <= i <= |t| && OccursAt(t, part, i);
    assert t[i..i + |part|][|part| - 1] == t[i + |part| - 1];
    assert OccursAt(s, part, i);
  }

  /** A part that appears with the last character is still there after the cut. */
  lemma ContainsAtEnd(t: string, c: char, part: string)
    requires |part| <= LineLimit && Contains(t + [c], part) && !Contains(t, part)
    ensures Contains(Cut(t + [c]), part)
  {
    var s := t + [c];
    var i :| 0 <= i <= |s| && OccursAt(s, part, i);
    if i + |part| <= |t| {
      assert OccursAt(t, part, i);
      assert false;
    }
    var cut := |s| - |Cut(s)|;
    assert Cut(s)[i - cut..i - cut + |part|] == s[i..i + |part|];
    assert OccursAt(Cut(s), part, i - cut);
  }

  lemma LowerParts(before: string, s: string, after: string)
    ensures Lower(before + s + after) == Lower(before) + Lower(s) + Lower(after)
  {
  }

  lemma LowerCut(s: string)
    ensures Lower(Cut(s)) == Cut(Lower(s))
  {
  }

  lemma FatalWithin(before: string, s: string, after: string)
    requires Fatal(s)
    ensures Fatal(before + s + after)
  {
    if Contains(Lower(s), FatalIndicator) {
      LowerParts(before, s, after);
      ContainsWithin(Lower(before), Lower(s), Lower(after), FatalIndicator);
    } else {
      var k :| 0 <= k < |ListenErrors| && Contains(s, ListenErrors[k]);
      ContainsWithin(before, s, after, ListenErrors[k]);
    }
  }

  lemma CutFatal(line: string)
    requires Fatal(Cut(line))
    ensures Fatal(line)
  {
    var k := |line| - |Cut(line)|;
    FatalWithin(line[..k], Cut(line), "");
    assert line == line[..k] + Cut(line) + "";
  }

  lemma FatalIgnoresCR(s: string)
    ensures Fatal(s + ['\r']) == Fatal(s)
  {
    var t := s + ['\r'];
    if Fatal(s) {
      FatalWithin("", s, ['\r']);
      assert "" + s + ['\r'] == t;
    }
    if Contains(Lower(t), FatalIndicator) {
      assert Lower(t) == Lower(s) + ['\r'];
      ContainsIgnoresEnd(Lower(s), '\r', FatalIndicator);
    } else if k :| 0 <= k < |ListenErrors| && Contains(t, ListenErrors[k]) {
      PartsAreShort(k);
      ContainsIgnoresEnd(s, '\r', ListenErrors[k]);
    }
  }

  lemma FatalAtEnd(t: string, c: char)
    requires Fatal(t + [c]) && !Fatal(t)
    ensures Fatal(Cut(t + [c]))
  {
    if Contains(Lower(t + [c]), FatalIndicator) {
      var low := Lower([c])[0];
      LowerParts("", t, [c]);
      assert "" + t + [c] == t + [c] && Lower(t + [c]) == Lower(t) + [low];
      ContainsAtEnd(Lower(t), low, FatalIndicator);
      LowerCut(t + [c]);
    } else {
      var k :| 0 <= k < |ListenErrors| && Contains(t + [c], ListenErrors[k]);
      PartsAreShort(k);
      ContainsAtEnd(t, c, ListenErrors[k]);
    }
  }

  lemma EmptyIsFine()
    ensures !Fatal("")
  {
  }

  ghost predicate AnyFatal(lines: seq<string>) {
    exists i :: 0 <= i < |lines| && Fatal(lines[i])
  }

  lemma SameFatal(xs: seq<string>, ys: seq<string>)
    requires SameLines(xs, ys)
    ensures AnyFatal(xs) == AnyFatal(ys)
  {
    forall i | 0 <= i < |xs| ensures Fatal(xs[i]) == Fatal(ys[i]) {
      assert SameLine(xs[i], ys[i]);
      FatalIgnoresCR(xs[i]);
    }
  }

  lemma FatalConcat(xs: seq<string>, ys: seq<string>)
    ensures AnyFatal(xs + ys) == (AnyFatal(xs) || AnyFatal(ys))
  {
    if AnyFatal(xs) {
      var i :| 0 <= i < |xs| && Fatal(xs[i]);
      assert Fatal((xs + ys)[i]);
    }
    if AnyFatal(ys) {
      var i :| 0 <= i < |ys| && Fatal(ys[i]);
      assert Fatal((xs + ys)[|xs| + i]);
    }
  }

  lemma FatalLast(xs: seq<string>)
    requires xs != []
    ensures AnyFatal(xs) == (AnyFatal(xs[..|xs| - 1]) || Fatal(xs[|xs| - 1]))
  {
    var front, last := xs[..|xs| - 1], [xs[|xs| - 1]];
    assert xs == front + last;
    FatalConcat(front, last);
    assert AnyFatal(last) == Fatal(last[0]);
  }

  lemma CutLinesFatal(lines: seq<string>)
    requires AnyFatal(CutLines(lines))
    ensures AnyFatal(lines)
  {
    var i :| 0 <= i < |lines| && Fatal(CutLines(lines)[i]);
    CutFatal(lines[i]);
  }

  // ---- what is reported -------------------------------------------------------------------

  /** What a chunk brings to attention: its lines and the partial line it leaves. */
  ghost predicate Alarms(fed: Fed) {
    AnyFatal(fed.lines) || Fatal(fed.buffer)
  }

  /** A chunk raises the alarm at least for an error within the limit, at most for an error. */
  lemma FedAlarms(buffer: string, p: string)
    requires '\n' !in buffer
    ensures AnyFatal(CutLines(Lines(buffer + p))) ==> Alarms(Feed(buffer, p))
    ensures Alarms(Feed(buffer, p)) ==> AnyFatal(Lines(buffer + p))
  {
    var combined, lines := buffer + DropCR(p), Lines(buffer + p);
    CombinedLines(buffer, p);
    SameFatal(Lines(combined), lines);
    FatalLast(Lines(combined));
    FedIsComplete(buffer, p);
    EmptyIsFine();
    if Fatal(Cut(Tail(combined))) {
      CutFatal(Tail(combined));
    }
    if AnyFatal(CutLines(lines)) {
      CutLinesSnoc(lines);
      FatalLast(CutLines(lines));
      if AnyFatal(CutLines(Complete(buffer + p))) {
        CutLinesFatal(Complete(buffer + p));
        CompleteFatal(combined, buffer + p);
      }
    }
  }

  lemma CompleteFatal(x: string, y: string)
    requires SameLines(Lines(x), Lines(y)) && AnyFatal(Complete(y))
    ensures AnyFatal(Complete(x))
  {
    var i :| 0 <= i < |Complete(y)| && Fatal(Complete(y)[i]);
    assert SameLine(Lines(x)[i], Lines(y)[i]);
    FatalIgnoresCR(Lines(x)[i]);
    assert Fatal(Complete(x)[i]);
  }

  /** Keeping only the end of the waiting line changes no cut line and adds no error. */
  lemma CutKeepsFatal(t: string, p: string)
    requires '\n' !in t
    ensures CutLines(Lines(Cut(t) + p)) == CutLines(Lines(t + p))
    ensures AnyFatal(Lines(Cut(t) + p)) ==> AnyFatal(Lines(t + p))
  {
    var ps := Lines(p);
    CutPlain(t);
    LinesAfter(t, p);
    LinesAfter(Cut(t), p);
    LastOfAppend(t, ps[0], LineLimit);
    if i :| 0 <= i < |ps| && Fatal(Lines(Cut(t) + p)[i]) {
      if i == 0 {
        var k := |t| - |Cut(t)|;
        FatalWithin(t[..k], Cut(t) + ps[0], "");
        assert t[..k] + (Cut(t) + ps[0]) + "" == t + ps[0];
      }
      assert Fatal(Lines(t + p)[i]);
    }
  }

  lemma TailFatal(tail: string, p: string)
    requires '\n' !in tail && Fatal(tail)
    ensures AnyFatal(Lines(tail + p))
  {
    LinesAfter(tail, p);
    FatalWithin("", tail, Lines(p)[0]);
    assert "" + tail + Lines(p)[0] == Lines(tail + p)[0];
  }

  lemma CutLinesConcat(xs: seq<string>, ys: seq<string>)
    ensures CutLines(xs + ys) == CutLines(xs) + CutLines(ys)
  {
  }

  lemma AlarmFollowsStream(stream: string, p: string)
    ensures var fed := Feed(Cut(Tail(stream)), p);
            && (AnyFatal(Lines(stream)) || Alarms(fed) ==> AnyFatal(Lines(stream + p)))
            && (AnyFatal(CutLines(Lines(stream + p))) ==> AnyFatal(CutLines(Lines(stream))) || Alarms(fed))
  {
    var t, done := Tail(stream), Complete(stream);
    NextLines(stream, p);
    CutPlain(t);
    FedAlarms(Cut(t), p);
    CutKeepsFatal(t, p);
    FatalConcat(done, Lines(t + p));
    FatalLast(Lines(stream));
    if Fatal(t) {
      TailFatal(t, p);
    }
    CutLinesConcat(done, Lines(t + p));
    FatalConcat(CutLines(done), CutLines(Lines(t + p)));
    CutLinesSnoc(Lines(stream));
    FatalConcat(CutLines(done), [Cut(t)]);
  }

  /** Whether a fatal line was reported, chunk by chunk. */
  ghost predicate Reported(chunks: seq<string>) {
    && chunks != []
    && (Reported(chunks[..|chunks| - 1]) || Alarms(Feed(Watch(chunks[..|chunks| - 1]).buffer, chunks[|chunks| - 1])))
  }

  /** However a stream is cut, an error within the last `LineLimit` characters of some line is
      reported, and nothing is reported unless some line, terminated or not, shows an error. */
  lemma {:induction false} ReportIgnoresChunks(chunks: seq<string>)
    ensures AnyFatal(CutLines(Lines(Concat(chunks)))) ==> Reported(chunks)
    ensures Reported(chunks) ==> AnyFatal(Lines(Concat(chunks)))
  {
    if chunks == [] {
      EmptyIsFine();
    } else {
      var front, p := chunks[..|chunks| - 1], chunks[|chunks| - 1];
      ReportIgnoresChunks(front);
      WatchFollowsStream(front);
      AlarmFollowsStream(Concat(front), p);
    }
  }

  lemma CutsStep(lines: seq<string>)
    requires |lines| > 1 && forall l :: l in lines ==> '\n' !in l
    ensures var n := |lines| - 1;
            Reported(Cuts(lines)) <==> Reported(Cuts(lines[..n])) || Fatal(Cut(lines[n - 1])) || Fatal(Cut(lines[n]))
  {
    var n, chunks := |lines| - 1, Cuts(lines);
    var front := lines[..n];
    assert chunks[..|chunks| - 1] == Cuts(front) && chunks[|chunks| - 1] == ['\n'] + lines[n];
    CutsWatch(front);
    CutPlain(lines[n - 1]);
    FeedNext(Cut(lines[n - 1]), lines[n]);
    NextAlarms(Cut(lines[n - 1]), lines[n]);
  }

  lemma FirstReported(line: string)
    requires '\n' !in line
    ensures Reported([line]) <==> Fatal(Cut(line))
  {
    assert [line][..0] == [] && Watch([]) == Fed("", []);
    FeedFirst(line);
    assert !Reported([]);
  }

  lemma NextAlarms(kept: string, line: string)
    ensures Alarms(Fed(Cut(line), if line == "" then [kept, ""] else [kept])) <==> Fatal(kept) || Fatal(Cut(line))
  {
    EmptyIsFine();
    assert AnyFatal([kept]) <==> Fatal([kept][0]);
    FatalLast([kept, ""]);
    assert [kept, ""][..1] == [kept];
  }

  /** A chunk per line reports no more than it must. */
  lemma {:induction false} CutsReport(lines: seq<string>)
    requires lines != [] && forall l :: l in lines ==> '\n' !in l
    requires Reported(Cuts(lines))
    ensures AnyFatal(CutLines(lines))
  {
    var n := |lines| - 1;
    assert CutLines(lines)[n] == Cut(lines[n]);
    if n == 0 {
      FirstReported(lines[0]);
    } else {
      CutsStep(lines);
      assert CutLines(lines)[n - 1] == Cut(lines[n - 1]);
      if Reported(Cuts(lines[..n])) {
        CutsReport(lines[..n]);
        CutLinesSnoc(lines);
        FatalLast(CutLines(lines));
        assert CutLines(lines)[..n] == CutLines(lines[..n]);
      }
    }
  }

  function Chars(s: string): seq<string> {
    seq(|s|, i requires 0 <= i < |s| => [s[i]])
  }

  lemma {:induction false} CharsConcat(s: string)
    ensures Concat(Chars(s)) == s
  {
    if s != "" {
      var n := |s| - 1;
      CharsConcat(s[..n]);
      assert Chars(s)[..n] == Chars(s[..n]);
      assert s == s[..n] + [s[n]];
    }
  }

  /** One character, and the line it completes or extends. */
  lemma NextChar(s: string, c: char)
    ensures c == '\n' ==> Lines(s + [c]) == Lines(s) + [""]
    ensures c != '\n' ==> Lines(s + [c]) == Complete(s) + [Tail(s) + [c]]
  {
    SplitConcat('\n', s, [c]);
    OneChar(c);
    assert Tail(s) + "" == Tail(s);
  }

  /** Character by character, every error is reported as soon as it is complete. */
  lemma {:induction false} CharsReport(s: string)
    requires AnyFatal(Lines(s))
    ensures Reported(Chars(s))
  {
    EmptyIsFine();
    if s != "" {
      var n := |s| - 1;
      var front, c, t := s[..n], s[n], Tail(s[..n]);
      assert s == front + [c] && Chars(s)[..n] == Chars(front);
      NextChar(front, c);
      FatalLast(Lines(front));
      FatalLast(Lines(s));
      if AnyFatal(Lines(front)) {
        CharsReport(front);
      } else {
        FatalAtEnd(t, c);
        CharsConcat(front);
        WatchFollowsStream(Chars(front));
        FeedFollowsStream(front, [c]);
      }
    }
  }

  /** Main result: whether an error is reported is the same for all chunkings of a stream if and
      only if the stream shows none or shows one within the last `LineLimit` characters of a line. */
  lemma ReportedExactlyIf(s: string)
    ensures (forall a, b :: Concat(a) == s && Concat(b) == s ==> (Reported(a) <==> Reported(b))) <==>
            (AnyFatal(Lines(s)) ==> exists l :: l in Lines(s) && Fatal(Cut(l)))
  {
    if AnyFatal(CutLines(Lines(s))) || !AnyFatal(Lines(s)) {
      forall a, b | Concat(a) == s && Concat(b) == s ensures Reported(a) <==> Reported(b) {
        ReportIgnoresChunks(a);
        ReportIgnoresChunks(b);
      }
    } else {
      CharsConcat(s);
      CharsReport(s);
      CutsConcat(s);
      PiecesPlain('\n', s);
      assert !Reported(Cuts(Lines(s))) by {
        if Reported(Cuts(Lines(s))) { CutsReport(Lines(s)); }
      }
    }
    CutLinesAny(Lines(s));
  }

  lemma CutLinesAny(lines: seq<string>)
    ensures AnyFatal(CutLines(lines)) <==> exists l :: l in lines && Fatal(Cut(l))
  {
    if i :| 0 <= i < |lines| && Fatal(CutLines(lines)[i]) {
      assert lines[i] in lines;
    }
    if l :| l in lines && Fatal(Cut(l)) {
      var i :| 0 <= i < |lines| && lines[i] == l;
      assert Fatal(CutLines(lines)[i]);
    }
  }

  /** In particular, with no line above 16384 characters everything is as if the stream had been read
      line by line. */
  lemma ShortLinesIgnoreChunks(chunks: seq<string>)
    requires forall l :: l in Lines(Concat(chunks)) ==> |l| <= 16384
    ensures Published(chunks) == Delivered(Lines(Concat(chunks)))
    ensures Reported(chunks) <==> AnyFatal(Lines(Concat(chunks)))
  {
    var s := Concat(chunks);
    assert Tail(s) in Lines(s);
    assert Robust(s) by {
      forall l | l in Complete(s) ensures BlankBeyond(l) {
        assert l in Lines(s);
      }
    }
    PublishedIgnoresChunks(chunks, chunks);
    assert Lines(s)[..|Lines(s)| - 1] == Complete(s);
    ReportIgnoresChunks(chunks);
    forall i | 0 <= i < |Lines(s)| ensures CutLines(Lines(s))[i] == Lines(s)[i] {
      assert Lines(s)[i] in Lines(s);
    }
    assert CutLines(Lines(s)) == Lines(s);
  }

  // ---- inputs for which chunks matter -----------------------------------------------------

  /** Every long line without white space: whole in one chunk, cut if its newline comes later. */
  lemma LongLineDependsOnChunks(line: string)
    requires |line| > 16384 && forall c :: c in line ==> !Space(c)
    ensures !Robust(line + ['\n'])
    ensures Published([line + ['\n']]) != Published(Cuts(Lines(line + ['\n'])))
  {
    SplitFirst('\n', line, "");
    assert line + ['\n'] + "" == line + ['\n'];
    assert Lines(line + ['\n']) == [line, ""];
    assert line in Complete(line + ['\n']);
    assert line[0] in line;
    TwoWaysDiffer(line + ['\n']);
  }

  predicate Filler(xs: string) {
    forall i :: 0 <= i < |xs| ==> xs[i] == 'x'
  }

  lemma PartMissing(s: string, part: string)
    requires part != "" && forall i :: 0 <= i < |s| ==> s[i] != part[0]
    ensures !Contains(s, part)
  {
    forall i | 0 <= i <= |s| ensures !OccursAt(s, part, i) {
      if i + |part| <= |s| {
        assert s[i..i + |part|][0] == s[i];
      }
    }
  }

  lemma FillerIsFine(xs: string)
    requires Filler(xs)
    ensures !Fatal(xs)
  {
    PartMissing(Lower(xs), FatalIndicator);
    forall k | 0 <= k < |ListenErrors| ensures !Contains(xs, ListenErrors[k]) {
      PartMissing(xs, ListenErrors[k]);
    }
  }

  lemma TwoChunks(a: string, b: string)
    ensures Concat([a, b]) == a + b
    ensures Reported([a, b]) <==> Alarms(Feed("", a)) || Alarms(Feed(Feed("", a).buffer, b))
  {
    assert [a, b][..1] == [a] && [a][..0] == [];
    assert Watch([]) == Fed("", []) && Concat([]) == "" && "" + a == a;
    assert Watch([a]).buffer == Feed("", a).buffer;
    assert Reported([a]) <==> Alarms(Feed("", a));
  }

  lemma FeedLong(kept: string, more: string)
    requires '\n' !in kept && '\n' !in more
    ensures Feed(kept, more) == Fed(Cut(kept + more), [])
  {
    NothingToDrop(more);
    SplitFirst('\n', kept + more, "");
  }

  /** A fatal error at the start of a long line is reported if it ends a chunk and missed if a
      chunk cuts through it: the partial line is shortened before it is examined. */
  lemma LongLineHidesError(xs: string)
    requires |xs| >= 16384 && Filler(xs)
    ensures Concat(["level=fatal", xs]) == Concat(["level=fat", "al" + xs])
    ensures Reported(["level=fatal", xs]) && !Reported(["level=fat", "al" + xs])
  {
    TwoChunks("level=fatal", xs);
    TwoChunks("level=fat", "al" + xs);
    Associate("level=fat", "al", xs);
    assert "level=fatal" == "level=fat" + "al";
    WholeIndicator();
    HalfIndicator(xs);
  }

  lemma WholeIndicator()
    ensures Alarms(Feed("", "level=fatal"))
  {
    FeedFirst("level=fatal");
    IndicatorIsFatal();
  }

  lemma IndicatorIsFatal()
    ensures Fatal(FatalIndicator)
  {
    assert Lower(FatalIndicator) == FatalIndicator;
    WholeIsContained(FatalIndicator);
  }

  lemma HalfIndicator(xs: string)
    requires |xs| >= LineLimit && Filler(xs)
    ensures Feed("", "level=fat").buffer == "level=fat" && !Alarms(Feed("", "level=fat"))
    ensures !Alarms(Feed("level=fat", "al" + xs))
  {
    FeedFirst("level=fat");
    ShortIsFine("level=fat");
    RestIsFine("level=fat", "al", xs);
  }

  lemma RestIsFine(kept: string, more: string, xs: string)
    requires '\n' !in kept && '\n' !in more && |xs| >= LineLimit && Filler(xs)
    ensures !Alarms(Feed(kept, more + xs))
  {
    assert '\n' !in more + xs;
    FeedLong(kept, more + xs);
    var s := kept + (more + xs);
    assert Filler(Cut(s));
    FillerIsFine(Cut(s));
  }

  lemma ShortIsFine(s: string)
    requires |s| < |FatalIndicator|
    ensures !Fatal(s)
  {
  }

  // ---- the watchers -----------------------------------------------------------------------

  class CoreLogEventWatcher {
    var lineBuffer: string
    var active: bool
    /** The lines handed to the event rules. */
    var published: seq<string>
    /** Everything written while active. */
    ghost var chunks: seq<string>

    ghost predicate Valid()
      reads this
    {
      if active then Watch(chunks) == Fed(lineBuffer, published) else published == Published(chunks)
    }

    constructor ()
      ensures Valid() && active && chunks == [] && published == []
    {
      lineBuffer, active, published, chunks := "", true, [], [];
    }

    method Publish(line: string)
      modifies this`published
      ensures published == old(published) + Shown(line)
    {
      var trimmed := TrimSpace(line);
      if trimmed == "" {
        return;
      }
      published := published + [trimmed];
    }

    method PublishAll(lines: seq<string>)
      modifies this`published
      ensures published == old(published) + Delivered(lines)
    {
      for i := 0 to |lines|
        invariant published == old(published) + Delivered(lines[..i])
      {
        assert lines[..i + 1][..i] == lines[..i];
        Publish(lines[i]);
      }
      assert lines[..|lines|] == lines;
    }

    /** While active, the trimmed non-blank lines completed by a robust stream have been published. */
    method Write(p: string)
      requires Valid()
      modifies this
      ensures Valid() && active == old(active)
      ensures chunks == if active then old(chunks) + [p] else old(chunks)
      ensures !active ==> published == old(published)
      ensures active && Robust(Concat(chunks)) ==> published == Delivered(Complete(Concat(chunks)))
    {
      if !active {
        return;
      }
      var fed := Feed(lineBuffer, p);
      PublishAll(fed.lines);
      lineBuffer := fed.buffer;
      chunks := chunks + [p];
      assert chunks[..|chunks| - 1] == old(chunks);
      WatchFollowsStream(chunks);
    }

    /** After the flush exactly what a robust stream delivers was published. */
    method Stop()
      requires Valid()
      modifies this
      ensures Valid() && !active && chunks == old(chunks)
      ensures Robust(Concat(chunks)) ==> published == Deliverable(Concat(chunks))
    {
      PublishedFollows(chunks);
      if !active {
        return;
      }
      active := false;
      var line := lineBuffer;
      lineBuffer := "";
      Publish(line);
    }
  }

  lemma PublishedFollows(chunks: seq<string>)
    ensures Robust(Concat(chunks)) ==> Published(chunks) == Deliverable(Concat(chunks))
  {
    WatchFollowsStream(chunks);
  }

  class StartupLogWatcher {
    var lineBuffer: string
    var reported: bool
    /** The lines whose errors were sent on the channel, which has room for one. */
    var sent: seq<string>
    ghost var chunks: seq<string>

    ghost predicate Sent()
      reads this`sent, this`reported
    {
      |sent| == (if reported then 1 else 0) && forall line :: line in sent ==> Fatal(line)
    }

    ghost predicate Valid()
      reads this
    {
      Sent() && lineBuffer == Watch(chunks).buffer && (reported <==> Reported(chunks))
    }

    constructor ()
      ensures Valid() && chunks == [] && !reported
    {
      lineBuffer, reported, sent, chunks := "", false, [], [];
    }

    method ReportFatal(line: string)
      requires Sent()
      modifies this`reported, this`sent
      ensures Sent() && reported == (old(reported) || Fatal(line))
      ensures sent == if !old(reported) && Fatal(line) then [line] else old(sent)
    {
      if !Fatal(line) || reported {
        return;
      }
      reported := true;
      sent := sent + [line];
    }

    method ReportAll(lines: seq<string>)
      requires Sent()
      modifies this`reported, this`sent
      ensures Sent() && reported == (old(reported) || AnyFatal(lines))
      ensures old(reported) ==> sent == old(sent)
    {
      for i := 0 to |lines|
        invariant Sent() && reported == (old(reported) || AnyFatal(lines[..i]))
        invariant old(reported) ==> sent == old(sent)
      {
        assert lines[..i + 1][..i] == lines[..i];
        FatalLast(lines[..i + 1]);
        ReportFatal(lines[i]);
      }
      assert lines[..|lines|] == lines;
    }

    /** At most one error is sent; it has been if some line shows one within the limit, and only if
        some line shows one. */
    method Write(p: string)
      requires Valid()
      modifies this
      ensures Valid() && chunks == old(chunks) + [p]
      ensures old(reported) ==> reported && sent == old(sent)
      ensures AnyFatal(CutLines(Lines(Concat(chunks)))) ==> reported
      ensures reported ==> AnyFatal(Lines(Concat(chunks)))
    {
      var fed := Feed(lineBuffer, p);
      lineBuffer := fed.buffer;
      ReportAll(fed.lines);
      EmptyIsFine();
      if lineBuffer != "" {
        ReportFatal(lineBuffer);
      }
      chunks := chunks + [p];
      assert chunks[..|chunks| - 1] == old(chunks);
      ReportIgnoresChunks(chunks);
    }
  }
}
