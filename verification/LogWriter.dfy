/** The size-limited core log (core/log_writer.go).  File operations succeed; the writer is the
    only one changing its files. */
module LogWriter {
  import opened Runs

  type Path = string

  predicate Suffix(a: string, b: string) {
    |a| <= |b| && b[|b| - |a|..] == a
  }

  lemma SuffixSelf(a: string)
    ensures Suffix(a, a)
  {
  }

  lemma SuffixTransitive(a: string, b: string, c: string)
    requires Suffix(a, b) && Suffix(b, c)
    ensures Suffix(a, c)
  {
    assert c[|c| - |a|..] == c[|c| - |b|..][|b| - |a|..];
  }

  lemma SuffixAppend(a: string, b: string, p: string)
    requires Suffix(a, b)
    ensures Suffix(a + p, b + p)
  {
    assert (b + p)[|b + p| - |a + p|..] == b[|b| - |a|..] + p;
  }

  // ---- trimming ---------------------------------------------------------------------------

  /** Low watermark: 0.7 of the limit, at least one byte. */
  function Target(max: int): (r: int)
    requires max > 0
    ensures 1 <= r <= max
    ensures max >= 2 ==> 10 * r <= 7 * max < 10 * (r + 1)
  {
    if max * 7 / 10 < 1 then 1 else max * 7 / 10
  }

  predicate IsFirstNewline(s: string, r: int) {
    && -1 <= r < |s|
    && (r >= 0 ==> s[r] == '\n')
    && forall j :: 0 <= j < (if r < 0 then |s| else r) ==> s[j] != '\n'
  }

  /** bytes.IndexByte(s, '\n'), searching from position `i` on. */
  function IndexNewline(s: string, i: nat): (r: int)
    requires i <= |s| && forall j :: 0 <= j < i ==> s[j] != '\n'
    ensures IsFirstNewline(s, r)
    decreases |s| - i
  {
    if i == |s| then -1 else if s[i] == '\n' then i else IndexNewline(s, i + 1)
  }

  function ReadLogTail(content: string, target: nat): string {
    if |content| <= target then content
    else
      var tail := content[|content| - target..];
      var i := IndexNewline(tail, 0);
      if 0 <= i < |tail| - 1 then tail[i + 1..] else tail
  }

  /** A trim keeps a suffix of at most `target` bytes: all of them unless a newline comes before
      the last one, and then what follows the first newline. */
  predicate Trimmed(content: string, target: nat, kept: string) {
    && |content| > target >= 1
    && Suffix(kept, content) && 1 <= |kept| <= target
    && var tail := content[|content| - target..];
       if '\n' in tail[..target - 1]
       then content[|content| - |kept| - 1] == '\n' && |kept| < target && '\n' !in tail[..target - |kept| - 1]
       else kept == tail
  }

  lemma TrimMeaning(content: string, target: nat)
    requires |content| > target >= 1
    ensures Trimmed(content, target, ReadLogTail(content, target))
  {
    TailMeaning(content, target, IndexNewline(content[|content| - target..], 0));
  }

  lemma TailMeaning(content: string, target: nat, i: int)
    requires |content| > target >= 1 && IsFirstNewline(content[|content| - target..], i)
    ensures var tail := content[|content| - target..];
            Trimmed(content, target, if 0 <= i < target - 1 then tail[i + 1..] else tail)
  {
    var tail := content[|content| - target..];
    if 0 <= i < target - 1 {
      assert tail[..target - 1][i] == '\n';
      assert tail[i] == content[|content| - target + i];
    }
  }

  function Limited(content: string, max: int): string {
    if max > 0 && |content| > max then ReadLogTail(content, Target(max)) else content
  }

  lemma LimitedBounds(content: string, max: int)
    ensures Suffix(Limited(content, max), content)
    ensures max > 0 ==> |Limited(content, max)| <= max
    ensures Limited(Limited(content, max), max) == Limited(content, max)
    ensures max <= 0 || |content| <= max ==> Limited(content, max) == content
    ensures max > 0 && |content| > max ==> Trimmed(content, Target(max), Limited(content, max))
  {
    if max > 0 && |content| > max {
      TrimMeaning(content, Target(max));
    }
  }

  /** Trimming, once or twice, leaves a bounded suffix of whatever the content is a suffix of. */
  lemma LimitedSuffix(content: string, past: string, max: int, kept: string)
    requires Suffix(content, past) && (kept == Limited(content, max) || kept == Limited(Limited(content, max), max))
    ensures kept == Limited(content, max) == Limited(kept, max) && Suffix(kept, past) && (max > 0 ==> |kept| <= max)
  {
    LimitedBounds(content, max);
    SuffixTransitive(Limited(content, max), content, past);
  }

  // ---- runs on one file -------------------------------------------------------------------

  datatype Op = Append(p: string) | SetLimit(n: int)

  datatype Log = Log(file: string, max: int)

  function Perform(log: Log, op: Op): Log {
    match op
    case Append(p) => Log(Limited(log.file + p, log.max), log.max)
    case SetLimit(n) => Log(Limited(log.file, n), n)
  }

  function Run(log: Log, ops: seq<Op>): Log {
    if ops == [] then log else Perform(Run(log, ops[..|ops| - 1]), ops[|ops| - 1])
  }

  /** Initial content plus everything written. */
  function History(init: string, ops: seq<Op>): string {
    if ops == [] then init
    else
      var before := History(init, ops[..|ops| - 1]);
      match ops[|ops| - 1]
      case Append(p) => before + p
      case SetLimit(_) => before
  }

  /** Main result: after any sequence of writes and limit changes the file is a suffix of
      everything ever written and within a positive limit. */
  lemma {:induction false} RunKeepsSuffix(log: Log, ops: seq<Op>)
    requires log.max > 0 ==> |log.file| <= log.max
    ensures var after := Run(log, ops);
            Suffix(after.file, History(log.file, ops)) && (after.max > 0 ==> |after.file| <= after.max)
  {
    if ops != [] {
      var front, op := ops[..|ops| - 1], ops[|ops| - 1];
      RunKeepsSuffix(log, front);
      var before := Run(log, front);
      match op
      case Append(p) =>
        SuffixAppend(before.file, History(log.file, front), p);
        LimitedBounds(before.file + p, before.max);
        SuffixTransitive(Run(log, ops).file, before.file + p, History(log.file, ops));
      case SetLimit(n) =>
        LimitedBounds(before.file, n);
        SuffixTransitive(Run(log, ops).file, before.file, History(log.file, ops));
    }
  }

  // ---- whole lines ------------------------------------------------------------------------

  predicate NewlineWithin(s: string, i: nat, n: nat)
    requires i + n <= |s|
  {
    '\n' in s[i..i + n]
  }

  /** No `n` consecutive bytes without a newline. */
  ghost predicate Dense(s: string, n: nat) {
    forall i :: 0 <= i && i + n <= |s| ==> NewlineWithin(s, i, n)
  }

  /** Lines are short against every limit of the run. */
  ghost predicate LinesShort(s: string, log: Log, ops: seq<Op>) {
    && (log.max > 0 ==> Dense(s, Target(log.max) - 1))
    && forall op :: op in ops && op.SetLimit? && op.n > 0 ==> Dense(s, Target(op.n) - 1)
  }

  predicate StartsAtLine(file: string, history: string) {
    Suffix(file, history) && (|file| == |history| || history[|history| - |file| - 1] == '\n')
  }

  lemma DensePrefix(s: string, p: string, n: nat)
    requires Dense(s + p, n)
    ensures Dense(s, n)
  {
    forall i | 0 <= i && i + n <= |s| ensures NewlineWithin(s, i, n) {
      assert NewlineWithin(s + p, i, n);
      assert s[i..i + n] == (s + p)[i..i + n];
    }
  }

  lemma SuffixAt(a: string, b: string, i: nat)
    requires Suffix(a, b) && i < |a|
    ensures a[i] == b[|b| - |a| + i]
  {
  }

  /** The bytes a trim looks at are the last ones of the history. */
  lemma SameWindow(content: string, history: string, target: nat)
    requires Suffix(content, history) && 1 <= target <= |content|
    ensures history[|history| - target..|history| - 1] == content[|content| - target..][..target - 1]
  {
    assert history[|history| - |content|..] == content;
  }

  lemma TrimStartsAtLine(content: string, history: string, target: nat, kept: string)
    requires Suffix(content, history) && Trimmed(content, target, kept) && Dense(history, target - 1)
    ensures StartsAtLine(kept, history)
  {
    assert NewlineWithin(history, |history| - target, target - 1);
    SameWindow(content, history, target);
    SuffixTransitive(kept, content, history);
    SuffixAt(content, history, |content| - |kept| - 1);
  }

  lemma LimitStartsAtLine(content: string, history: string, max: int)
    requires StartsAtLine(content, history) && (max > 0 ==> Dense(history, Target(max) - 1))
    ensures StartsAtLine(Limited(content, max), history)
  {
    if max > 0 && |content| > max {
      TrimMeaning(content, Target(max));
      TrimStartsAtLine(content, history, Target(max), Limited(content, max));
    }
  }

  function LimitAfter(max: int, ops: seq<Op>): int {
    if ops == [] then max
    else if ops[|ops| - 1].SetLimit? then ops[|ops| - 1].n
    else LimitAfter(max, ops[..|ops| - 1])
  }

  lemma {:induction false} RunLimit(log: Log, ops: seq<Op>)
    ensures Run(log, ops).max == LimitAfter(log.max, ops)
  {
    if ops != [] {
      RunLimit(log, ops[..|ops| - 1]);
    }
  }

  lemma {:induction false} LimitWasSet(max: int, ops: seq<Op>)
    ensures LimitAfter(max, ops) == max || SetLimit(LimitAfter(max, ops)) in ops
  {
    if ops != [] {
      LimitWasSet(max, ops[..|ops| - 1]);
      assert ops[|ops| - 1] in ops;
    }
  }

  lemma ShortStart(s: string, p: string, log: Log, ops: seq<Op>)
    requires LinesShort(s + p, log, ops)
    ensures LinesShort(s, log, ops)
  {
    if log.max > 0 {
      DensePrefix(s, p, Target(log.max) - 1);
    }
    forall o | o in ops && o.SetLimit? && o.n > 0 ensures Dense(s, Target(o.n) - 1) {
      DensePrefix(s, p, Target(o.n) - 1);
    }
  }

  lemma AppendStartsAtLine(log: Log, p: string, past: string)
    requires StartsAtLine(log.file, past) && (log.max > 0 ==> Dense(past + p, Target(log.max) - 1))
    ensures StartsAtLine(Perform(log, Append(p)).file, past + p)
  {
    SuffixAppend(log.file, past, p);
    LimitStartsAtLine(log.file + p, past + p, log.max);
  }

  lemma LimitInForce(s: string, log: Log, ops: seq<Op>)
    requires LinesShort(s, log, ops)
    ensures Run(log, ops).max > 0 ==> Dense(s, Target(Run(log, ops).max) - 1)
  {
    RunLimit(log, ops);
    LimitWasSet(log.max, ops);
  }

  lemma ShortPrefix(s: string, log: Log, ops: seq<Op>)
    requires ops != [] && LinesShort(s, log, ops)
    ensures LinesShort(s, log, ops[..|ops| - 1])
  {
    assert forall op :: op in ops[..|ops| - 1] ==> op in ops;
  }

  /** As long as lines are short against the limits, the file always consists of whole lines of
      the history: no trim ever leaves a partial first line. */
  lemma {:induction false} RunKeepsWholeLines(log: Log, ops: seq<Op>)
    requires LinesShort(History(log.file, ops), log, ops)
    ensures StartsAtLine(Run(log, ops).file, History(log.file, ops))
  {
    if ops != [] {
      var front := ops[..|ops| - 1];
      ShortPrefix(History(log.file, ops), log, ops);
      if ops[|ops| - 1].Append? {
        ShortStart(History(log.file, front), ops[|ops| - 1].p, log, front);
      }
      RunKeepsWholeLines(log, front);
      StepKeepsWholeLines(log, ops);
    }
  }

  lemma StepKeepsWholeLines(log: Log, ops: seq<Op>)
    requires ops != [] && LinesShort(History(log.file, ops), log, ops)
    requires StartsAtLine(Run(log, ops[..|ops| - 1]).file, History(log.file, ops[..|ops| - 1]))
    ensures StartsAtLine(Run(log, ops).file, History(log.file, ops))
  {
    var front, op := ops[..|ops| - 1], ops[|ops| - 1];
    var before, past := Run(log, front), History(log.file, front);
    if op.Append? {
      ShortPrefix(past + op.p, log, ops);
      LimitInForce(past + op.p, log, front);
      AppendStartsAtLine(before, op.p, past);
    } else {
      assert op in ops;
      LimitStartsAtLine(before.file, past, op.n);
    }
  }

  // ---- exactly when the file starts at a line ---------------------------------------------

  datatype Trim = Trim(content: string, target: nat)

  /** What an operation has to trim, if anything. */
  function Trims(log: Log, op: Op): Option<Trim> {
    var content := if op.Append? then log.file + op.p else log.file;
    var max := if op.Append? then log.max else op.n;
    if max > 0 && |content| > max then Some(Trim(content, Target(max))) else None
  }

  /** The last trim of a run. */
  function LastTrim(log: Log, ops: seq<Op>): Option<Trim> {
    if ops == [] then None
    else
      var here := Trims(Run(log, ops[..|ops| - 1]), ops[|ops| - 1]);
      if here.Some? then here else LastTrim(log, ops[..|ops| - 1])
  }

  /** There is a newline just before the window of a trim, or in it before its last byte. */
  predicate Clean(trim: Trim) {
    && |trim.content| > trim.target >= 1
    && (|| trim.content[|trim.content| - trim.target - 1] == '\n'
        || '\n' in trim.content[|trim.content| - trim.target..][..trim.target - 1])
  }

  lemma AppendKeepsStart(file: string, history: string, p: string)
    requires Suffix(file, history)
    ensures StartsAtLine(file + p, history + p) <==> StartsAtLine(file, history)
  {
    SuffixAppend(file, history, p);
  }

  lemma TrimStart(content: string, history: string, target: nat, kept: string)
    requires Suffix(content, history) && Trimmed(content, target, kept)
    ensures StartsAtLine(kept, history) <==> Clean(Trim(content, target))
  {
    SuffixTransitive(kept, content, history);
    SuffixAt(content, history, |content| - |kept| - 1);
  }

  lemma LimitStart(content: string, history: string, max: int)
    requires Suffix(content, history)
    ensures Suffix(Limited(content, max), history)
    ensures StartsAtLine(Limited(content, max), history) <==>
            if max > 0 && |content| > max then Clean(Trim(content, Target(max))) else StartsAtLine(content, history)
  {
    LimitedBounds(content, max);
    SuffixTransitive(Limited(content, max), content, history);
    if max > 0 && |content| > max {
      TrimStart(content, history, Target(max), Limited(content, max));
    }
  }

  lemma StepStart(log: Log, op: Op, past: string)
    requires Suffix(log.file, past)
    ensures var after := if op.Append? then past + op.p else past;
            && Suffix(Perform(log, op).file, after)
            && (StartsAtLine(Perform(log, op).file, after) <==>
                if Trims(log, op).Some? then Clean(Trims(log, op).value) else StartsAtLine(log.file, past))
  {
    if op.Append? {
      SuffixAppend(log.file, past, op.p);
      AppendKeepsStart(log.file, past, op.p);
      LimitStart(log.file + op.p, past + op.p, log.max);
    } else {
      LimitStart(log.file, past, op.n);
    }
  }

  /** Main result: after any writes and limit changes, the file starts at the beginning of a line of
      the history if and only if nothing was ever trimmed or the last trim was clean. */
  lemma {:induction false} StartsAtLineExactlyIf(log: Log, ops: seq<Op>)
    ensures Suffix(Run(log, ops).file, History(log.file, ops))
    ensures StartsAtLine(Run(log, ops).file, History(log.file, ops)) <==>
            LastTrim(log, ops).None? || Clean(LastTrim(log, ops).value)
  {
    if ops != [] {
      var front, op := ops[..|ops| - 1], ops[|ops| - 1];
      StartsAtLineExactlyIf(log, front);
      StepStart(Run(log, front), op, History(log.file, front));
    }
  }

  /** A line longer than the limit leaves a file that starts inside it. */
  lemma LongLineIsCut(p: string, max: int)
    requires 0 < max < |p| && '\n' !in p
    ensures var ops := [Append(p)];
            History("", ops) == p && !StartsAtLine(Run(Log("", max), ops).file, p)
  {
    var log, ops := Log("", max), [Append(p)];
    assert ops[..0] == [] && "" + p == p;
    assert Run(log, []) == log && History("", []) == "";
    assert History("", ops) == p;
    assert LastTrim(log, ops) == Some(Trim(p, Target(max)));
    NotClean(p, Target(max));
    StartsAtLineExactlyIf(log, ops);
  }

  lemma NotClean(p: string, target: nat)
    requires '\n' !in p
    ensures !Clean(Trim(p, target))
  {
  }

  // ---- the writer -------------------------------------------------------------------------

  ghost predicate OnlyChanges(before: map<Path, string>, after: map<Path, string>, path: Path) {
    && (forall q :: q != path ==> (q in after <==> q in before))
    && (forall q :: q != path && q in before ==> after[q] == before[q])
  }

  /** The content once the file is brought within the limit and the operations are performed. */
  function Opened(content: string, max: int, ops: seq<Op>): string {
    Run(Log(Limited(content, max), max), ops).file
  }

  lemma OpenedAlone(content: string, max: int)
    ensures Opened(content, max, []) == Limited(content, max)
  {
  }

  lemma OpenedAppend(content: string, max: int, p: string)
    ensures Opened(content, max, [Append(p)]) == Limited(Limited(content, max) + p, max)
  {
    var log := Log(Limited(content, max), max);
    assert [Append(p)][..0] == [];
    assert Run(log, [Append(p)]) == Perform(log, Append(p));
  }

  datatype Settings = Settings(path: Path, saveLogs: bool, maxBytes: int)

  class BoundedLogWriter {
    var files: map<Path, string>
    var open: bool
    var settings: Settings
    var closed: bool
    /** What the open file held when it was opened, and everything written to it since. */
    ghost var past: string

    /** An open file exists, is within the limit and is a suffix of everything written to it. */
    ghost predicate Valid()
      reads this
    {
      && (open ==> !closed && settings.saveLogs && settings.path != "" && settings.path in files)
      && (open && settings.maxBytes > 0 ==> |files[settings.path]| <= settings.maxBytes)
      && (open ==> Suffix(files[settings.path], past))
    }

    function Content(path: Path): string
      reads this
    {
      if path in files then files[path] else ""
    }

    constructor (settings: Settings, files: map<Path, string>)
      ensures Valid() && this.settings == settings && this.files == files && !open && !closed
    {
      this.settings, this.files, open, closed, past := settings, files, false, false, "";
    }

    predicate Saving()
      reads this
    {
      !closed && settings.saveLogs && settings.path != ""
    }

    method EnforceLimit()
      requires open ==> settings.path in files
      modifies this`files
      ensures !open ==> files == old(files)
      ensures open ==> settings.path in files && files[settings.path] == Limited(old(files[settings.path]), settings.maxBytes)
      ensures OnlyChanges(old(files), files, settings.path)
    {
      if settings.maxBytes <= 0 || !open {
        return;
      }
      var size := |files[settings.path]|;
      if size <= settings.maxBytes {
        return;
      }
      var target := Target(settings.maxBytes);
      var content := ReadLogTail(files[settings.path], target);
      files := files[settings.path := content];
    }

    method EnsureOpen()
      requires Saving() && (open ==> settings.path in files)
      modifies this`files, this`open, this`past
      ensures open && settings.path in files
      ensures OnlyChanges(old(files), files, settings.path)
      ensures files[settings.path] == if old(open) then old(Content(settings.path)) else Limited(old(Content(settings.path)), settings.maxBytes)
      ensures past == if old(open) then old(past) else old(Content(settings.path))
    {
      if open {
        return;
      }
      if settings.path !in files {
        files := files[settings.path := ""];
      }
      open := true;
      past := files[settings.path];
      EnforceLimit();
    }

    /** What has been written to the current file, were it opened now. */
    ghost function Past(): string
      reads this
    {
      if open then past else Content(settings.path)
    }

    /** Opening and trimming, whether or not the file was open and within the limit. */
    method OpenLimited()
      requires Saving() && (open ==> settings.path in files && Suffix(files[settings.path], past))
      modifies this`files, this`open, this`past
      ensures Valid() && open && past == old(Past())
      ensures OnlyChanges(old(files), files, settings.path)
      ensures files[settings.path] == Limited(old(Content(settings.path)), settings.maxBytes)
    {
      ghost var wanted := Limited(Content(settings.path), settings.maxBytes);
      SuffixSelf(Content(settings.path));
      LimitedSuffix(Content(settings.path), Past(), settings.maxBytes, wanted);
      EnsureOpen();
      EnforceLimit();
      assert files[settings.path] == wanted;
    }

    /** An open file is within the limit already. */
    method OpenForWrite()
      requires Valid() && Saving()
      modifies this`files, this`open, this`past
      ensures Valid() && open && past == old(Past())
      ensures OnlyChanges(old(files), files, settings.path)
      ensures files[settings.path] == Limited(old(Content(settings.path)), settings.maxBytes)
    {
      ghost var start, before := Content(settings.path), Past();
      EnsureOpen();
      LimitedSuffix(start, before, settings.maxBytes, files[settings.path]);
    }

    /** Appending to the open file. */
    method AppendLimited(p: string)
      requires Valid() && open
      modifies this`files, this`past
      ensures Valid() && past == old(past) + p
      ensures OnlyChanges(old(files), files, settings.path)
      ensures files[settings.path] == Limited(old(files[settings.path]) + p, settings.maxBytes)
    {
      ghost var start := files[settings.path];
      SuffixAppend(start, past, p);
      files := files[settings.path := files[settings.path] + p];
      past := past + p;
      EnforceLimit();
      LimitedSuffix(start + p, past, settings.maxBytes, files[settings.path]);
    }

    /** A write appends and then trims; opening first may already trim.  The file stays a suffix, within
        a positive limit, of everything written to it. */
    method Write(p: string)
      requires Valid()
      modifies this`files, this`open, this`past
      ensures Valid()
      ensures !Saving() || p == "" ==> files == old(files) && open == old(open) && past == old(past)
      ensures Saving() && p != "" ==>
                && open && OnlyChanges(old(files), files, settings.path) && past == old(Past()) + p
                && Content(settings.path) == Opened(old(Content(settings.path)), settings.maxBytes, [Append(p)])
    {
      if closed || |p| == 0 || !settings.saveLogs || settings.path == "" {
        return;
      }
      WriteOpen(p);
    }

    method WriteOpen(p: string)
      requires Valid() && Saving()
      modifies this`files, this`open, this`past
      ensures Valid() && open && OnlyChanges(old(files), files, settings.path) && past == old(Past()) + p
      ensures Content(settings.path) == Opened(old(Content(settings.path)), settings.maxBytes, [Append(p)])
    {
      ghost var start := Content(settings.path);
      OpenForWrite();
      AppendLimited(p);
      OpenedAppend(start, settings.maxBytes, p);
    }

    /** New settings take effect at once: the file they name is opened and brought within the
        limit; with saving off, or on another path, the old file is let go as it is. */
    method Update(next: Settings)
      requires Valid()
      modifies this`files, this`open, this`settings, this`past
      ensures Valid()
      ensures closed ==> files == old(files) && settings == old(settings)
      ensures !closed ==> settings == next && open == Saving()
      ensures !closed && !Saving() ==> files == old(files)
      ensures !closed && Saving() ==>
                && OnlyChanges(old(files), files, next.path)
                && past == (if old(open) && old(settings).path == next.path then old(past) else old(Content(next.path)))
                && Content(next.path) == Opened(old(Content(next.path)), next.maxBytes, [])
    {
      if closed {
        return;
      }
      if settings.path != next.path || !next.saveLogs {
        open := false;
      }
      settings := next;
      if settings.saveLogs && settings.path != "" {
        OpenLimited();
        OpenedAlone(old(Content(next.path)), next.maxBytes);
      }
    }

    method Close()
      requires Valid()
      modifies this`open, this`closed
      ensures Valid() && closed && !open
    {
      closed := true;
      open := false;
    }
  }
}
