/** The sandbox mount plan (core/sandbox/sandbox_linux.go): requests are merged by target, stably
    sorted by the number of path separators, and mounted in that order. */
module SandboxMounts {
  import opened Runs

  // ---- absolute paths ---------------------------------------------------------------------

  /** A cleaned absolute path as its list of names; `/` is the empty list. */
  type Path = seq<string>

  predicate Name(c: string) {
    c != "" && c != "." && c != ".." && '/' !in c
  }

  predicate Cleaned(p: Path) {
    forall i :: 0 <= i < |p| ==> Name(p[i])
  }

  /** The pieces between separators. */
  function Segments(s: string): (r: seq<string>)
    ensures |r| > 0
  {
    if s == "" then [""]
    else
      var rest := Segments(s[1..]);
      if s[0] == '/' then [""] + rest else [[s[0]] + rest[0]] + rest[1..]
  }

  /** filepath.Clean on the pieces of an absolute path. */
  function Normalize(segments: seq<string>): Path {
    if segments == [] then []
    else
      var front, c := Normalize(segments[..|segments| - 1]), segments[|segments| - 1];
      if c == "" || c == "." then front
      else if c == ".." then (if front == [] then [] else front[..|front| - 1])
      else front + [c]
  }

  function Clean(s: string): Path {
    Normalize(Segments(s))
  }

  function Joined(p: Path): string {
    if p == [] then "" else Joined(p[..|p| - 1]) + "/" + p[|p| - 1]
  }

  function Render(p: Path): string {
    if p == [] then "/" else Joined(p)
  }

  /** strings.Count(path, "/") */
  function Separators(s: string): nat {
    if s == "" then 0 else (if s[0] == '/' then 1 else 0) + Separators(s[1..])
  }

  /** The sort key: `/` itself has as many separators as `/bin`. */
  function Depth(p: Path): nat {
    if p == [] then 1 else |p|
  }

  lemma {:induction false} SegmentsHaveNoSlash(s: string)
    ensures forall c :: c in Segments(s) ==> '/' !in c
  {
    if s != "" {
      SegmentsHaveNoSlash(s[1..]);
      var rest := Segments(s[1..]);
      assert rest[0] in rest;
    }
  }

  lemma {:induction false} NormalizeCleans(segments: seq<string>)
    requires forall c :: c in segments ==> '/' !in c
    ensures Cleaned(Normalize(segments))
  {
    if segments != [] {
      NormalizeCleans(segments[..|segments| - 1]);
    }
  }

  lemma CleanIsCleaned(s: string)
    ensures Cleaned(Clean(s))
  {
    SegmentsHaveNoSlash(s);
    NormalizeCleans(Segments(s));
  }

  lemma {:induction false} SeparatorsConcat(a: string, b: string)
    ensures Separators(a + b) == Separators(a) + Separators(b)
  {
    if a == "" {
      assert a + b == b;
    } else {
      assert (a + b)[1..] == a[1..] + b;
      SeparatorsConcat(a[1..], b);
    }
  }

  lemma {:induction false} NoSeparators(c: string)
    requires '/' !in c
    ensures Separators(c) == 0
  {
    if c != "" { NoSeparators(c[1..]); }
  }

  lemma {:induction false} JoinedSeparators(p: Path)
    requires Cleaned(p)
    ensures Separators(Joined(p)) == |p|
  {
    if p != [] {
      var front, c := p[..|p| - 1], p[|p| - 1];
      JoinedSeparators(front);
      SeparatorsConcat(Joined(front) + "/", c);
      SeparatorsConcat(Joined(front), "/");
      NoSeparators(c);
    }
  }

  /** The separator count the code sorts by is the depth used here. */
  lemma DepthCountsSeparators(p: Path)
    requires Cleaned(p)
    ensures Separators(Render(p)) == Depth(p)
  {
    JoinedSeparators(p);
  }

  lemma {:induction false} SegmentsConcat(a: string, c: string)
    requires '/' !in c
    ensures Segments(a + "/" + c) == Segments(a) + [c]
  {
    if a == "" {
      assert a + "/" + c == "/" + c && ("/" + c)[1..] == c;
      SegmentsOfName(c);
    } else {
      assert (a + "/" + c)[1..] == a[1..] + "/" + c;
      SegmentsConcat(a[1..], c);
    }
  }

  lemma {:induction false} SegmentsOfName(c: string)
    requires '/' !in c
    ensures Segments(c) == [c]
  {
    if c != "" {
      SegmentsOfName(c[1..]);
      assert [c[0]] + c[1..] == c;
    }
  }

  /** What cleaning does, one component at a time: doubled separators and `.` vanish, `..` goes up but
      not above the root, and a name goes down. */
  lemma CleanAppends(a: string, c: string)
    requires '/' !in c
    ensures Clean(a + "/") == Clean(a + "/.") == Clean(a)
    ensures Clean(a + "/..") == if Clean(a) == [] then [] else Clean(a)[..|Clean(a)| - 1]
    ensures Name(c) ==> Clean(a + "/" + c) == Clean(a) + [c]
    ensures Clean("") == []
  {
    assert [""][..0] == [];
    SegmentsConcat(a, "");
    SegmentsConcat(a, ".");
    SegmentsConcat(a, "..");
    SegmentsConcat(a, c);
    assert a + "/" + "" == a + "/" && a + "/" + "." == a + "/." && a + "/" + ".." == a + "/..";
    NormalizeSnoc(Segments(a), "");
    NormalizeSnoc(Segments(a), ".");
    NormalizeSnoc(Segments(a), "..");
    NormalizeSnoc(Segments(a), c);
  }

  lemma NormalizeSnoc(segments: seq<string>, c: string)
    ensures var p := Normalize(segments);
            Normalize(segments + [c]) ==
            if c == "" || c == "." then p else if c == ".." then (if p == [] then [] else p[..|p| - 1]) else p + [c]
  {
    assert (segments + [c])[..|segments|] == segments;
  }

  lemma {:induction false} CleanJoined(p: Path)
    requires Cleaned(p)
    ensures Clean(Joined(p)) == p
  {
    if p != [] {
      var front, c := p[..|p| - 1], p[|p| - 1];
      CleanJoined(front);
      SegmentsConcat(Joined(front), c);
      assert (Segments(Joined(front)) + [c])[..|Segments(Joined(front))|] == Segments(Joined(front));
    }
  }

  /** Cleaning is idempotent: a rendered path cleans to itself. */
  lemma CleanRender(p: Path)
    requires Cleaned(p)
    ensures Clean(Render(p)) == p
  {
    if p == [] {
      assert "/"[1..] == "" && Segments("/") == ["", ""];
      assert ["", ""][..1] == [""] && [""][..0] == [];
    } else {
      CleanJoined(p);
    }
  }

  // ---- merging ----------------------------------------------------------------------------

  /** A mount request; an empty target is ignored, an empty source means none is known yet. */
  datatype Request = Request(source: string, target: string, readOnly: bool, file: bool, proc: bool)

  datatype Mount = Mount(source: string, target: Path, readOnly: bool, file: bool, proc: bool)

  function CleanSource(s: string): string {
    if s == "" then "" else Render(Clean(s))
  }

  /** A source is kept in clean form: the same place, and one spelling for each place. */
  lemma SourcesAreClean(s: string, t: string)
    requires s != "" && t != ""
    ensures Clean(CleanSource(s)) == Clean(s)
    ensures CleanSource(s) == CleanSource(t) <==> Clean(s) == Clean(t)
    ensures CleanSource("") == ""
  {
    CleanIsCleaned(s);
    CleanIsCleaned(t);
    CleanRender(Clean(s));
    CleanRender(Clean(t));
  }

  function AsMount(r: Request): Mount {
    Mount(CleanSource(r.source), Clean(r.target), r.readOnly, r.file, r.proc)
  }

  function Combine(m: Mount, n: Mount): Mount {
    m.(readOnly := m.readOnly && n.readOnly, file := m.file || n.file, proc := m.proc || n.proc,
       source := if m.source == "" then n.source else m.source)
  }

  function IndexOf(ms: seq<Mount>, t: Path): (i: nat)
    ensures i <= |ms|
    ensures i < |ms| ==> ms[i].target == t
    ensures forall j :: 0 <= j < i ==> ms[j].target != t
  {
    if ms == [] || ms[0].target == t then 0 else 1 + IndexOf(ms[1..], t)
  }

  function Add(ms: seq<Mount>, r: Request): seq<Mount> {
    if r.target == "" then ms
    else
      var m := AsMount(r);
      var i := IndexOf(ms, m.target);
      if i < |ms| then ms[i := Combine(ms[i], m)] else ms + [m]
  }

  function Merge(rs: seq<Request>): seq<Mount> {
    if rs == [] then [] else Add(Merge(rs[..|rs| - 1]), rs[|rs| - 1])
  }

  ghost predicate UniqueTargets(ms: seq<Mount>) {
    forall i, j :: 0 <= i < j < |ms| ==> ms[i].target != ms[j].target
  }

  /** Request `i` asks for target `t`. */
  predicate Asks(rs: seq<Request>, i: int, t: Path) {
    0 <= i < |rs| && rs[i].target != "" && Clean(rs[i].target) == t
  }

  ghost predicate Requested(rs: seq<Request>, t: Path) {
    exists i :: Asks(rs, i, t)
  }

  /** What the merged mount of a target must be, read off the requests alone: read-only exactly if
      every request is, a file or proc mount if some request is, and the first source given. */
  ghost predicate MergedFrom(rs: seq<Request>, m: Mount) {
    && Requested(rs, m.target)
    && (m.readOnly <==> forall i :: Asks(rs, i, m.target) ==> rs[i].readOnly)
    && (m.file <==> exists i :: Asks(rs, i, m.target) && rs[i].file)
    && (m.proc <==> exists i :: Asks(rs, i, m.target) && rs[i].proc)
    && SourceFrom(rs, m.target, m.source)
  }

  /** `source` is the first one given for the target, or empty if none is. */
  ghost predicate SourceFrom(rs: seq<Request>, t: Path, source: string) {
    if source == "" then forall i :: Asks(rs, i, t) ==> CleanSource(rs[i].source) == ""
    else exists i :: GivesSource(rs, t, source, i)
  }

  ghost predicate GivesSource(rs: seq<Request>, t: Path, source: string, i: int) {
    && Asks(rs, i, t) && CleanSource(rs[i].source) == source
    && forall j :: Asks(rs, j, t) && j < i ==> CleanSource(rs[j].source) == ""
  }

  /** `t` is requested before anything asks for `u`. */
  ghost predicate AskedBefore(rs: seq<Request>, t: Path, u: Path) {
    exists i :: Asks(rs, i, t) && forall j :: Asks(rs, j, u) ==> i < j
  }

  lemma AsksSnoc(rs: seq<Request>, r: Request, i: int, t: Path)
    ensures Asks(rs + [r], i, t) <==> Asks(rs, i, t) || (i == |rs| && r.target != "" && Clean(r.target) == t)
  {
  }

  lemma MergedKept(rs: seq<Request>, r: Request, m: Mount)
    requires MergedFrom(rs, m) && (r.target == "" || Clean(r.target) != m.target)
    ensures MergedFrom(rs + [r], m)
  {
    var all := rs + [r];
    forall i ensures Asks(all, i, m.target) <==> Asks(rs, i, m.target) { AsksSnoc(rs, r, i, m.target); }
    assert forall i :: Asks(rs, i, m.target) ==> all[i] == rs[i];
    if m.source != "" {
      var i :| GivesSource(rs, m.target, m.source, i);
      assert GivesSource(all, m.target, m.source, i);
    }
  }

  lemma CombinedSource(rs: seq<Request>, r: Request, m: Mount)
    requires SourceFrom(rs, m.target, m.source) && r.target != "" && Clean(r.target) == m.target
    ensures SourceFrom(rs + [r], m.target, Combine(m, AsMount(r)).source)
  {
    var all, t := rs + [r], m.target;
    forall i ensures Asks(all, i, t) <==> Asks(rs, i, t) || i == |rs| { AsksSnoc(rs, r, i, t); }
    assert forall i :: Asks(rs, i, t) ==> all[i] == rs[i];
    if m.source != "" {
      var i :| GivesSource(rs, t, m.source, i);
      assert GivesSource(all, t, m.source, i);
    } else if AsMount(r).source != "" {
      assert GivesSource(all, t, AsMount(r).source, |rs|);
    }
  }

  lemma MergedCombined(rs: seq<Request>, r: Request, m: Mount)
    requires MergedFrom(rs, m) && r.target != "" && Clean(r.target) == m.target
    ensures MergedFrom(rs + [r], Combine(m, AsMount(r)))
  {
    var all, t := rs + [r], m.target;
    forall i ensures Asks(all, i, t) <==> Asks(rs, i, t) || i == |rs| { AsksSnoc(rs, r, i, t); }
    assert forall i :: Asks(rs, i, t) ==> all[i] == rs[i];
    assert all[|rs|] == r && Asks(all, |rs|, t);
    CombinedSource(rs, r, m);
    if m.file { var i :| Asks(rs, i, t) && rs[i].file; assert Asks(all, i, t) && all[i].file; }
    if m.proc { var i :| Asks(rs, i, t) && rs[i].proc; assert Asks(all, i, t) && all[i].proc; }
  }

  lemma MergedFresh(rs: seq<Request>, r: Request)
    requires r.target != "" && !Requested(rs, Clean(r.target))
    ensures MergedFrom(rs + [r], AsMount(r))
  {
    var all, t := rs + [r], Clean(r.target);
    forall i ensures Asks(all, i, t) <==> i == |rs| { AsksSnoc(rs, r, i, t); }
    assert all[|rs|] == r && Asks(all, |rs|, t);
    assert AsMount(r).source != "" ==> GivesSource(all, t, AsMount(r).source, |rs|);
  }

  /** Merging yields one mount per requested target, each determined by its requests alone. */
  lemma {:induction false} MergeMeaning(rs: seq<Request>)
    ensures UniqueTargets(Merge(rs))
    ensures forall m :: m in Merge(rs) ==> MergedFrom(rs, m)
    ensures forall t :: Requested(rs, t) ==> exists m :: m in Merge(rs) && m.target == t
  {
    if rs != [] {
      var front, r := rs[..|rs| - 1], rs[|rs| - 1];
      assert rs == front + [r];
      MergeMeaning(front);
      var ms, t := Merge(front), Clean(r.target);
      var k := IndexOf(ms, t);
      forall m | m in Merge(rs) ensures MergedFrom(rs, m) {
        if r.target != "" && m.target == t {
          if k < |ms| {
            assert ms[k] in ms;
            MergedCombined(front, r, ms[k]);
          } else {
            MergedFresh(front, r);
          }
        } else {
          assert m in ms;
          MergedKept(front, r, m);
        }
      }
      forall u | Requested(rs, u) ensures exists m :: m in Merge(rs) && m.target == u {
        MergeCovers(front, r, u);
      }
    }
  }

  lemma MergeCovers(front: seq<Request>, r: Request, u: Path)
    requires Requested(front + [r], u)
    requires Requested(front, u) ==> exists m :: m in Merge(front) && m.target == u
    ensures exists m :: m in Add(Merge(front), r) && m.target == u
  {
    var ms, after := Merge(front), Add(Merge(front), r);
    if exists m :: m in ms && m.target == u {
      var i :| 0 <= i < |ms| && ms[i].target == u;
      assert after[i].target == u && after[i] in after;
    } else {
      var i :| Asks(front + [r], i, u);
      AsksSnoc(front, r, i, u);
      assert after == ms + [AsMount(r)];
      assert after[|ms|] in after;
    }
  }

  lemma AskedBeforeKept(front: seq<Request>, r: Request, t: Path, u: Path)
    requires AskedBefore(front, t, u)
    ensures AskedBefore(front + [r], t, u)
  {
    var i :| Asks(front, i, t) && forall j :: Asks(front, j, u) ==> i < j;
    assert Asks(front + [r], i, t);
    forall j | Asks(front + [r], j, u) ensures i < j { AsksSnoc(front, r, j, u); }
  }

  /** Merged mounts appear in the order in which their targets were first requested. */
  lemma {:induction false} MergeOrder(rs: seq<Request>)
    ensures forall i, j :: 0 <= i < j < |Merge(rs)| ==> AskedBefore(rs, Merge(rs)[i].target, Merge(rs)[j].target)
  {
    if rs != [] {
      var front, r := rs[..|rs| - 1], rs[|rs| - 1];
      assert rs == front + [r];
      MergeOrder(front);
      MergeMeaning(front);
      var ms, all := Merge(front), Merge(rs);
      forall i, j | 0 <= i < j < |all| ensures AskedBefore(rs, all[i].target, all[j].target) {
        assert i < |ms| && all[i].target == ms[i].target;
        if j < |ms| {
          assert all[j].target == ms[j].target;
          AskedBeforeKept(front, r, ms[i].target, ms[j].target);
        } else {
          assert ms[i] in ms;
          NewTargetComesLast(front, r, ms[i].target);
        }
      }
    }
  }

  lemma NewTargetComesLast(front: seq<Request>, r: Request, t: Path)
    requires Requested(front, t) && r.target != "" && !Requested(front, Clean(r.target))
    ensures AskedBefore(front + [r], t, Clean(r.target))
  {
    var i :| Asks(front, i, t);
    AsksSnoc(front, r, i, t);
    forall j | Asks(front + [r], j, Clean(r.target)) ensures i < j { AsksSnoc(front, r, j, Clean(r.target)); }
  }

  // ---- stable sort by depth ---------------------------------------------------------------

  function Insert(ms: seq<Mount>, m: Mount): seq<Mount> {
    if ms == [] || Depth(ms[|ms| - 1].target) <= Depth(m.target) then ms + [m]
    else Insert(ms[..|ms| - 1], m) + [ms[|ms| - 1]]
  }

  function SortByDepth(ms: seq<Mount>): seq<Mount> {
    if ms == [] then [] else Insert(SortByDepth(ms[..|ms| - 1]), ms[|ms| - 1])
  }

  ghost predicate Precedes(ms: seq<Mount>, a: Mount, b: Mount) {
    exists i, j :: 0 <= i < j < |ms| && ms[i] == a && ms[j] == b
  }

  ghost predicate SortedByDepth(ms: seq<Mount>) {
    forall i, j :: 0 <= i < j < |ms| ==> Depth(ms[i].target) <= Depth(ms[j].target)
  }

  lemma {:induction false} InsertContents(ms: seq<Mount>, m: Mount)
    ensures multiset(Insert(ms, m)) == multiset(ms) + multiset{m}
    ensures forall x :: x in Insert(ms, m) <==> x in ms || x == m
  {
    if ms != [] && Depth(ms[|ms| - 1].target) > Depth(m.target) {
      assert ms == ms[..|ms| - 1] + [ms[|ms| - 1]];
      InsertContents(ms[..|ms| - 1], m);
    }
  }

  lemma {:induction false} InsertSorted(ms: seq<Mount>, m: Mount)
    requires SortedByDepth(ms)
    ensures SortedByDepth(Insert(ms, m))
  {
    if ms != [] && Depth(ms[|ms| - 1].target) > Depth(m.target) {
      var front, last := ms[..|ms| - 1], ms[|ms| - 1];
      InsertSorted(front, m);
      InsertContents(front, m);
      var ins := Insert(front, m);
      assert forall i :: 0 <= i < |ins| ==> ins[i] in ins;
      assert forall x :: x in front ==> Depth(x.target) <= Depth(last.target);
    }
  }

  lemma {:induction false} InsertKeepsOrder(ms: seq<Mount>, m: Mount)
    ensures forall a, b :: Precedes(ms, a, b) ==> Precedes(Insert(ms, m), a, b)
  {
    if ms == [] || Depth(ms[|ms| - 1].target) <= Depth(m.target) {
      PrecedesConcat(ms, m);
    } else {
      var front, last := ms[..|ms| - 1], ms[|ms| - 1];
      assert ms == front + [last];
      InsertKeepsOrder(front, m);
      InsertContents(front, m);
      PrecedesConcat(Insert(front, m), last);
      PrecedesConcat(front, last);
    }
  }

  lemma {:induction false} InsertGoesBehind(ms: seq<Mount>, m: Mount)
    requires SortedByDepth(ms)
    ensures forall a :: a in ms && Depth(a.target) <= Depth(m.target) ==> Precedes(Insert(ms, m), a, m)
  {
    if ms == [] || Depth(ms[|ms| - 1].target) <= Depth(m.target) {
      PrecedesConcat(ms, m);
    } else {
      var front, last := ms[..|ms| - 1], ms[|ms| - 1];
      assert ms == front + [last];
      InsertGoesBehind(front, m);
      PrecedesConcat(Insert(front, m), last);
    }
  }

  lemma PrecedesConcat(ms: seq<Mount>, last: Mount)
    ensures forall a, b :: Precedes(ms, a, b) ==> Precedes(ms + [last], a, b)
    ensures forall a :: a in ms ==> Precedes(ms + [last], a, last)
    ensures forall a, b :: Precedes(ms + [last], a, b) ==> Precedes(ms, a, b) || (a in ms && b == last)
  {
    var all := ms + [last];
    forall a, b | Precedes(ms, a, b) ensures Precedes(all, a, b) {
      var i, j :| 0 <= i < j < |ms| && ms[i] == a && ms[j] == b;
      assert all[i] == a && all[j] == b;
    }
    forall a | a in ms ensures Precedes(all, a, last) {
      var i :| 0 <= i < |ms| && ms[i] == a;
      assert all[i] == a && all[|ms|] == last;
    }
    forall a, b | Precedes(all, a, b) ensures Precedes(ms, a, b) || (a in ms && b == last) {
      var i, j :| 0 <= i < j < |all| && all[i] == a && all[j] == b;
      assert ms[i] == a;
      if j < |ms| { assert ms[j] == b; }
    }
  }

  /** The result is a sorted permutation in which equally deep targets keep their order. */
  lemma {:induction false} SortIsStable(ms: seq<Mount>)
    ensures SortedByDepth(SortByDepth(ms))
    ensures multiset(SortByDepth(ms)) == multiset(ms)
    ensures forall a, b :: Precedes(ms, a, b) && Depth(a.target) <= Depth(b.target) ==> Precedes(SortByDepth(ms), a, b)
  {
    if ms != [] {
      var front, last := ms[..|ms| - 1], ms[|ms| - 1];
      assert ms == front + [last];
      SortIsStable(front);
      var sorted := SortByDepth(front);
      InsertContents(sorted, last);
      InsertSorted(sorted, last);
      InsertKeepsOrder(sorted, last);
      InsertGoesBehind(sorted, last);
      PrecedesConcat(front, last);
      assert forall a :: a in front ==> a in multiset(sorted);
    }
  }

  lemma {:induction false} SortKeepsUnique(ms: seq<Mount>)
    requires UniqueTargets(ms)
    ensures UniqueTargets(SortByDepth(ms))
    ensures forall m :: m in SortByDepth(ms) <==> m in ms
  {
    if ms != [] {
      var front, last := ms[..|ms| - 1], ms[|ms| - 1];
      SortKeepsUnique(front);
      InsertContents(SortByDepth(front), last);
      InsertUnique(SortByDepth(front), last);
    }
  }

  lemma {:induction false} InsertUnique(ms: seq<Mount>, m: Mount)
    requires UniqueTargets(ms) && forall x :: x in ms ==> x.target != m.target
    ensures UniqueTargets(Insert(ms, m))
  {
    if ms != [] && Depth(ms[|ms| - 1].target) > Depth(m.target) {
      var front, last := ms[..|ms| - 1], ms[|ms| - 1];
      InsertUnique(front, m);
      InsertContents(front, m);
      var ins := Insert(front, m);
      assert forall i :: 0 <= i < |ins| ==> ins[i] in ins;
    }
  }

  // ---- which mount a path ends up in ------------------------------------------------------

  function Compact(rs: seq<Request>): seq<Mount> {
    SortByDepth(Merge(rs))
  }

  predicate Covers(m: Mount, p: Path) {
    m.target <= p
  }

  /** Mounting over a directory hides what was mounted at or below it, so the last mount whose
      target contains the path decides. */
  function Effective(ms: seq<Mount>, p: Path): Option<Mount> {
    if ms == [] then None
    else if Covers(ms[|ms| - 1], p) then Some(ms[|ms| - 1])
    else Effective(ms[..|ms| - 1], p)
  }

  /** The mount that decides is the one with the longest target containing the path. */
  ghost predicate MostSpecific(ms: seq<Mount>, p: Path) {
    match Effective(ms, p)
    case None => forall m :: m in ms ==> !Covers(m, p)
    case Some(m) => m in ms && Covers(m, p) && forall n :: n in ms && Covers(n, p) ==> |n.target| <= |m.target|
  }

  /** If `/` is requested at all, no top-level directory is requested before it. */
  ghost predicate RootFirst(rs: seq<Request>) {
    Requested(rs, []) ==> forall c: string :: !AskedBefore(rs, [c], [])
  }

  lemma {:induction false} EffectiveIsLast(ms: seq<Mount>, p: Path)
    ensures Effective(ms, p).None? ==> forall m :: m in ms ==> !Covers(m, p)
    ensures Effective(ms, p).Some? ==>
              exists k :: 0 <= k < |ms| && ms[k] == Effective(ms, p).value && Covers(ms[k], p) &&
                          forall j :: k < j < |ms| ==> !Covers(ms[j], p)
  {
    if ms != [] && !Covers(ms[|ms| - 1], p) {
      EffectiveIsLast(ms[..|ms| - 1], p);
    }
  }

  lemma UniqueOrder(ms: seq<Mount>, a: Mount, b: Mount)
    requires UniqueTargets(ms) && a in ms && b in ms && a != b
    ensures Precedes(ms, a, b) || Precedes(ms, b, a)
    ensures !(Precedes(ms, a, b) && Precedes(ms, b, a))
  {
    var i :| 0 <= i < |ms| && ms[i] == a;
    var j :| 0 <= j < |ms| && ms[j] == b;
  }

  /** Both orders at once are impossible. */
  lemma AskedBeforeOneWay(rs: seq<Request>, t: Path, u: Path)
    requires AskedBefore(rs, t, u)
    ensures !AskedBefore(rs, u, t)
  {
    var i :| Asks(rs, i, t) && forall j :: Asks(rs, j, u) ==> i < j;
  }

  lemma MergedInRequestOrder(rs: seq<Request>, a: Mount, b: Mount)
    requires Precedes(Merge(rs), a, b)
    ensures AskedBefore(rs, a.target, b.target)
  {
    MergeOrder(rs);
  }

  /** Equally deep targets are mounted in the order in which they were first requested. */
  lemma EqualDepthOrder(rs: seq<Request>, a: Mount, b: Mount)
    requires a in Merge(rs) && b in Merge(rs) && a.target != b.target && Depth(a.target) == Depth(b.target)
    ensures Precedes(Compact(rs), a, b) <==> AskedBefore(rs, a.target, b.target)
  {
    var merged := Merge(rs);
    MergeMeaning(rs);
    SortIsStable(merged);
    SortKeepsUnique(merged);
    UniqueOrder(merged, a, b);
    UniqueOrder(Compact(rs), a, b);
    if Precedes(merged, a, b) {
      MergedInRequestOrder(rs, a, b);
    } else {
      MergedInRequestOrder(rs, b, a);
      AskedBeforeOneWay(rs, b.target, a.target);
    }
  }

  /** A longer covering target can only be mounted earlier if it is top-level and the other is `/`. */
  lemma LongerComesLater(rs: seq<Request>, n: Mount, m: Mount)
    requires RootFirst(rs) && n in Merge(rs) && m in Merge(rs) && |n.target| > |m.target|
    ensures !Precedes(Compact(rs), n, m)
  {
    if Precedes(Compact(rs), n, m) {
      assert m.target == [] && |n.target| == 1 by { SortIsStable(Merge(rs)); }
      assert Requested(rs, []) by { MergeMeaning(rs); }
      var c := n.target[0];
      assert n.target == [c];
      EqualDepthOrder(rs, n, m);
    }
  }

  lemma CompactIsMerged(rs: seq<Request>, m: Mount)
    requires m in Compact(rs)
    ensures m in Merge(rs)
  {
    MergeMeaning(rs);
    SortKeepsUnique(Merge(rs));
  }

  lemma LastIsLongest(rs: seq<Request>, j: nat, k: nat)
    requires RootFirst(rs) && j <= k < |Compact(rs)|
    ensures |Compact(rs)[j].target| <= |Compact(rs)[k].target|
  {
    var ms := Compact(rs);
    if j < k && |ms[j].target| > |ms[k].target| {
      CompactIsMerged(rs, ms[j]);
      CompactIsMerged(rs, ms[k]);
      assert Precedes(ms, ms[j], ms[k]);
      LongerComesLater(rs, ms[j], ms[k]);
    }
  }

  lemma RootFirstSuffices(rs: seq<Request>, p: Path)
    requires RootFirst(rs)
    ensures MostSpecific(Compact(rs), p)
  {
    var ms := Compact(rs);
    EffectiveIsLast(ms, p);
    if Effective(ms, p).Some? {
      var m := Effective(ms, p).value;
      var k :| 0 <= k < |ms| && ms[k] == m && Covers(ms[k], p) && forall j :: k < j < |ms| ==> !Covers(ms[j], p);
      forall n | n in ms && Covers(n, p) ensures |n.target| <= |m.target| {
        var j :| 0 <= j < |ms| && ms[j] == n;
        LastIsLongest(rs, j, k);
      }
    }
  }

  lemma RootFirstNeeded(rs: seq<Request>, c: string)
    requires Requested(rs, []) && AskedBefore(rs, [c], [])
    ensures !MostSpecific(Compact(rs), [c])
  {
    var ms := Compact(rs);
    MergeMeaning(rs);
    SortKeepsUnique(Merge(rs));
    assert Requested(rs, [c]);
    var root :| root in Merge(rs) && root.target == [];
    var top :| top in Merge(rs) && top.target == [c];
    EqualDepthOrder(rs, top, root);
    var i, j :| 0 <= i < j < |ms| && ms[i] == top && ms[j] == root;
    LastCovering(ms, [c], j, i);
  }

  /** With unique targets, a mount that covers `p` and comes after the mount at `p` hides it. */
  lemma LastCovering(ms: seq<Mount>, p: Path, j: nat, i: nat)
    requires UniqueTargets(ms) && i < j < |ms| && ms[i].target == p && Covers(ms[j], p)
    ensures !MostSpecific(ms, p)
  {
    EffectiveIsLast(ms, p);
    var m := Effective(ms, p).value;
    var k :| 0 <= k < |ms| && ms[k] == m && Covers(ms[k], p) && forall x :: k < x < |ms| ==> !Covers(ms[x], p);
    assert k >= j;
    assert m.target != p;
    assert ms[i] in ms && Covers(ms[i], p) && |m.target| < |p|;
  }

  /** Main result.  The sequence of mounts means "most specific target wins" for every path,
      exactly when no top-level directory is requested before `/`; in particular whenever `/` is
      not requested. */
  lemma MostSpecificTargetWins(rs: seq<Request>)
    ensures (forall p: Path :: MostSpecific(Compact(rs), p)) <==> RootFirst(rs)
    ensures !Requested(rs, []) ==> forall p: Path :: MostSpecific(Compact(rs), p)
  {
    if RootFirst(rs) {
      forall p: Path ensures MostSpecific(Compact(rs), p) { RootFirstSuffices(rs, p); }
    } else {
      var c :| AskedBefore(rs, [c], []);
      RootFirstNeeded(rs, c);
    }
  }

  /** The code compares separator counts of printed targets: for a compacted list they are the
      depths. */
  lemma CompactDepths(rs: seq<Request>, m: Mount)
    requires m in Compact(rs)
    ensures Separators(Render(m.target)) == Depth(m.target)
  {
    CompactIsMerged(rs, m);
    MergeMeaning(rs);
    var i :| Asks(rs, i, m.target);
    CleanIsCleaned(rs[i].target);
    DepthCountsSeparators(m.target);
  }

  /** The compacted list holds one mount per requested target, merged as the requests say. */
  lemma CompactMeaning(rs: seq<Request>)
    ensures UniqueTargets(Compact(rs)) && SortedByDepth(Compact(rs))
    ensures forall m :: m in Compact(rs) ==> MergedFrom(rs, m)
    ensures forall t :: Requested(rs, t) ==> exists m :: m in Compact(rs) && m.target == t
  {
    MergeMeaning(rs);
    SortIsStable(Merge(rs));
    SortKeepsUnique(Merge(rs));
    forall t | Requested(rs, t) ensures exists m :: m in Compact(rs) && m.target == t {
      var m :| m in Merge(rs) && m.target == t;
      assert m in Compact(rs);
    }
  }

  /** A concrete list on which the order goes wrong: `/bin` and then `/`. */
  lemma RootAfterBinHidesIt(bin: Request, root: Request)
    requires bin.target != "" && root.target != "" && Clean(bin.target) == ["bin"] && Clean(root.target) == []
    ensures !MostSpecific(Compact([bin, root]), ["bin"])
  {
    var rs := [bin, root];
    assert Asks(rs, 0, ["bin"]) && Asks(rs, 1, []);
    assert AskedBefore(rs, ["bin"], []);
    RootFirstNeeded(rs, "bin");
  }

  // ---- the code ---------------------------------------------------------------------------

  lemma AddKeepsUnique(ms: seq<Mount>, r: Request)
    requires UniqueTargets(ms)
    ensures UniqueTargets(Add(ms, r))
  {
  }

  /** The index knows the position of every target. */
  ghost predicate Indexes(seen: map<Path, nat>, ms: seq<Mount>) {
    && (forall t :: t in seen ==> seen[t] < |ms| && ms[seen[t]].target == t)
    && (forall i :: 0 <= i < |ms| ==> ms[i].target in seen)
  }

  /** compactSandboxMounts: an index by target, updated in place, then the stable sort. */
  method CompactSandboxMounts(rs: seq<Request>) returns (result: seq<Mount>)
    ensures result == Compact(rs)
  {
    var seen: map<Path, nat> := map[];
    result := [];
    for n := 0 to |rs|
      invariant result == Merge(rs[..n]) && UniqueTargets(result) && Indexes(seen, result)
    {
      assert rs[..n + 1][..n] == rs[..n];
      AddKeepsUnique(result, rs[n]);
      if rs[n].target == "" {
        continue;
      }
      var mount := AsMount(rs[n]);
      if mount.target in seen {
        result := MergeInto(result, seen[mount.target], mount);
        assert result == Add(Merge(rs[..n]), rs[n]);
      } else {
        seen := seen[mount.target := |result|];
        result := result + [mount];
      }
    }
    assert rs[..|rs|] == rs;
    result := SortByDepth(result);
  }

  method MergeInto(ms: seq<Mount>, index: nat, mount: Mount) returns (result: seq<Mount>)
    requires UniqueTargets(ms) && index < |ms| && ms[index].target == mount.target
    ensures result == ms[IndexOf(ms, mount.target) := Combine(ms[index], mount)] && IndexOf(ms, mount.target) == index
  {
    var existing := ms[index];
    existing := existing.(readOnly := existing.readOnly && mount.readOnly);
    existing := existing.(file := existing.file || mount.file);
    existing := existing.(proc := existing.proc || mount.proc);
    if existing.source == "" {
      existing := existing.(source := mount.source);
    }
    result := ms[index := existing];
  }

  /** The mounts made so far, oldest first, each at its place below the sandbox root. */
  class MountTable {
    var mounts: seq<Mount>

    method Perform(m: Mount)
      modifies this
      ensures mounts == old(mounts) + [m]
    {
      mounts := mounts + [m];
    }

    /** Detaches the youngest mount at exactly this place. */
    method Detach(target: Path)
      requires mounts != [] && mounts[|mounts| - 1].target == target
      modifies this
      ensures mounts == old(mounts)[..|old(mounts)| - 1]
    {
      mounts := mounts[..|mounts| - 1];
    }

    /** The mount loop of prepareRoot: all mounts in order, or, when the one at `failAt` fails,
        none of them. */
    method MountAll(root: Path, plan: seq<Mount>, failAt: Option<nat>) returns (ok: bool)
      modifies this
      ensures ok <==> failAt.None? || failAt.value >= |plan|
      ensures ok ==> mounts == old(mounts) + Rooted(root, plan)
      ensures !ok ==> mounts == old(mounts)
    {
      var mounted: seq<Path> := [];
      for i := 0 to |plan|
        invariant failAt.None? || failAt.value >= i
        invariant mounts == old(mounts) + Rooted(root, plan[..i])
        invariant |mounted| == i && forall j :: 0 <= j < i ==> mounted[j] == root + plan[j].target
      {
        if failAt == Some(i) {
          UnmountAll(mounted, old(mounts));
          return false;
        }
        assert Rooted(root, plan[..i + 1]) == Rooted(root, plan[..i]) + [plan[i].(target := root + plan[i].target)];
        Perform(plan[i].(target := root + plan[i].target));
        mounted := mounted + [root + plan[i].target];
      }
      assert plan[..|plan|] == plan;
      ok := true;
    }

    /** The failure path detaches in reverse order. */
    method UnmountAll(mounted: seq<Path>, ghost before: seq<Mount>)
      requires |mounts| == |before| + |mounted| && before <= mounts
      requires forall j :: 0 <= j < |mounted| ==> mounts[|before| + j].target == mounted[j]
      modifies this
      ensures mounts == before
    {
      for i := |mounted| downto 0
        invariant |mounts| == |before| + i && before <= mounts
        invariant forall j :: 0 <= j < i ==> mounts[|before| + j].target == mounted[j]
      {
        Detach(mounted[i]);
      }
    }
  }

  /** sandboxTarget: every target moved below the root. */
  function Rooted(root: Path, plan: seq<Mount>): seq<Mount> {
    seq(|plan|, i requires 0 <= i < |plan| => plan[i].(target := root + plan[i].target))
  }

  /** Below the root, a path resolves as the plan says. */
  lemma {:induction false} RootedResolves(root: Path, plan: seq<Mount>, p: Path)
    ensures Effective(Rooted(root, plan), root + p).Some? <==> Effective(plan, p).Some?
    ensures Effective(plan, p).Some? ==>
              Effective(Rooted(root, plan), root + p).value ==
              Effective(plan, p).value.(target := root + Effective(plan, p).value.target)
  {
    if plan != [] {
      var front, last := plan[..|plan| - 1], plan[|plan| - 1];
      RootedResolves(root, front, p);
      var rooted := Rooted(root, plan);
      assert rooted[..|plan| - 1] == Rooted(root, front);
      RootedCovers(root, last, p);
    }
  }

  lemma RootedCovers(root: Path, m: Mount, p: Path)
    ensures Covers(m.(target := root + m.target), root + p) <==> Covers(m, p)
  {
    var whole := root + p;
    if Covers(m, p) {
      assert root + m.target == whole[..|root| + |m.target|];
    }
    if Covers(m.(target := root + m.target), whole) {
      assert p == whole[|root|..];
      assert m.target == whole[..|root| + |m.target|][|root|..];
      assert m.target == p[..|m.target|];
    }
  }
}
