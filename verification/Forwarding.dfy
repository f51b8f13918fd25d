/** Saving, changing and restoring the kernel's forwarding settings
    (route/lanternapi/forwarding_linux.go).

    The settings live in /proc/sys/net.  Writing `conf/all/forwarding` overwrites the `forwarding`
    value of every interface of that address family (Linux ip-sysctl, `conf/all/forwarding`), so the
    order in which settings are recorded and rewritten matters. */
module Forwarding {
  import opened Runs

  datatype Leaf = Forwards | SendRedirects | AcceptRA

  /** /proc/sys/net/ipv{4,6}/conf/<iface>/<leaf> */
  datatype Sysctl = Sysctl(v6: bool, iface: string, leaf: Leaf)

  type World = map<Sysctl, string>

  datatype Setting = Setting(key: Sysctl, before: string, value: string)

  datatype Assign = Assign(key: Sysctl, value: string)

  const V6All: Sysctl := Sysctl(true, "all", Forwards)

  /** A write reaches `k` directly, or through the `all` entry of its address family. */
  predicate Reaches(written: Sysctl, k: Sysctl) {
    || k == written
    || (written.iface == "all" && written.leaf.Forwards? && k.leaf.Forwards? && k.v6 == written.v6)
  }

  /** The kernel's reaction to writing one existing file; a missing file changes nothing. */
  function Put(w: World, a: Assign): World {
    if a.key in w then map k | k in w :: if Reaches(a.key, k) then a.value else w[k] else w
  }

  function PutAll(w: World, writes: seq<Assign>): World {
    if writes == [] then w else PutAll(Put(w, writes[0]), writes[1..])
  }

  function Keys(ss: seq<Setting>): set<Sysctl> {
    set s | s in ss :: s.key
  }

  function ValueWrites(ss: seq<Setting>): seq<Assign> {
    seq(|ss|, i requires 0 <= i < |ss| => Assign(ss[i].key, ss[i].value))
  }

  // ---- what prepareForwarding plans -------------------------------------------------------

  predicate ValidInterface(iface: string) {
    iface != "" && '/' !in iface && '\\' !in iface && iface != "." && iface != ".."
  }

  /** The globbed interfaces other than `all`, each to be rewritten with a value found later. */
  function InterfaceWrites(glob: seq<string>): seq<Assign> {
    if glob == [] then []
    else
      InterfaceWrites(glob[..|glob| - 1]) +
      (if glob[|glob| - 1] == "all" then [] else [Assign(Sysctl(true, glob[|glob| - 1], Forwards), "")])
  }

  function Candidates(iface: string, ipv6: bool, glob: seq<string>): seq<Assign> {
    [Assign(Sysctl(false, iface, Forwards), "1"),
     Assign(Sysctl(false, iface, SendRedirects), "0"),
     Assign(Sysctl(false, "all", SendRedirects), "0")] +
    (if ipv6
     then [Assign(V6All, "1")] + InterfaceWrites(glob) + [Assign(Sysctl(true, iface, AcceptRA), "2")]
     else [])
  }

  /** One candidate with its current value recorded; an empty target means "keep", except for the
      gateway interface itself. */
  function Recorded(w: World, iface: string, c: Assign): Setting
    requires c.key in w
  {
    var before := w[c.key];
    Setting(c.key, before, if c.value != "" then c.value else if c.key.iface == iface then "1" else before)
  }

  /** IPv6 forwarding entries are kept even when they do not change. */
  predicate Kept(s: Setting) {
    s.before != s.value || (s.key.v6 && s.key.leaf.Forwards?)
  }

  function Plan(w: World, iface: string, cs: seq<Assign>): seq<Setting>
    requires forall c :: c in cs ==> c.key in w
  {
    if cs == [] then []
    else
      var s := Recorded(w, iface, cs[|cs| - 1]);
      Plan(w, iface, cs[..|cs| - 1]) + (if Kept(s) then [s] else [])
  }

  // ---- what restore writes ----------------------------------------------------------------

  /** A setting someone else has changed meanwhile is left at the foreign value. */
  function Undo(w: World, s: Setting): Assign
    requires s.key in w
  {
    Assign(s.key, if w[s.key] == s.value then s.before else w[s.key])
  }

  /** Settings whose file has disappeared are skipped. */
  function RestoreWrites(w: World, ss: seq<Setting>): seq<Assign> {
    if ss == [] then []
    else RestoreWrites(w, ss[..|ss| - 1]) +
         (if ss[|ss| - 1].key in w then [Undo(w, ss[|ss| - 1])] else [])
  }

  function Restored(w: World, ss: seq<Setting>): World {
    PutAll(w, RestoreWrites(w, ss))
  }

  // ---- order and coverage of a recorded list ----------------------------------------------

  ghost predicate DistinctKeys(writes: seq<Assign>) {
    forall i, j :: 0 <= i < j < |writes| ==> writes[i].key != writes[j].key
  }

  /** Whatever a write overwrites indirectly is written again further down the list. */
  ghost predicate Rewritten(keys: set<Sysctl>, writes: seq<Assign>) {
    forall i, k :: 0 <= i < |writes| && k in keys && Reaches(writes[i].key, k) && k != writes[i].key ==>
      exists j :: i < j < |writes| && writes[j].key == k
  }

  ghost predicate Targets(writes: seq<Assign>, k: Sysctl) {
    exists a :: a in writes && a.key == k
  }

  lemma {:induction false} PutAllMeaning(w: World, writes: seq<Assign>)
    requires DistinctKeys(writes) && Rewritten(w.Keys, writes)
    ensures PutAll(w, writes).Keys == w.Keys
    ensures forall k :: k in w ==>
      && (!Targets(writes, k) ==> PutAll(w, writes)[k] == w[k])
      && (forall a :: a in writes && a.key == k ==> PutAll(w, writes)[k] == a.value)
  {
    if writes != [] {
      var w1, rest := Put(w, writes[0]), writes[1..];
      assert w1.Keys == w.Keys;
      forall i, k | 0 <= i < |rest| && k in w.Keys && Reaches(rest[i].key, k) && k != rest[i].key
        ensures exists j :: i < j < |rest| && rest[j].key == k
      {
        assert writes[i + 1] == rest[i];
        var j :| i + 1 < j < |writes| && writes[j].key == k;
        assert rest[j - 1].key == k;
      }
      PutAllMeaning(w1, rest);
      forall k | k in w
        ensures !Targets(writes, k) ==> PutAll(w, writes)[k] == w[k]
        ensures forall a :: a in writes && a.key == k ==> PutAll(w, writes)[k] == a.value
      {
        if !Targets(rest, k) {
          assert forall j :: 0 < j < |writes| ==> writes[j] == rest[j - 1] && rest[j - 1] in rest;
          assert Reaches(writes[0].key, k) ==> k == writes[0].key;
          assert writes[0] in writes;
          assert forall a :: a in writes && a.key == k ==> a == writes[0];
        } else {
          var b :| b in rest && b.key == k;
          assert b in writes;
          assert forall a :: a in writes ==> a == writes[0] || a in rest;
        }
      }
    }
  }

  /** Any prefix of such a list leaves every setting alone that the whole list does not name. */
  lemma {:induction false} PrefixLeavesOthers(w: World, writes: seq<Assign>, n: nat, k: Sysctl)
    requires n <= |writes| && Rewritten(w.Keys, writes) && k in w && !Targets(writes, k)
    ensures PutAll(w, writes[..n]).Keys == w.Keys && PutAll(w, writes[..n])[k] == w[k]
  {
    if n > 0 {
      PrefixLeavesOthers(w, writes, n - 1, k);
      PutAllSnoc(w, writes, n - 1);
      assert writes[n - 1] in writes;
      assert forall j :: 0 <= j < |writes| ==> writes[j] in writes;
      assert !Reaches(writes[n - 1].key, k);
    }
  }

  lemma {:induction false} PutAllSnoc(w: World, writes: seq<Assign>, n: nat)
    requires n < |writes|
    ensures PutAll(w, writes[..n + 1]) == Put(PutAll(w, writes[..n]), writes[n])
    decreases n
  {
    if n > 0 {
      var rest := writes[1..];
      PutAllSnoc(Put(w, writes[0]), rest, n - 1);
      assert writes[..n + 1][1..] == rest[..n];
      assert writes[..n][1..] == rest[..n - 1];
    } else {
      assert writes[..1][1..] == [];
      assert writes[..1][0] == writes[0];
    }
  }

  // ---- recorded lists ---------------------------------------------------------------------

  /** A list of settings whose undo is well defined over the files in `keys`. */
  ghost predicate Undoable(keys: set<Sysctl>, ss: seq<Setting>) {
    DistinctKeys(ValueWrites(ss)) && Rewritten(keys, ValueWrites(ss))
  }

  /** ... and which remembers the values that `w` holds. */
  ghost predicate RecordOf(w: World, ss: seq<Setting>) {
    && Undoable(w.Keys, ss)
    && (forall s :: s in ss ==> s.key in w && s.before == w[s.key])
  }

  ghost predicate Lists(w: World, glob: seq<string>) {
    && (forall i, j :: 0 <= i < j < |glob| ==> glob[i] != glob[j])
    && (forall x :: x in glob <==> Sysctl(true, x, Forwards) in w)
  }

  predicate V6Interface(k: Sysctl) {
    k.v6 && k.leaf.Forwards? && k.iface != "all"
  }

  /** `j` may follow `i`: they differ, and the `all` entry never follows an interface entry. */
  predicate MayFollow(i: Sysctl, j: Sysctl) {
    i != j && (V6Interface(i) ==> j != V6All)
  }

  ghost predicate Ordered(writes: seq<Assign>) {
    forall i, j :: 0 <= i < j < |writes| ==> MayFollow(writes[i].key, writes[j].key)
  }

  lemma OrderedConcat(a: seq<Assign>, b: seq<Assign>)
    requires Ordered(a) && Ordered(b)
    requires forall x, y :: x in a && y in b ==> MayFollow(x.key, y.key)
    ensures Ordered(a + b)
  {
    forall i, j | 0 <= i < j < |a + b| ensures MayFollow((a + b)[i].key, (a + b)[j].key) {
      if i < |a| <= j {
        assert a[i] in a && b[j - |a|] in b;
      }
    }
  }

  lemma {:induction false} InterfaceWritesKeys(glob: seq<string>)
    ensures forall a :: a in InterfaceWrites(glob) ==> V6Interface(a.key) && a.key.iface in glob
    ensures forall x :: x in glob && x != "all" ==> Assign(Sysctl(true, x, Forwards), "") in InterfaceWrites(glob)
  {
    if glob != [] {
      InterfaceWritesKeys(glob[..|glob| - 1]);
    }
  }

  /** The interface entries are ordered and are exactly those of the globbed names except `all`. */
  lemma {:induction false} InterfaceWritesList(glob: seq<string>)
    requires forall i, j :: 0 <= i < j < |glob| ==> glob[i] != glob[j]
    ensures Ordered(InterfaceWrites(glob))
    ensures forall a :: a in InterfaceWrites(glob) ==> V6Interface(a.key) && a.key.iface in glob
    ensures forall x :: x in glob && x != "all" ==> Assign(Sysctl(true, x, Forwards), "") in InterfaceWrites(glob)
  {
    InterfaceWritesKeys(glob);
    if glob != [] {
      var front, x := glob[..|glob| - 1], glob[|glob| - 1];
      InterfaceWritesList(front);
      if x != "all" {
        OrderedConcat(InterfaceWrites(front), [Assign(Sysctl(true, x, Forwards), "")]);
      }
    }
  }

  function V4Candidates(iface: string): seq<Assign> {
    Candidates(iface, false, [])
  }

  function V6Candidates(iface: string, glob: seq<string>): seq<Assign> {
    [Assign(V6All, "1")] + InterfaceWrites(glob) + [Assign(Sysctl(true, iface, AcceptRA), "2")]
  }

  lemma V6Ordered(iface: string, glob: seq<string>)
    requires forall i, j :: 0 <= i < j < |glob| ==> glob[i] != glob[j]
    ensures Ordered(V6Candidates(iface, glob))
    ensures forall a :: a in V6Candidates(iface, glob) ==> a.key.v6
  {
    InterfaceWritesList(glob);
    OrderedConcat([Assign(V6All, "1")], InterfaceWrites(glob));
    OrderedConcat([Assign(V6All, "1")] + InterfaceWrites(glob), [Assign(Sysctl(true, iface, AcceptRA), "2")]);
  }

  lemma V4Ordered(iface: string)
    requires iface != "all"
    ensures Ordered(V4Candidates(iface))
    ensures forall a :: a in V4Candidates(iface) ==> !a.key.v6
  {
  }

  lemma CandidatesOrdered(iface: string, ipv6: bool, glob: seq<string>)
    requires forall i, j :: 0 <= i < j < |glob| ==> glob[i] != glob[j]
    requires iface != "all"
    ensures Ordered(Candidates(iface, ipv6, glob))
  {
    V4Ordered(iface);
    if ipv6 {
      V6Ordered(iface, glob);
      OrderedConcat(V4Candidates(iface), V6Candidates(iface, glob));
      assert Candidates(iface, true, glob) == V4Candidates(iface) + V6Candidates(iface, glob);
    }
  }

  /** Only the IPv6 `all` entry overwrites others, and every interface it reaches is a candidate. */
  lemma CandidatesCover(w: World, iface: string, ipv6: bool, glob: seq<string>, c: Assign, k: Sysctl)
    requires iface != "all" && Lists(w, glob)
    requires c in Candidates(iface, ipv6, glob) && k in w && Reaches(c.key, k) && k != c.key
    ensures c.key == V6All && V6Interface(k) && Assign(k, "") in Candidates(iface, ipv6, glob)
  {
    InterfaceWritesList(glob);
    var inner := InterfaceWrites(glob);
    assert c.key == V6All;
    assert k == Sysctl(true, k.iface, Forwards);
    assert Assign(k, "") in inner;
  }

  lemma {:induction false} PlanSelects(w: World, iface: string, cs: seq<Assign>)
    requires forall c :: c in cs ==> c.key in w
    ensures forall c :: c in cs && Kept(Recorded(w, iface, c)) ==> Recorded(w, iface, c) in Plan(w, iface, cs)
    ensures forall s :: s in Plan(w, iface, cs) ==> exists c :: c in cs && s == Recorded(w, iface, c)
  {
    if cs != [] {
      PlanSelects(w, iface, cs[..|cs| - 1]);
      assert cs == cs[..|cs| - 1] + [cs[|cs| - 1]];
    }
  }

  lemma WritesOf(ss: seq<Setting>, x: Assign)
    requires x in ValueWrites(ss)
    ensures exists s :: s in ss && x == Assign(s.key, s.value)
  {
    var i :| 0 <= i < |ss| && x == ValueWrites(ss)[i];
    assert ss[i] in ss;
  }

  lemma {:induction false} PlanOrdered(w: World, iface: string, cs: seq<Assign>)
    requires forall c :: c in cs ==> c.key in w
    requires Ordered(cs)
    ensures Ordered(ValueWrites(Plan(w, iface, cs)))
  {
    if cs != [] {
      var c, front := cs[|cs| - 1], cs[..|cs| - 1];
      PlanOrdered(w, iface, front);
      var ss, s := Plan(w, iface, front), Recorded(w, iface, c);
      if Kept(s) {
        forall x | x in ValueWrites(ss) ensures MayFollow(x.key, c.key) {
          PlannedBefore(w, iface, cs, x);
        }
        OrderedConcat(ValueWrites(ss), [Assign(s.key, s.value)]);
        assert ValueWrites(Plan(w, iface, cs)) == ValueWrites(ss) + [Assign(s.key, s.value)];
      } else {
        assert Plan(w, iface, cs) == ss;
      }
    }
  }

  lemma PlannedBefore(w: World, iface: string, cs: seq<Assign>, x: Assign)
    requires cs != [] && Ordered(cs) && forall c :: c in cs ==> c.key in w
    requires x in ValueWrites(Plan(w, iface, cs[..|cs| - 1]))
    ensures MayFollow(x.key, cs[|cs| - 1].key)
  {
    var front := cs[..|cs| - 1];
    var ss := Plan(w, iface, front);
    WritesOf(ss, x);
    var s :| s in ss && x == Assign(s.key, s.value);
    PlanSelects(w, iface, front);
    var y :| y in front && s == Recorded(w, iface, y);
    var i :| 0 <= i < |front| && front[i] == y;
    assert cs[i] == y;
  }

  lemma AllComesFirst(writes: seq<Assign>, i: nat, j: nat)
    requires Ordered(writes) && i < |writes| && j < |writes| && writes[i].key == V6All && V6Interface(writes[j].key)
    ensures i < j
  {
  }

  /** A setting that the write at `i` overwrites indirectly is written again after it. */
  lemma RewrittenLater(w: World, iface: string, ipv6: bool, glob: seq<string>, i: nat, k: Sysctl)
    requires iface != "all" && Lists(w, glob)
    requires forall c :: c in Candidates(iface, ipv6, glob) ==> c.key in w
    requires var writes := ValueWrites(Plan(w, iface, Candidates(iface, ipv6, glob)));
             && Ordered(writes) && i < |writes|
             && k in w && Reaches(writes[i].key, k) && k != writes[i].key
    ensures var writes := ValueWrites(Plan(w, iface, Candidates(iface, ipv6, glob)));
            exists j :: i < j < |writes| && writes[j].key == k
  {
    var cs := Candidates(iface, ipv6, glob);
    var ss := Plan(w, iface, cs);
    var writes := ValueWrites(ss);
    PlanSelects(w, iface, cs);
    assert ss[i] in ss;
    var c :| c in cs && ss[i] == Recorded(w, iface, c);
    CandidatesCover(w, iface, ipv6, glob, c, k);
    var s := Recorded(w, iface, Assign(k, ""));
    assert s in ss;
    var j :| 0 <= j < |ss| && ss[j] == s;
    assert writes[j].key == k;
    AllComesFirst(writes, i, j);
  }

  /** The plan for any real interface is a record of the table that can be undone. */
  lemma PlanIsRecord(w: World, iface: string, ipv6: bool, glob: seq<string>)
    requires iface != "all" && Lists(w, glob)
    requires forall c :: c in Candidates(iface, ipv6, glob) ==> c.key in w
    ensures RecordOf(w, Plan(w, iface, Candidates(iface, ipv6, glob)))
  {
    var cs := Candidates(iface, ipv6, glob);
    CandidatesOrdered(iface, ipv6, glob);
    PlanOrdered(w, iface, cs);
    PlanSelects(w, iface, cs);
    var writes := ValueWrites(Plan(w, iface, cs));
    forall i, k | 0 <= i < |writes| && k in w.Keys && Reaches(writes[i].key, k) && k != writes[i].key
      ensures exists j :: i < j < |writes| && writes[j].key == k
    {
      RewrittenLater(w, iface, ipv6, glob, i, k);
    }
    assert DistinctKeys(writes) by { OrderedDistinct(writes); }
  }

  lemma OrderedDistinct(writes: seq<Assign>)
    requires Ordered(writes)
    ensures DistinctKeys(writes)
  {
    forall i, j | 0 <= i < j < |writes| ensures writes[i].key != writes[j].key {
      assert MayFollow(writes[i].key, writes[j].key);
    }
  }

  /** What a successful prepare leaves in each file: only the gateway interface's own entries and
      the `all` entries change; other interfaces keep their forwarding value although writing the
      IPv6 `all` entry overwrote it. */
  function Wanted(w: World, iface: string, ipv6: bool, k: Sysctl): string
    requires k in w
  {
    if k == Sysctl(false, iface, Forwards) then "1"
    else if k == Sysctl(false, iface, SendRedirects) || k == Sysctl(false, "all", SendRedirects) then "0"
    else if ipv6 && (k == V6All || k == Sysctl(true, iface, Forwards)) then "1"
    else if ipv6 && k == Sysctl(true, iface, AcceptRA) then "2"
    else w[k]
  }

  lemma CandidateWanted(w: World, iface: string, ipv6: bool, glob: seq<string>, c: Assign)
    requires iface != "all" && Lists(w, glob) && c in Candidates(iface, ipv6, glob) && c.key in w
    ensures Recorded(w, iface, c).value == Wanted(w, iface, ipv6, c.key)
  {
    InterfaceWritesList(glob);
    InterfaceTargetsEmpty(glob);
  }

  lemma {:induction false} InterfaceTargetsEmpty(glob: seq<string>)
    ensures forall a :: a in InterfaceWrites(glob) ==> a.value == ""
  {
    if glob != [] { InterfaceTargetsEmpty(glob[..|glob| - 1]); }
  }

  lemma WantedIsCandidate(w: World, iface: string, ipv6: bool, glob: seq<string>, k: Sysctl)
    requires Lists(w, glob) && k in w && !Targets(Candidates(iface, ipv6, glob), k)
    ensures Wanted(w, iface, ipv6, k) == w[k]
  {
    var cs := Candidates(iface, ipv6, glob);
    assert cs[0] in cs && cs[1] in cs && cs[2] in cs;
    if ipv6 {
      assert cs[3] in cs && cs[3] == Assign(V6All, "1");
      assert cs[|cs| - 1] in cs && cs[|cs| - 1] == Assign(Sysctl(true, iface, AcceptRA), "2");
      if k == Sysctl(true, iface, Forwards) && iface != "all" {
        CandidatesCover(w, iface, ipv6, glob, cs[3], k);
      }
    }
  }

  lemma PrepareMeaning(w: World, iface: string, ipv6: bool, glob: seq<string>, k: Sysctl)
    requires iface != "all" && Lists(w, glob) && k in w
    requires forall c :: c in Candidates(iface, ipv6, glob) ==> c.key in w
    ensures var w' := PutAll(w, ValueWrites(Plan(w, iface, Candidates(iface, ipv6, glob))));
            w'.Keys == w.Keys && w'[k] == Wanted(w, iface, ipv6, k)
  {
    var cs := Candidates(iface, ipv6, glob);
    var ss := Plan(w, iface, cs);
    PlanIsRecord(w, iface, ipv6, glob);
    PutAllMeaning(w, ValueWrites(ss));
    PlanSelects(w, iface, cs);
    ValueWritesTarget(ss, k);
    if k in Keys(ss) {
      var s :| s in ss && s.key == k;
      var c :| c in cs && s == Recorded(w, iface, c);
      CandidateWanted(w, iface, ipv6, glob, c);
      assert Assign(s.key, s.value) in ValueWrites(ss);
    } else if Targets(cs, k) {
      var c :| c in cs && c.key == k;
      CandidateWanted(w, iface, ipv6, glob, c);
      assert !Kept(Recorded(w, iface, c));
    } else {
      WantedIsCandidate(w, iface, ipv6, glob, k);
    }
  }

  // ---- main results -----------------------------------------------------------------------

  lemma {:induction false} RestoreWritesAre(w: World, ss: seq<Setting>)
    requires forall s :: s in ss ==> s.key in w
    ensures |RestoreWrites(w, ss)| == |ss|
    ensures forall i :: 0 <= i < |ss| ==> RestoreWrites(w, ss)[i] == Undo(w, ss[i])
  {
    if ss != [] {
      RestoreWritesAre(w, ss[..|ss| - 1]);
    }
  }

  lemma RestoreWritesUndoable(w: World, ss: seq<Setting>)
    requires Undoable(w.Keys, ss) && forall s :: s in ss ==> s.key in w
    ensures DistinctKeys(RestoreWrites(w, ss)) && Rewritten(w.Keys, RestoreWrites(w, ss))
  {
    RestoreWritesAre(w, ss);
    var undo, writes := RestoreWrites(w, ss), ValueWrites(ss);
    assert forall i :: 0 <= i < |ss| ==> undo[i].key == writes[i].key;
    forall i, k | 0 <= i < |undo| && k in w.Keys && Reaches(undo[i].key, k) && k != undo[i].key
      ensures exists j :: i < j < |undo| && undo[j].key == k
    {
      assert Reaches(writes[i].key, k);
      var j :| i < j < |writes| && writes[j].key == k;
      assert undo[j].key == k;
    }
  }

  /** What a restore means for each single setting, whatever happened since the settings were
      recorded: own changes are undone, foreign changes and unrecorded settings stay. */
  lemma RestoreMeaning(w: World, ss: seq<Setting>, k: Sysctl)
    requires Undoable(w.Keys, ss) && (forall s :: s in ss ==> s.key in w) && k in w
    ensures Restored(w, ss).Keys == w.Keys
    ensures k !in Keys(ss) ==> Restored(w, ss)[k] == w[k]
    ensures forall s :: s in ss && s.key == k ==>
              Restored(w, ss)[k] == if w[k] == s.value then s.before else w[k]
  {
    RestoreWritesAre(w, ss);
    RestoreWritesUndoable(w, ss);
    var undo := RestoreWrites(w, ss);
    PutAllMeaning(w, undo);
    if k !in Keys(ss) {
      assert forall a :: a in undo ==> a.key in Keys(ss);
    }
    forall s | s in ss && s.key == k
      ensures Restored(w, ss)[k] == if w[k] == s.value then s.before else w[k]
    {
      var i :| 0 <= i < |ss| && ss[i] == s;
      assert undo[i] in undo && undo[i].key == k;
    }
  }

  /** The settings whose files still exist. */
  function Existing(w: World, ss: seq<Setting>): seq<Setting> {
    if ss == [] then []
    else Existing(w, ss[..|ss| - 1]) + if ss[|ss| - 1].key in w then [ss[|ss| - 1]] else []
  }

  lemma {:induction false} ExistingAre(w: World, ss: seq<Setting>)
    ensures forall s :: s in Existing(w, ss) <==> s in ss && s.key in w
    ensures RestoreWrites(w, Existing(w, ss)) == RestoreWrites(w, ss)
  {
    if ss != [] {
      var front, last := ss[..|ss| - 1], ss[|ss| - 1];
      ExistingAre(w, front);
      if last.key in w {
        assert (Existing(w, front) + [last])[..|Existing(w, front)|] == Existing(w, front);
      } else {
        assert Existing(w, front) + [] == Existing(w, front);
      }
    }
  }

  /** A restore skips what has disappeared meanwhile and treats the rest as usual. */
  lemma RestoreSkipsMissing(w: World, ss: seq<Setting>, k: Sysctl)
    requires Undoable(w.Keys, Existing(w, ss)) && k in w
    ensures Restored(w, ss).Keys == w.Keys
    ensures k !in Keys(ss) ==> Restored(w, ss)[k] == w[k]
    ensures forall s :: s in ss && s.key == k ==> Restored(w, ss)[k] == if w[k] == s.value then s.before else w[k]
  {
    ExistingAre(w, ss);
    RestoreMeaning(w, Existing(w, ss), k);
  }

  lemma ValueWritesTarget(ss: seq<Setting>, k: Sysctl)
    ensures Targets(ValueWrites(ss), k) <==> k in Keys(ss)
    ensures forall s :: s in ss ==> Assign(s.key, s.value) in ValueWrites(ss)
  {
    var writes := ValueWrites(ss);
    forall s | s in ss ensures Assign(s.key, s.value) in writes {
      var i :| 0 <= i < |ss| && ss[i] == s;
      assert writes[i] == Assign(s.key, s.value);
    }
    if Targets(writes, k) {
      var a :| a in writes && a.key == k;
      var i :| 0 <= i < |writes| && writes[i] == a;
      assert ss[i] in ss;
    }
  }

  /** Writing a recorded list and then restoring it gives back the whole table. */
  lemma RestoreUndoesWrites(w: World, ss: seq<Setting>)
    requires RecordOf(w, ss)
    ensures PutAll(w, ValueWrites(ss)).Keys == w.Keys
    ensures Restored(PutAll(w, ValueWrites(ss)), ss) == w
  {
    var w' := PutAll(w, ValueWrites(ss));
    PutAllMeaning(w, ValueWrites(ss));
    forall k | k in w ensures k in Restored(w', ss) && Restored(w', ss)[k] == w[k] {
      RestoreMeaning(w', ss, k);
      ValueWritesTarget(ss, k);
      if k in Keys(ss) {
        var s :| s in ss && s.key == k;
        assert Assign(s.key, s.value) in ValueWrites(ss);
      }
    }
    PutAllKeys(w', RestoreWrites(w', ss));
  }

  /** The settings with their target replaced by the value found right now; a file in `unread`, or
      one that is gone, cannot be read and keeps its planned value. */
  function Reread(w: World, ss: seq<Setting>, unread: set<Sysctl>): seq<Setting> {
    seq(|ss|, i requires 0 <= i < |ss| =>
      if ss[i].key in w && ss[i].key !in unread then ss[i].(value := w[ss[i].key]) else ss[i])
  }

  lemma RereadUndoable(w: World, now: World, ss: seq<Setting>, unread: set<Sysctl>)
    requires RecordOf(w, ss) && now.Keys == w.Keys
    ensures Undoable(w.Keys, Reread(now, ss, unread)) && Keys(Reread(now, ss, unread)) == Keys(ss)
    ensures forall s :: s in Reread(now, ss, unread) ==> s.key in w && s.before == w[s.key]
  {
    var again := Reread(now, ss, unread);
    var writes, rewrites := ValueWrites(ss), ValueWrites(again);
    assert forall i :: 0 <= i < |ss| ==> again[i].key == ss[i].key && ss[i] in ss && again[i] in again;
    assert forall i :: 0 <= i < |ss| ==> rewrites[i].key == writes[i].key;
    forall i, k | 0 <= i < |rewrites| && k in w.Keys && Reaches(rewrites[i].key, k) && k != rewrites[i].key
      ensures exists j :: i < j < |rewrites| && rewrites[j].key == k
    {
      assert Reaches(writes[i].key, k);
      var j :| i < j < |writes| && writes[j].key == k;
      assert rewrites[j].key == k;
    }
  }

  /** Whether a setting can still be told apart from a foreign change: the value it has now was
      read, or is the planned one, or is the one to go back to. */
  predicate Recognized(now: World, s: Setting, unread: set<Sysctl>)
    requires s.key in now
  {
    s.key in unread ==> now[s.key] == s.value || now[s.key] == s.before
  }

  /** The table after the first `n` writes of a list. */
  function Partly(w: World, ss: seq<Setting>, n: nat): World
    requires n <= |ss|
  {
    PutAll(w, ValueWrites(ss)[..n])
  }

  lemma RereadAt(now: World, ss: seq<Setting>, unread: set<Sysctl>, i: nat)
    requires i < |ss| && ss[i].key in now
    ensures var again := Reread(now, ss, unread);
            && again[i] in again && again[i].key == ss[i].key && again[i].before == ss[i].before
            && again[i].value == if ss[i].key in unread then ss[i].value else now[ss[i].key]
  {
  }

  /** What a rollback makes of each setting. */
  lemma RollbackAt(w: World, ss: seq<Setting>, n: nat, unread: set<Sysctl>, i: nat)
    requires RecordOf(w, ss) && n <= |ss| && i < |ss|
    ensures var now, k := Partly(w, ss, n), ss[i].key;
            && now.Keys == w.Keys && k in w && Restored(now, Reread(now, ss, unread)).Keys == w.Keys
            && (Restored(now, Reread(now, ss, unread))[k] == w[k] <==> Recognized(now, ss[i], unread))
  {
    var now := Partly(w, ss, n);
    assert ss[i] in ss;
    PutAllKeys(w, ValueWrites(ss)[..n]);
    RereadUndoable(w, now, ss, unread);
    RereadAt(now, ss, unread, i);
    RestoreMeaning(now, Reread(now, ss, unread), ss[i].key);
  }

  lemma RollbackElsewhere(w: World, ss: seq<Setting>, n: nat, unread: set<Sysctl>, k: Sysctl)
    requires RecordOf(w, ss) && n <= |ss| && k in w && k !in Keys(ss)
    ensures var now := Partly(w, ss, n);
            Restored(now, Reread(now, ss, unread)).Keys == w.Keys && Restored(now, Reread(now, ss, unread))[k] == w[k]
  {
    var now := Partly(w, ss, n);
    PutAllKeys(w, ValueWrites(ss)[..n]);
    RereadUndoable(w, now, ss, unread);
    RestoreMeaning(now, Reread(now, ss, unread), k);
    ValueWritesTarget(ss, k);
    PrefixLeavesOthers(w, ValueWrites(ss), n, k);
  }

  /** The shape of every planned list: ordered, and only the IPv6 `all` entry, planned as "1",
      overwrites others. */
  ghost predicate Shaped(ss: seq<Setting>) {
    && Ordered(ValueWrites(ss))
    && forall s :: s in ss && s.key.iface == "all" && s.key.leaf.Forwards? ==> s.key == V6All && s.value == "1"
  }

  /** The IPv6 `all` entry is among the first `n`. */
  predicate WroteAll(ss: seq<Setting>, n: nat)
    requires n <= |ss|
  {
    exists i :: 0 <= i < n && ss[i].key == V6All
  }

  lemma WroteAllStep(ss: seq<Setting>, n: nat)
    requires n < |ss|
    ensures WroteAll(ss, n + 1) <==> WroteAll(ss, n) || ss[n].key == V6All
  {
  }

  /** Which entries of such a list overwrite others. */
  lemma ShapedReach(ss: seq<Setting>, i: nat, j: nat)
    requires Shaped(ss) && i < |ss| && j < |ss| && i != j
    ensures Reaches(ss[i].key, ss[j].key) <==> ss[i].key == V6All && V6Interface(ss[j].key)
    ensures ss[i].key == V6All ==> ss[i].value == "1"
    ensures ss[i].key == V6All && V6Interface(ss[j].key) ==> i < j
  {
    var writes := ValueWrites(ss);
    OrderedDistinct(writes);
    assert ss[i] in ss && writes[i].key == ss[i].key && writes[j].key == ss[j].key;
    if ss[i].key == V6All && V6Interface(ss[j].key) {
      AllComesFirst(writes, i, j);
    }
  }

  lemma PartlyStep(w: World, ss: seq<Setting>, n: nat, k: Sysctl)
    requires n < |ss| && k in w && ss[n].key in w
    ensures Partly(w, ss, n).Keys == Partly(w, ss, n + 1).Keys == w.Keys
    ensures Partly(w, ss, n + 1)[k] == if Reaches(ss[n].key, k) then ss[n].value else Partly(w, ss, n)[k]
  {
    PutAllKeys(w, ValueWrites(ss)[..n]);
    PutAllSnoc(w, ValueWrites(ss), n);
  }

  /** Every value after the first `n` writes, read off the list alone: an entry not reached yet holds
      its former value, unless the `all` entry has overwritten it. */
  lemma {:induction false} PartlyAt(w: World, ss: seq<Setting>, n: nat, j: nat)
    requires Shaped(ss) && n <= |ss| && j < |ss| && forall s :: s in ss ==> s.key in w && s.before == w[s.key]
    ensures Partly(w, ss, n).Keys == w.Keys && ss[j].key in w
    ensures Partly(w, ss, n)[ss[j].key] ==
            if j < n then ss[j].value else if V6Interface(ss[j].key) && WroteAll(ss, n) then "1" else ss[j].before
  {
    assert ss[j] in ss;
    if n > 0 {
      var i := n - 1;
      assert ss[i] in ss;
      PartlyAt(w, ss, i, j);
      PartlyStep(w, ss, i, ss[j].key);
      WroteAllStep(ss, i);
      if i != j {
        ShapedReach(ss, i, j);
      }
    }
  }

  /** The entry of another interface that does not forward and cannot be read. */
  predicate Exposed(s: Setting, unread: set<Sysctl>) {
    V6Interface(s.key) && s.key in unread && s.before != "1" && s.value != "1"
  }

  /** A write fails after the `all` entry was written and before such an entry was rewritten. */
  predicate Endangered(ss: seq<Setting>, n: nat, unread: set<Sysctl>)
    requires n <= |ss|
  {
    WroteAll(ss, n) && exists j :: n <= j < |ss| && Exposed(ss[j], unread)
  }

  lemma RecognizedUnless(w: World, ss: seq<Setting>, n: nat, unread: set<Sysctl>, j: nat)
    requires RecordOf(w, ss) && Shaped(ss) && n <= |ss| && j < |ss|
    ensures ss[j].key in Partly(w, ss, n)
    ensures Recognized(Partly(w, ss, n), ss[j], unread) <==> !(WroteAll(ss, n) && n <= j && Exposed(ss[j], unread))
  {
    PartlyAt(w, ss, n, j);
  }

  /** A prepare that stops after `n` of its writes: undoing it gives back the table as it was unless
      it stopped between the IPv6 `all` entry and an interface entry that cannot be read again and
      that neither was nor is to be "1", and only then it does not. */
  lemma RollbackUndoesPrefix(w: World, ss: seq<Setting>, n: nat, unread: set<Sysctl>)
    requires RecordOf(w, ss) && Shaped(ss) && n <= |ss|
    ensures Partly(w, ss, n).Keys == w.Keys
    ensures Restored(Partly(w, ss, n), Reread(Partly(w, ss, n), ss, unread)).Keys == w.Keys
    ensures Restored(Partly(w, ss, n), Reread(Partly(w, ss, n), ss, unread)) == w <==> !Endangered(ss, n, unread)
  {
    var now := Partly(w, ss, n);
    PutAllKeys(w, ValueWrites(ss)[..n]);
    PutAllKeys(now, RestoreWrites(now, Reread(now, ss, unread)));
    if Endangered(ss, n, unread) {
      var j :| n <= j < |ss| && Exposed(ss[j], unread);
      RecognizedUnless(w, ss, n, unread, j);
      RollbackAt(w, ss, n, unread, j);
    } else {
      forall k | k in w ensures Restored(now, Reread(now, ss, unread))[k] == w[k] {
        if k in Keys(ss) {
          var i :| 0 <= i < |ss| && ss[i].key == k;
          RecognizedUnless(w, ss, n, unread, i);
          RollbackAt(w, ss, n, unread, i);
        } else {
          RollbackElsewhere(w, ss, n, unread, k);
        }
      }
    }
  }

  lemma CandidateShape(iface: string, ipv6: bool, glob: seq<string>, c: Assign)
    requires iface != "all" && c in Candidates(iface, ipv6, glob)
    ensures c.key.iface == "all" && c.key.leaf.Forwards? ==> c == Assign(V6All, "1")
    ensures V6Interface(c.key) ==> ipv6 && c == Assign(Sysctl(true, c.key.iface, Forwards), "") && c.key.iface in glob
  {
    InterfaceWritesKeys(glob);
    InterfaceTargetsEmpty(glob);
  }

  lemma PlanIsShaped(w: World, iface: string, ipv6: bool, glob: seq<string>)
    requires iface != "all" && Lists(w, glob) && AllPresent(w, iface, ipv6, glob)
    ensures Shaped(Planned(w, iface, ipv6, glob))
  {
    var cs := Candidates(iface, ipv6, glob);
    CandidatesOrdered(iface, ipv6, glob);
    PlanOrdered(w, iface, cs);
    PlanSelects(w, iface, cs);
    forall s | s in Planned(w, iface, ipv6, glob) && s.key.iface == "all" && s.key.leaf.Forwards?
      ensures s.key == V6All && s.value == "1"
    {
      var c :| c in cs && s == Recorded(w, iface, c);
      CandidateShape(iface, ipv6, glob, c);
    }
  }

  /** Every other interface forwards already. */
  ghost predicate OthersForward(w: World, iface: string, ipv6: bool, glob: seq<string>) {
    ipv6 ==> forall x :: x in glob && x != "all" && x != iface ==>
      Sysctl(true, x, Forwards) in w && w[Sysctl(true, x, Forwards)] == "1"
  }

  lemma NothingExposed(w: World, iface: string, ipv6: bool, glob: seq<string>, s: Setting, unread: set<Sysctl>)
    requires iface != "all" && AllPresent(w, iface, ipv6, glob) && OthersForward(w, iface, ipv6, glob)
    requires s in Planned(w, iface, ipv6, glob)
    ensures !Exposed(s, unread)
  {
    var cs := Candidates(iface, ipv6, glob);
    PlanSelects(w, iface, cs);
    var c :| c in cs && s == Recorded(w, iface, c);
    CandidateShape(iface, ipv6, glob, c);
  }

  /** The plan at the two entries that matter: the `all` entry, and later that of interface `x`. */
  lemma PlannedEntries(w: World, iface: string, glob: seq<string>, x: string) returns (i: nat, j: nat)
    requires iface != "all" && Lists(w, glob) && AllPresent(w, iface, true, glob)
    requires x in glob && x != "all" && x != iface
    ensures var ss, before := Planned(w, iface, true, glob), w[Sysctl(true, x, Forwards)];
            && i < j < |ss| && ss[i].key == V6All
            && ss[j] == Setting(Sysctl(true, x, Forwards), before, before)
  {
    var cs, ss := Candidates(iface, true, glob), Planned(w, iface, true, glob);
    var all, entry := Assign(V6All, "1"), Assign(Sysctl(true, x, Forwards), "");
    assert cs[3] == all;
    InterfaceWritesKeys(glob);
    assert entry in InterfaceWrites(glob);
    assert all in cs && entry in cs;
    PlanSelects(w, iface, cs);
    assert Recorded(w, iface, all) in ss && Recorded(w, iface, entry) in ss;
    i :| 0 <= i < |ss| && ss[i] == Recorded(w, iface, all);
    j :| 0 <= j < |ss| && ss[j] == Recorded(w, iface, entry);
    PlanIsShaped(w, iface, true, glob);
    AllComesFirst(ValueWrites(ss), i, j);
  }

  /** An interface that does not forward loses its setting when the write after the `all` entry fails
      and its entry cannot be read again. */
  lemma OtherInterfaceIsLost(w: World, iface: string, glob: seq<string>, x: string) returns (n: nat)
    requires iface != "all" && Lists(w, glob) && AllPresent(w, iface, true, glob)
    requires x in glob && x != "all" && x != iface && w[Sysctl(true, x, Forwards)] != "1"
    ensures var ss, unread := Planned(w, iface, true, glob), {Sysctl(true, x, Forwards)};
            && 0 < n < |ss| && ss[n - 1].key == V6All && Endangered(ss, n, unread)
            && Restored(Partly(w, ss, n), Reread(Partly(w, ss, n), ss, unread)) != w
  {
    var i, j := PlannedEntries(w, iface, glob, x);
    n := i + 1;
    PlanIsRecord(w, iface, true, glob);
    PlanIsShaped(w, iface, true, glob);
    ExposedIsLost(w, Planned(w, iface, true, glob), i, j, {Sysctl(true, x, Forwards)});
  }

  lemma ExposedIsLost(w: World, ss: seq<Setting>, i: nat, j: nat, unread: set<Sysctl>)
    requires RecordOf(w, ss) && Shaped(ss) && i < j < |ss| && ss[i].key == V6All && Exposed(ss[j], unread)
    ensures Endangered(ss, i + 1, unread)
    ensures Restored(Partly(w, ss, i + 1), Reread(Partly(w, ss, i + 1), ss, unread)) != w
  {
    EndangeredAt(ss, i, j, unread);
    RollbackUndoesPrefix(w, ss, i + 1, unread);
  }

  lemma EndangeredAt(ss: seq<Setting>, i: nat, j: nat, unread: set<Sysctl>)
    requires i < j < |ss| && ss[i].key == V6All && Exposed(ss[j], unread)
    ensures Endangered(ss, i + 1, unread)
  {
  }

  /** Whatever fails and whatever cannot be read, a prepare can be undone: exactly if every other
      interface forwards already, or IPv6 is not touched. */
  lemma AlwaysSafeExactlyIf(w: World, iface: string, ipv6: bool, glob: seq<string>)
    requires iface != "all" && Lists(w, glob) && AllPresent(w, iface, ipv6, glob)
    ensures (forall env :: PreparesSafely(w, iface, ipv6, glob, env)) <==> OthersForward(w, iface, ipv6, glob)
  {
    var ss := Planned(w, iface, ipv6, glob);
    if OthersForward(w, iface, ipv6, glob) {
      forall env ensures PreparesSafely(w, iface, ipv6, glob, env) {
        SafeIfOthersForward(w, iface, ipv6, glob, env);
      }
    } else {
      var x :| x in glob && x != "all" && x != iface &&
               !(Sysctl(true, x, Forwards) in w && w[Sysctl(true, x, Forwards)] == "1");
      var env := UnsafeEnv(w, iface, glob, x);
      assert !PreparesSafely(w, iface, ipv6, glob, env);
    }
  }

  lemma UnsafeEnv(w: World, iface: string, glob: seq<string>, x: string) returns (env: WriteEnv)
    requires iface != "all" && Lists(w, glob) && AllPresent(w, iface, true, glob)
    requires x in glob && x != "all" && x != iface && w[Sysctl(true, x, Forwards)] != "1"
    ensures !PreparesSafely(w, iface, true, glob, env)
  {
    var n := OtherInterfaceIsLost(w, iface, glob, x);
    env := WriteEnv(Some(n), {Sysctl(true, x, Forwards)}, {});
  }

  lemma SafeIfOthersForward(w: World, iface: string, ipv6: bool, glob: seq<string>, env: WriteEnv)
    requires iface != "all" && OthersForward(w, iface, ipv6, glob)
    ensures PreparesSafely(w, iface, ipv6, glob, env)
  {
    if AllPresent(w, iface, ipv6, glob) {
      var ss := Planned(w, iface, ipv6, glob);
      forall j | 0 <= j < |ss| ensures !Exposed(ss[j], env.unread) {
        NothingExposed(w, iface, ipv6, glob, ss[j], env.unread);
      }
    }
  }

  /** A machine with two interfaces, none of them forwarding: the gateway is started on `eth0`, the
      write after the `all` entry fails and the entry of `wlan0` cannot be read again. */
  lemma UnreadableEntryIsLost() returns (w: World, glob: seq<string>, n: nat)
    ensures Lists(w, glob) && AllPresent(w, "eth0", true, glob)
    ensures var ss, unread := Planned(w, "eth0", true, glob), {Sysctl(true, "wlan0", Forwards)};
            && 0 < n < |ss| && ss[n - 1].key == V6All
            && Restored(Partly(w, ss, n), Reread(Partly(w, ss, n), ss, unread)) != w
  {
    glob := ["all", "eth0", "wlan0"];
    w := map[Sysctl(false, "eth0", Forwards) := "0", Sysctl(false, "eth0", SendRedirects) := "1",
             Sysctl(false, "all", SendRedirects) := "1", V6All := "0",
             Sysctl(true, "eth0", Forwards) := "0", Sysctl(true, "wlan0", Forwards) := "0",
             Sysctl(true, "eth0", AcceptRA) := "1"];
    InterfaceWritesKeys(glob);
    assert AllPresent(w, "eth0", true, glob);
    n := OtherInterfaceIsLost(w, "eth0", glob, "wlan0");
  }

  lemma {:induction false} PutAllKeys(w: World, writes: seq<Assign>)
    ensures PutAll(w, writes).Keys == w.Keys
  {
    if writes != [] {
      PutAllKeys(Put(w, writes[0]), writes[1..]);
    }
  }

  // ---- the code ---------------------------------------------------------------------------

  datatype Read = Found(value: string) | Missing | Denied

  /** The files below /proc/sys/net; `denied` lists files that exist but cannot be read. */
  class SysctlTable {
    var values: World

    constructor (values: World)
      ensures this.values == values
    {
      this.values := values;
    }

    function ReadFile(k: Sysctl, denied: set<Sysctl>): Read
      reads this
    {
      if k !in values then Missing else if k in denied then Denied else Found(values[k])
    }

    method WriteFile(a: Assign)
      modifies this
      ensures values == Put(old(values), a)
    {
      values := Put(values, a);
    }
  }

  class ForwardingState {
    var settings: seq<Setting>

    constructor (settings: seq<Setting>)
      ensures this.settings == settings
    {
      this.settings := settings;
    }

    /** After a failed write the current values become the ones to be undone. */
    method RereadValues(sys: SysctlTable, unread: set<Sysctl>)
      modifies this
      ensures settings == Reread(sys.values, old(settings), unread)
    {
      ghost var ss := settings;
      for j := 0 to |settings|
        invariant |settings| == |ss|
        invariant settings[..j] == Reread(sys.values, ss, unread)[..j] && settings[j..] == ss[j..]
      {
        assert settings[j] == ss[j];
        match sys.ReadFile(settings[j].key, unread)
        case Found(current) => settings := settings[j := settings[j].(value := current)];
        case _ =>
      }
    }

    /** Two passes: read everything, then write everything; nothing is written unless every
        existing file could be read. */
    method Restore(sys: SysctlTable, denied: set<Sysctl>) returns (ok: bool)
      modifies this, sys
      ensures ok <==> forall s :: s in old(settings) ==> s.key !in old(sys.values) || s.key !in denied
      ensures ok ==> settings == [] && sys.values == Restored(old(sys.values), old(settings))
      ensures !ok ==> settings == old(settings) && sys.values == old(sys.values)
    {
      ok := true;
      var restore: seq<Assign> := [];
      for i := 0 to |settings|
        invariant settings == old(settings) && sys.values == old(sys.values)
        invariant ok <==> forall j :: 0 <= j < i ==> settings[j].key !in sys.values || settings[j].key !in denied
        invariant ok ==> restore == RestoreWrites(sys.values, settings[..i])
      {
        var setting := settings[i];
        assert settings[..i + 1][..i] == settings[..i];
        match sys.ReadFile(setting.key, denied)
        case Missing =>
        case Denied =>
          ok := false;
        case Found(current) =>
          restore := restore + [Assign(setting.key, if current == setting.value then setting.before else current)];
      }
      assert settings[..|settings|] == settings;
      if !ok {
        return;
      }
      WriteAll(sys, restore);
      settings := [];
    }
  }

  method WriteAll(sys: SysctlTable, writes: seq<Assign>)
    modifies sys
    ensures sys.values == PutAll(old(sys.values), writes)
  {
    for i := 0 to |writes|
      invariant sys.values == PutAll(old(sys.values), writes[..i])
    {
      PutAllSnoc(old(sys.values), writes, i);
      sys.WriteFile(writes[i]);
    }
    assert writes[..|writes|] == writes;
  }

  method BuildCandidates(iface: string, ipv6: bool, glob: seq<string>) returns (cs: seq<Assign>)
    ensures cs == Candidates(iface, ipv6, glob)
  {
    cs := [Assign(Sysctl(false, iface, Forwards), "1"),
           Assign(Sysctl(false, iface, SendRedirects), "0"),
           Assign(Sysctl(false, "all", SendRedirects), "0")];
    if ipv6 {
      var head := cs + [Assign(V6All, "1")];
      cs := head;
      for i := 0 to |glob|
        invariant cs == head + InterfaceWrites(glob[..i])
      {
        assert glob[..i + 1][..i] == glob[..i];
        if glob[i] != "all" {
          cs := cs + [Assign(Sysctl(true, glob[i], Forwards), "")];
        }
      }
      assert glob[..|glob|] == glob;
      cs := cs + [Assign(Sysctl(true, iface, AcceptRA), "2")];
    }
  }

  /** First pass of prepareForwarding: read every candidate and keep the ones to be written. */
  method Collect(sys: SysctlTable, iface: string, cs: seq<Assign>, denied: set<Sysctl>)
    returns (readable: bool, ss: seq<Setting>)
    ensures readable <==> forall c :: c in cs ==> c.key in sys.values && c.key !in denied
    ensures readable ==> ss == Plan(sys.values, iface, cs)
  {
    readable, ss := true, [];
    for i := 0 to |cs|
      invariant readable
      invariant forall j :: 0 <= j < i ==> cs[j].key in sys.values && cs[j].key !in denied
      invariant ss == Plan(sys.values, iface, cs[..i])
    {
      var read := sys.ReadFile(cs[i].key, denied);
      if !read.Found? {
        assert cs[i] in cs;
        readable := false;
        return;
      }
      var setting := Setting(cs[i].key, read.value, cs[i].value);
      if setting.value == "" {
        setting := setting.(value := read.value);
        if setting.key.iface == iface {
          setting := setting.(value := "1");
        }
      }
      assert cs[..i + 1][..i] == cs[..i];
      if setting.before != setting.value || (setting.key.v6 && setting.key.leaf.Forwards?) {
        ss := ss + [setting];
      }
    }
    assert cs[..|cs|] == cs;
  }

  /** `failAt` is the index of the write that fails, if one does; `unread` are the files that cannot
      be read again after that, and `blocked` those that cannot be read by the rollback itself. */
  datatype WriteEnv = WriteEnv(failAt: Option<nat>, unread: set<Sysctl>, blocked: set<Sysctl>)

  predicate Fails(env: WriteEnv, ss: seq<Setting>) {
    env.failAt.Some? && env.failAt.value < |ss|
  }

  /** No failing write strikes while an entry is endangered. */
  predicate WritesSafely(ss: seq<Setting>, env: WriteEnv) {
    Fails(env, ss) ==> !Endangered(ss, env.failAt.value, env.unread)
  }

  ghost predicate AllPresent(w: World, iface: string, ipv6: bool, glob: seq<string>) {
    forall c :: c in Candidates(iface, ipv6, glob) ==> c.key in w
  }

  ghost function Planned(w: World, iface: string, ipv6: bool, glob: seq<string>): seq<Setting>
    requires AllPresent(w, iface, ipv6, glob)
  {
    Plan(w, iface, Candidates(iface, ipv6, glob))
  }

  ghost predicate PreparesSafely(w: World, iface: string, ipv6: bool, glob: seq<string>, env: WriteEnv) {
    AllPresent(w, iface, ipv6, glob) ==> WritesSafely(Planned(w, iface, ipv6, glob), env)
  }

  method PrepareForwarding(sys: SysctlTable, iface: string, ipv6: bool, glob: seq<string>,
                           denied: set<Sysctl>, env: WriteEnv)
    returns (f: ForwardingState?, ok: bool)
    requires iface != "all" && Lists(sys.values, glob)
    modifies sys
    ensures f != null ==> fresh(f)
    // The interface name is invalid or a file cannot be read: nothing was written.
    ensures f == null ==> !ok && sys.values == old(sys.values)
    ensures f == null <==>
      iface in {"", ".", ".."} || '/' in iface || '\\' in iface ||
      exists c :: c in Candidates(iface, ipv6, glob) && (c.key !in old(sys.values) || c.key in denied)
    ensures f != null ==>
      && AllPresent(old(sys.values), iface, ipv6, glob)
      && RecordOf(old(sys.values), Planned(old(sys.values), iface, ipv6, glob))
      && (ok <==> !Fails(env, Planned(old(sys.values), iface, ipv6, glob)))
      && Outcome(old(sys.values), Planned(old(sys.values), iface, ipv6, glob), env, sys.values, f.settings)
  {
    f, ok := null, false;
    if !ValidInterface(iface) {
      return;
    }
    var cs := BuildCandidates(iface, ipv6, glob);
    var readable, ss := Collect(sys, iface, cs, denied);
    if !readable {
      return;
    }
    PlanIsRecord(sys.values, iface, ipv6, glob);
    f := new ForwardingState(ss);
    ok := WriteSettings(sys, f, env);
  }

  /** The table and the record after the writes: everything written, or rolled back with nothing
      left to undo, or stuck where the write failed with the record to be undone later. */
  ghost predicate Outcome(w: World, ss: seq<Setting>, env: WriteEnv, after: World, left: seq<Setting>) {
    if !Fails(env, ss) then after == PutAll(w, ValueWrites(ss)) && left == ss
    else
      var now := Partly(w, ss, env.failAt.value);
      var again := Reread(now, ss, env.unread);
      if forall s :: s in again ==> s.key !in now || s.key !in env.blocked
      then after == Restored(now, again) && left == []
      else after == now && left == again
  }

  /** Whatever the outcome, undoing what is left gives back the table if and only if the writes were
      safe; and a rollback that reads everything has already done so. */
  lemma OutcomeUndone(w: World, ss: seq<Setting>, env: WriteEnv, after: World, left: seq<Setting>)
    requires RecordOf(w, ss) && Shaped(ss) && Outcome(w, ss, env, after, left)
    ensures after.Keys == w.Keys
    ensures Restored(after, left) == w <==> WritesSafely(ss, env)
    ensures Fails(env, ss) && env.unread == {} && env.blocked == {} ==> after == w && left == []
    ensures env.unread == {} ==> WritesSafely(ss, env)
  {
    if !Fails(env, ss) {
      RestoreUndoesWrites(w, ss);
    } else {
      RollbackUndoesPrefix(w, ss, env.failAt.value, env.unread);
      assert Restored(after, []) == after;
    }
  }

  /** Second pass: write in order; at a failing write, take the values found now and roll back. */
  method WriteSettings(sys: SysctlTable, f: ForwardingState, env: WriteEnv) returns (ok: bool)
    requires RecordOf(sys.values, f.settings)
    modifies sys, f
    ensures ok <==> !Fails(env, old(f.settings))
    ensures Outcome(old(sys.values), old(f.settings), env, sys.values, f.settings)
  {
    ghost var w := sys.values;
    var ss := f.settings;
    for i := 0 to |ss|
      invariant f.settings == ss
      invariant sys.values == PutAll(w, ValueWrites(ss)[..i])
      invariant env.failAt.Some? ==> env.failAt.value >= i
    {
      if env.failAt == Some(i) {
        f.RereadValues(sys, env.unread);
        var restored := f.Restore(sys, env.blocked);
        return false;
      }
      PutAllSnoc(w, ValueWrites(ss), i);
      sys.WriteFile(Assign(ss[i].key, ss[i].value));
    }
    assert ValueWrites(ss)[..|ss|] == ValueWrites(ss);
    ok := true;
  }
}
