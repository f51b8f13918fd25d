/** CPU affinity: normalising the list (core/launch.go) and printing it as a cpuset list
    (core/process/process_cgroup_linux.go). */
module CpuRange {
  import opened Runs
  import opened Text
  import opened Splitting
  import opened Sorting

  // ---- ranges and what they mean ----------------------------------------------------------

  datatype Range = Range(lo: int, hi: int)

  function Expand(r: Range): seq<int> {
    if r.hi < r.lo then [] else seq(r.hi - r.lo + 1, i => r.lo + i)
  }

  predicate Covers(r: Range, x: int) {
    r.lo <= x <= r.hi
  }

  /** Some range covers `x`. */
  predicate Names(rs: seq<Range>, x: int) {
    exists i :: 0 <= i < |rs| && Covers(rs[i], x)
  }

  function ExpandAll(rs: seq<Range>): seq<int> {
    if rs == [] then [] else ExpandAll(rs[..|rs| - 1]) + Expand(rs[|rs| - 1])
  }

  // ---- text -------------------------------------------------------------------------------

  /** %d */
  function Printed(n: int): string {
    if n < 0 then ['-'] + Decimal(-n) else Decimal(n)
  }

  function RangeText(r: Range): string {
    if r.lo == r.hi then Printed(r.lo) else Printed(r.lo) + ['-'] + Printed(r.hi)
  }

  function Texts(rs: seq<Range>): seq<string> {
    seq(|rs|, i requires 0 <= i < |rs| => RangeText(rs[i]))
  }

  function ListText(rs: seq<Range>): string {
    Join(',', Texts(rs))
  }

  /** One item of a cpuset list: `n` or `lo-hi`. */
  function ParseRange(s: string): Option<Range> {
    var parts := Split('-', s);
    if |parts| == 1 && parts[0] != "" && DigitsValue(parts[0]).Some?
    then Some(Range(DigitsValue(parts[0]).value, DigitsValue(parts[0]).value))
    else if |parts| == 2 && parts[0] != "" && parts[1] != "" && DigitsValue(parts[0]).Some? && DigitsValue(parts[1]).Some?
    then Some(Range(DigitsValue(parts[0]).value, DigitsValue(parts[1]).value))
    else None
  }

  function ParseRanges(items: seq<string>): Option<seq<Range>> {
    if items == [] then Some([])
    else
      var front, last := ParseRanges(items[..|items| - 1]), ParseRange(items[|items| - 1]);
      if front.None? || last.None? then None else Some(front.value + [last.value])
  }

  /** The CPUs a cpuset list names, in order. */
  function ParseList(s: string): Option<seq<int>> {
    var rs := ParseRanges(Split(',', s));
    if rs.None? then None else Some(ExpandAll(rs.value))
  }

  predicate Natural(rs: seq<Range>) {
    forall r :: r in rs ==> 0 <= r.lo <= r.hi
  }

  lemma DecimalPlain(n: nat, c: char)
    requires !Digit(c)
    ensures c !in Decimal(n)
  {
    DecimalReads(n);
    OnlyDigits(Decimal(n));
  }

  lemma RangeReads(r: Range)
    requires 0 <= r.lo <= r.hi
    ensures ParseRange(RangeText(r)) == Some(r) && ',' !in RangeText(r)
  {
    DecimalPlain(r.lo, '-');
    DecimalPlain(r.hi, '-');
    DecimalPlain(r.lo, ',');
    DecimalPlain(r.hi, ',');
    DecimalReads(r.lo);
    DecimalReads(r.hi);
    SplitFirst('-', Decimal(r.lo), Decimal(r.hi));
    SplitFirst('-', Decimal(r.hi), "");
  }

  lemma {:induction false} ItemsRead(items: seq<string>, rs: seq<Range>)
    requires |items| == |rs| && forall i :: 0 <= i < |rs| ==> ParseRange(items[i]) == Some(rs[i])
    ensures ParseRanges(items) == Some(rs)
  {
    if rs != [] {
      ItemsRead(items[..|rs| - 1], rs[..|rs| - 1]);
      assert rs == rs[..|rs| - 1] + [rs[|rs| - 1]];
    }
  }

  lemma TextsRead(rs: seq<Range>)
    requires Natural(rs)
    ensures ParseRanges(Texts(rs)) == Some(rs)
  {
    forall i | 0 <= i < |rs| ensures ParseRange(Texts(rs)[i]) == Some(rs[i]) {
      assert rs[i] in rs;
      RangeReads(rs[i]);
    }
    ItemsRead(Texts(rs), rs);
  }

  /** Printed ranges read back. */
  lemma ListReads(rs: seq<Range>)
    requires Natural(rs) && rs != []
    ensures Split(',', ListText(rs)) == Texts(rs)
    ensures ParseList(ListText(rs)) == Some(ExpandAll(rs))
  {
    forall t | t in Texts(rs) ensures ',' !in t {
      var i :| 0 <= i < |rs| && t == Texts(rs)[i];
      assert rs[i] in rs;
      RangeReads(rs[i]);
    }
    SplitJoin(',', Texts(rs));
    TextsRead(rs);
  }

  // ---- the ranges printed -----------------------------------------------------------------

  /** The list cut where the next number is not the successor. */
  function RangesOf(cpus: seq<int>): seq<Range> {
    if cpus == [] then []
    else Grow(RangesOf(cpus[..|cpus| - 1]), cpus[|cpus| - 1])
  }

  function Grow(rs: seq<Range>, cpu: int): seq<Range> {
    if rs != [] && cpu == rs[|rs| - 1].hi + 1
    then rs[..|rs| - 1] + [Range(rs[|rs| - 1].lo, cpu)]
    else rs + [Range(cpu, cpu)]
  }

  predicate Proper(rs: seq<Range>) {
    forall r :: r in rs ==> r.lo <= r.hi
  }

  lemma GrowExpands(rs: seq<Range>, cpu: int)
    requires Proper(rs)
    ensures Proper(Grow(rs, cpu)) && Grow(rs, cpu) != [] && Grow(rs, cpu)[|Grow(rs, cpu)| - 1].hi == cpu
    ensures ExpandAll(Grow(rs, cpu)) == ExpandAll(rs) + [cpu]
  {
    var grown := Grow(rs, cpu);
    if rs != [] && cpu == rs[|rs| - 1].hi + 1 {
      var front, last := rs[..|rs| - 1], rs[|rs| - 1];
      assert last in rs;
      assert grown[..|rs| - 1] == front;
      assert Expand(Range(last.lo, cpu)) == Expand(last) + [cpu];
      Associate(ExpandAll(front), Expand(last), [cpu]);
    } else {
      assert grown[..|rs|] == rs;
      assert Expand(Range(cpu, cpu)) == [cpu];
    }
  }

  /** The ranges denote exactly the list, whatever the list. */
  lemma {:induction false} RangesExpand(cpus: seq<int>)
    ensures Proper(RangesOf(cpus)) && ExpandAll(RangesOf(cpus)) == cpus
    ensures cpus != [] ==> RangesOf(cpus) != [] && RangesOf(cpus)[|RangesOf(cpus)| - 1].hi == cpus[|cpus| - 1]
  {
    if cpus != [] {
      RangesExpand(cpus[..|cpus| - 1]);
      GrowExpands(RangesOf(cpus[..|cpus| - 1]), cpus[|cpus| - 1]);
      assert cpus == cpus[..|cpus| - 1] + [cpus[|cpus| - 1]];
    }
  }

  lemma ExpandIn(r: Range, x: int)
    ensures x in Expand(r) <==> Covers(r, x)
  {
    if Covers(r, x) {
      assert Expand(r)[x - r.lo] == x;
    }
  }

  lemma {:induction false} ExpandedIn(rs: seq<Range>, x: int)
    ensures x in ExpandAll(rs) <==> Names(rs, x)
  {
    if rs != [] {
      var front, last := rs[..|rs| - 1], rs[|rs| - 1];
      ExpandedIn(front, x);
      ExpandIn(last, x);
      if x in ExpandAll(front) {
        var i :| 0 <= i < |front| && Covers(front[i], x);
        assert rs[i] == front[i];
      }
      if i :| 0 <= i < |rs| && Covers(rs[i], x) {
        assert i < |front| ==> front[i] == rs[i];
      }
    }
  }

  lemma RangesNatural(cpus: seq<int>)
    requires forall c :: c in cpus ==> c >= 0
    ensures Natural(RangesOf(cpus))
  {
    RangesExpand(cpus);
    var rs := RangesOf(cpus);
    forall r | r in rs ensures 0 <= r.lo {
      var i :| 0 <= i < |rs| && rs[i] == r;
      assert Covers(rs[i], r.lo);
      ExpandedIn(rs, r.lo);
    }
  }

  // ---- no fewer ranges would do -----------------------------------------------------------

  predicate Increasing(cpus: seq<int>) {
    forall i, j :: 0 <= i < j < |cpus| ==> cpus[i] < cpus[j]
  }

  /** Gaps between consecutive ranges. */
  predicate Spread(rs: seq<Range>) {
    && Proper(rs)
    && forall i, j :: 0 <= i < j < |rs| ==> rs[i].hi + 1 < rs[j].lo
  }

  lemma GrowSpreads(rs: seq<Range>, cpu: int)
    requires Spread(rs) && forall i :: 0 <= i < |rs| ==> rs[i].hi < cpu
    ensures Spread(Grow(rs, cpu))
  {
    if rs != [] && cpu == rs[|rs| - 1].hi + 1 {
      assert rs[|rs| - 1] in rs;
    } else if rs != [] {
      var last := rs[|rs| - 1];
      forall i | 0 <= i < |rs| ensures rs[i].hi + 1 < cpu {
        assert rs[i].hi <= last.hi by {
          if i < |rs| - 1 { assert last in rs; }
        }
      }
    }
  }

  lemma {:induction false} IncreasingSpreads(cpus: seq<int>)
    requires Increasing(cpus)
    ensures Spread(RangesOf(cpus))
  {
    if cpus != [] {
      var front, last := cpus[..|cpus| - 1], cpus[|cpus| - 1];
      var rs := RangesOf(front);
      IncreasingSpreads(front);
      RangesExpand(front);
      forall i | 0 <= i < |rs| ensures rs[i].hi < last {
        assert rs[i] in rs && Covers(rs[i], rs[i].hi);
        ExpandedIn(rs, rs[i].hi);
        assert rs[i].hi in front;
      }
      GrowSpreads(rs, last);
    }
  }

  ghost predicate SameCpus(rs: seq<Range>, cpus: seq<int>) {
    forall x {:trigger Names(rs, x)} :: Names(rs, x) <==> x in cpus
  }

  /** Some range starts at every number that is named while the one before is not. */
  lemma StartFound(rs: seq<Range>, x: int)
    requires Names(rs, x) && !Names(rs, x - 1)
    ensures x in Starts(rs)
  {
    var k :| 0 <= k < |rs| && Covers(rs[k], x);
    assert !Covers(rs[k], x - 1);
    assert Starts(rs)[k] == x;
  }

  lemma BeforeStart(rs: seq<Range>, i: nat)
    requires Spread(rs) && i < |rs|
    ensures Names(rs, rs[i].lo) && !Names(rs, rs[i].lo - 1)
  {
    assert rs[i] in rs;
    assert Covers(rs[i], rs[i].lo);
    forall j | 0 <= j < |rs| ensures !Covers(rs[j], rs[i].lo - 1) {
      assert rs[j] in rs;
    }
  }

  lemma {:induction false} SetOfSeq(xs: seq<int>)
    ensures |set x | x in xs| <= |xs|
    ensures (forall i, j :: 0 <= i < j < |xs| ==> xs[i] != xs[j]) ==> |set x | x in xs| == |xs|
  {
    if xs != [] {
      var front, last := xs[..|xs| - 1], xs[|xs| - 1];
      SetOfSeq(front);
      assert (set x | x in xs) == (set x | x in front) + {last};
    }
  }

  function Starts(rs: seq<Range>): seq<int> {
    seq(|rs|, i requires 0 <= i < |rs| => rs[i].lo)
  }

  lemma SubsetSize(a: set<int>, b: set<int>)
    requires a <= b
    ensures |a| <= |b|
  {
    assert b == a + (b - a);
  }

  lemma SpreadIsMinimal(rs: seq<Range>, others: seq<Range>)
    requires Spread(rs) && forall x :: Names(others, x) <==> Names(rs, x)
    ensures |rs| <= |others|
  {
    var mine, theirs := set x | x in Starts(rs), set x | x in Starts(others);
    forall x | x in mine ensures x in theirs {
      var i :| 0 <= i < |rs| && Starts(rs)[i] == x;
      BeforeStart(rs, i);
      StartFound(others, x);
    }
    forall i, j | 0 <= i < j < |rs| ensures Starts(rs)[i] != Starts(rs)[j] {
      assert rs[i] in rs;
    }
    SetOfSeq(Starts(rs));
    SetOfSeq(Starts(others));
    SubsetSize(mine, theirs);
  }

  /** Main result: for an increasing list no set of ranges describing the same CPUs is smaller. */
  lemma RangesMinimal(cpus: seq<int>, others: seq<Range>)
    requires Increasing(cpus) && SameCpus(others, cpus)
    ensures |RangesOf(cpus)| <= |others|
  {
    var rs := RangesOf(cpus);
    IncreasingSpreads(cpus);
    RangesExpand(cpus);
    forall x ensures Names(others, x) <==> Names(rs, x) {
      ExpandedIn(rs, x);
    }
    SpreadIsMinimal(rs, others);
  }

  // ---- the code ---------------------------------------------------------------------------

  lemma JoinSnoc(parts: seq<string>, last: string)
    ensures Join(',', parts + [last]) == if parts == [] then last else Join(',', parts) + [','] + last
  {
    var all := parts + [last];
    if |parts| == 1 {
      assert all[1..] == [last];
    } else if |parts| > 1 {
      JoinSnoc(parts[1..], last);
      assert all[1..] == parts[1..] + [last];
      var head, rest := parts[0] + [','], Join(',', parts[1..]);
      Associate(head, rest, [',']);
      Associate(head, rest + [','], last);
    }
  }

  /** The builder's `write` step. */
  method WriteRange(b: string, ghost rs: seq<Range>, start: int, previous: int) returns (text: string)
    requires b == ListText(rs) && (rs == [] <==> b == "")
    ensures text == ListText(rs + [Range(start, previous)]) && text != ""
  {
    var last := Range(start, previous);
    text := b;
    if |text| > 0 {
      text := text + [','];
    }
    if start == previous {
      text := text + Printed(start);
    } else {
      text := text + Printed(start) + ['-'] + Printed(previous);
    }
    assert Texts(rs + [last]) == Texts(rs) + [RangeText(last)];
    JoinSnoc(Texts(rs), RangeText(last));
    assert text == b + (if rs == [] then "" else [',']) + RangeText(last);
  }

  lemma TextReads(cpus: seq<int>)
    ensures cpus != [] && (forall c :: c in cpus ==> c >= 0) ==> ParseList(ListText(RangesOf(cpus))) == Some(cpus)
  {
    if cpus != [] && forall c :: c in cpus ==> c >= 0 {
      RangesNatural(cpus);
      RangesExpand(cpus);
      ListReads(RangesOf(cpus));
    }
  }

  /** Reading the printed list gives back the list, and for an increasing list it has as few
      items as any description of the same CPUs. */
  method FormatCPURange(cpus: seq<int>) returns (text: string)
    ensures cpus == [] <==> text == ""
    ensures cpus != [] && (forall c :: c in cpus ==> c >= 0) ==> ParseList(text) == Some(cpus)
    ensures text == ListText(RangesOf(cpus))
  {
    if |cpus| == 0 {
      return "";
    }
    text := "";
    var start, previous := cpus[0], cpus[0];
    ghost var rs: seq<Range> := [];
    assert cpus[..1][..0] == [] && cpus[..1] == [cpus[0]];
    for i := 1 to |cpus|
      invariant RangesOf(cpus[..i]) == rs + [Range(start, previous)]
      invariant text == ListText(rs) && (rs == [] <==> text == "")
    {
      var cpu := cpus[i];
      assert cpus[..i + 1][..i] == cpus[..i];
      if cpu == previous + 1 {
        previous := cpu;
        continue;
      }
      text := WriteRange(text, rs, start, previous);
      rs := rs + [Range(start, previous)];
      start, previous := cpu, cpu;
    }
    text := WriteRange(text, rs, start, previous);
    assert cpus[..|cpus|] == cpus;
    TextReads(cpus);
  }

  // ---- normalisation ----------------------------------------------------------------------

  predicate IntLe(a: int, b: int) { a <= b }

  /** slices.Compact */
  method Compact(sorted: seq<int>) returns (r: seq<int>)
    requires Sorted(IntLe, sorted)
    ensures Increasing(r) && forall x :: x in r <==> x in sorted
  {
    r := [];
    for i := 0 to |sorted|
      invariant Increasing(r)
      invariant forall x :: x in r <==> x in sorted[..i]
      invariant r != [] <==> i > 0
      invariant i > 0 ==> r[|r| - 1] == sorted[i - 1]
    {
      if i > 0 {
        assert IntLe(sorted[i - 1], sorted[i]);
      }
      if r == [] || r[|r| - 1] != sorted[i] {
        r := r + [sorted[i]];
      }
      assert sorted[..i + 1] == sorted[..i] + [sorted[i]];
    }
    assert sorted[..|sorted|] == sorted;
  }

  /** Accepts exactly the lists within range; the result is the increasing list of the same CPUs. */
  method NormalizeAffinity(cpus: seq<int>, maxCPU: int) returns (r: Option<seq<int>>)
    ensures r.Some? <==> forall c :: c in cpus ==> 0 <= c < maxCPU
    ensures r.Some? ==> Increasing(r.value) && forall x :: x in r.value <==> x in cpus
  {
    for i := 0 to |cpus|
      invariant forall c :: c in cpus[..i] ==> 0 <= c < maxCPU
    {
      if cpus[i] < 0 || cpus[i] >= maxCPU {
        assert cpus[i] in cpus;
        return None;
      }
      assert cpus[..i + 1] == cpus[..i] + [cpus[i]];
    }
    assert cpus[..|cpus|] == cpus;
    SortSorts(IntLe, cpus);
    var sorted := Sort(IntLe, cpus);
    assert forall x :: x in sorted <==> x in multiset(cpus);
    var compact := Compact(sorted);
    r := Some(compact);
  }

  /** The two together: what is written for an accepted, non-empty list names exactly its CPUs,
      in the fewest items. */
  method AffinityText(cpus: seq<int>, maxCPU: int) returns (text: Option<string>)
    ensures text.Some? <==> forall c :: c in cpus ==> 0 <= c < maxCPU
    ensures text.Some? && cpus != [] ==>
              && ParseList(text.value).Some?
              && (forall x :: x in ParseList(text.value).value <==> x in cpus)
              && forall others :: SameCpus(others, cpus) ==> |Split(',', text.value)| <= |others|
  {
    var normal := NormalizeAffinity(cpus, maxCPU);
    if normal.None? {
      return None;
    }
    var printed := FormatCPURange(normal.value);
    text := Some(printed);
    if cpus != [] {
      var c := cpus[0];
      assert c in cpus;
      assert c in normal.value;
      RangesNatural(normal.value);
      RangesExpand(normal.value);
      ListReads(RangesOf(normal.value));
      forall others | SameCpus(others, cpus) ensures |Split(',', printed)| <= |others| {
        RangesMinimal(normal.value, others);
      }
    }
  }
}
