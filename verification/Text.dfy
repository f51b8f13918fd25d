/** White space and decimal numbers as Go's strings and strconv packages treat them. */
module Text {
  import opened Runs

  /** unicode.IsSpace */
  predicate Space(c: char) {
    var n := c as int;
    || 9 <= n <= 13 || n == 32 || n == 0x85 || n == 0xA0 || n == 0x1680 || 0x2000 <= n <= 0x200A
    || n == 0x2028 || n == 0x2029 || n == 0x202F || n == 0x205F || n == 0x3000
  }

  /** The white space characters by number. */
  lemma SpaceCodes(c: char)
    ensures Space(c) <==>
            c as int in {9, 10, 11, 12, 13, 32, 0x85, 0xA0, 0x1680, 0x2000, 0x2001, 0x2002, 0x2003, 0x2004, 0x2005, 0x2006,
                         0x2007, 0x2008, 0x2009, 0x200A, 0x2028, 0x2029, 0x202F, 0x205F, 0x3000}
  {
  }

  /** strings.TrimSpace */
  function TrimSpace(s: string): string
    decreases |s|
  {
    if s == "" then ""
    else if Space(s[0]) then TrimSpace(s[1..])
    else if Space(s[|s| - 1]) then TrimSpace(s[..|s| - 1])
    else s
  }

  /** Space at the end never survives trimming. */
  lemma {:induction false} TrimEnd(s: string, c: char)
    requires Space(c)
    ensures TrimSpace(s + [c]) == TrimSpace(s)
  {
    var t := s + [c];
    if s == "" {
      assert t[1..] == "";
    } else if Space(s[0]) {
      assert t[1..] == s[1..] + [c];
      TrimEnd(s[1..], c);
    } else {
      assert t[..|t| - 1] == s;
    }
  }

  /** The result lies between the white space at both ends, and starts and ends with none. */
  lemma {:induction false} TrimMeaning(s: string) returns (i: nat, j: nat)
    ensures i <= j <= |s| && TrimSpace(s) == s[i..j]
    ensures forall k :: 0 <= k < i || j <= k < |s| ==> Space(s[k])
    ensures i < j ==> !Space(s[i]) && !Space(s[j - 1])
    decreases |s|
  {
    if s == "" {
      i, j := 0, 0;
    } else if Space(s[0]) {
      var a, b := TrimMeaning(s[1..]);
      i, j := a + 1, b + 1;
      assert s[1..][a..b] == s[i..j];
      assert forall k :: 0 < k < |s| ==> s[k] == s[1..][k - 1];
    } else if Space(s[|s| - 1]) {
      i, j := TrimMeaning(s[..|s| - 1]);
    } else {
      i, j := 0, |s|;
      assert s[0..|s|] == s;
    }
  }

  lemma {:induction false} TrimShrinks(s: string)
    ensures |TrimSpace(s)| <= |s|
    decreases |s|
  {
    if s != "" {
      if Space(s[0]) { TrimShrinks(s[1..]); } else if Space(s[|s| - 1]) { TrimShrinks(s[..|s| - 1]); }
    }
  }

  /** Nor does space at the beginning. */
  lemma {:induction false} TrimLeading(s: string, k: nat)
    requires k <= |s| && forall i :: 0 <= i < k ==> Space(s[i])
    ensures TrimSpace(s[k..]) == TrimSpace(s)
  {
    if k == 0 {
      assert s[k..] == s;
    } else {
      TrimLeading(s[1..], k - 1);
      assert s[1..][k - 1..] == s[k..];
    }
  }

  lemma {:induction false} TrimKeepsVisible(s: string, i: nat)
    requires i < |s| && !Space(s[i])
    ensures TrimSpace(s) != ""
    decreases |s|
  {
    if Space(s[0]) {
      TrimKeepsVisible(s[1..], i - 1);
    } else if Space(s[|s| - 1]) {
      TrimKeepsVisible(s[..|s| - 1], i);
    }
  }

  lemma TrimBothEnds(s: string, k: nat)
    requires k < |s| && Space(s[|s| - 1])
    ensures TrimSpace(s[k..]) == TrimSpace(s[..|s| - 1][k..])
  {
    var n := |s| - 1;
    TrimEnd(s[..n][k..], s[n]);
    assert s[k..] == s[..n][k..] + [s[n]];
  }

  /** Cutting off a visible character shortens the trimmed text. */
  lemma {:induction false} TrimLoses(s: string, i: nat, k: nat)
    requires i < k <= |s| && !Space(s[i])
    ensures |TrimSpace(s[k..])| < |TrimSpace(s)|
    decreases |s|
  {
    if Space(s[0]) {
      TrimLoses(s[1..], i - 1, k - 1);
      assert s[1..][k - 1..] == s[k..];
    } else if k == |s| {
      TrimKeepsVisible(s, i);
    } else if Space(s[|s| - 1]) {
      TrimLoses(s[..|s| - 1], i, k);
      TrimBothEnds(s, k);
    } else {
      TrimShrinks(s[k..]);
    }
  }

  predicate Digit(c: char) { '0' <= c <= '9' }

  function DigitsValue(s: string): Option<nat> {
    if s == "" then Some(0)
    else
      var front := DigitsValue(s[..|s| - 1]);
      if front.None? || !Digit(s[|s| - 1]) then None
      else Some(front.value * 10 + (s[|s| - 1] as int - '0' as int))
  }

  lemma {:induction false} OnlyDigits(s: string)
    requires DigitsValue(s).Some?
    ensures forall c :: c in s ==> Digit(c)
  {
    if s != "" {
      OnlyDigits(s[..|s| - 1]);
      assert s == s[..|s| - 1] + [s[|s| - 1]];
    }
  }

  lemma {:induction false} AllDigits(s: string)
    requires forall c :: c in s ==> Digit(c)
    ensures DigitsValue(s).Some?
  {
    if s != "" {
      AllDigits(s[..|s| - 1]);
    }
  }

  /** Leading zeros do not count. */
  lemma {:induction false} LeadingZero(s: string)
    ensures DigitsValue(['0'] + s) == DigitsValue(s)
  {
    var z := ['0'] + s;
    if s == "" {
      assert z[..0] == "" && DigitsValue("") == Some(0);
    } else {
      LeadingZero(s[..|s| - 1]);
      assert z[..|z| - 1] == ['0'] + s[..|s| - 1];
    }
  }

  /** %d for a number that is not negative. */
  function Decimal(n: nat): (r: string)
    ensures r != ""
  {
    var digit := ['0' + (n % 10) as char];
    if n < 10 then digit else Decimal(n / 10) + digit
  }

  lemma {:induction false} DecimalReads(n: nat)
    ensures DigitsValue(Decimal(n)) == Some(n)
  {
    var s := Decimal(n);
    if n < 10 {
      assert s[..|s| - 1] == "";
    } else {
      DecimalReads(n / 10);
      assert s[..|s| - 1] == Decimal(n / 10);
    }
  }
}
