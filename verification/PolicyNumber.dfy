/** The text of a policy number: "POL-INS-", the year, and the sequence number padded to five digits. */
module PolicyNumber {

  datatype PolicyNo = PolicyNo(year: nat, seqNo: nat) {
    function Text(): string {
      "POL-INS-" + Decimal(year) + "-" + PadTo5(Decimal(seqNo))
    }
  }

  predicate IsDigit(c: char) {
    '0' <= c <= '9'
  }

  predicate Digits(s: string) {
    forall i :: 0 <= i < |s| ==> IsDigit(s[i])
  }

  function Decimal(n: nat): (s: string)
    ensures |s| >= 1 && Digits(s)
  {
    if n < 10 then [('0' as int + n) as char] else Decimal(n / 10) + [('0' as int + n % 10) as char]
  }

  function PadTo5(s: string): (r: string)
    ensures Digits(s) ==> Digits(r)
    decreases 5 - |s|
  {
    if |s| < 5 then PadTo5("0" + s) else s
  }

  /** The number a string of digits denotes. */
  function Value(s: string): int
    requires Digits(s)
  {
    if s == "" then 0 else 10 * Value(s[..|s| - 1]) + (s[|s| - 1] as int - '0' as int)
  }

  lemma {:induction false} ValueOfDecimal(n: nat)
    ensures Value(Decimal(n)) == n
  {
    if n >= 10 {
      ValueOfDecimal(n / 10);
      var s := Decimal(n);
      assert s[..|s| - 1] == Decimal(n / 10);
    } else {
      assert Decimal(n)[..0] == "";
    }
  }

  lemma {:induction false} LeadingZero(s: string)
    requires Digits(s)
    ensures Digits("0" + s) && Value("0" + s) == Value(s)
  {
    var z := "0" + s;
    if s == "" {
      assert z[..0] == "";
    } else {
      LeadingZero(s[..|s| - 1]);
      assert z[..|z| - 1] == "0" + s[..|s| - 1];
    }
  }

  lemma {:induction false} ValueOfPadded(s: string)
    requires Digits(s)
    ensures Value(PadTo5(s)) == Value(s)
    decreases 5 - |s|
  {
    if |s| < 5 {
      LeadingZero(s);
      ValueOfPadded("0" + s);
    }
  }

  lemma {:induction false} PaddedWidth(s: string)
    ensures |PadTo5(s)| == if |s| < 5 then 5 else |s|
    ensures |s| >= 5 ==> PadTo5(s) == s
    decreases 5 - |s|
  {
    if |s| < 5 {
      PaddedWidth("0" + s);
    }
  }

  lemma {:induction false} NoLeadingZero(n: nat)
    requires n > 0
    ensures Decimal(n)[0] != '0'
  {
    if n >= 10 {
      NoLeadingZero(n / 10);
    }
  }

  /** The text is "POL-INS-", the year, '-', and the sequence number in at least five digits, with zeros only to
      fill up to five. */
  lemma TextMeans(p: PolicyNo) returns (year: string, digits: string)
    ensures p.Text() == "POL-INS-" + year + "-" + digits
    ensures Digits(year) && Digits(digits) && Value(year) == p.year && Value(digits) == p.seqNo
    ensures |digits| >= 5 && (|digits| > 5 ==> digits[0] != '0') && (p.year > 0 ==> year[0] != '0')
  {
    year, digits := Decimal(p.year), PadTo5(Decimal(p.seqNo));
    ValueOfDecimal(p.year);
    ValueOfDecimal(p.seqNo);
    ValueOfPadded(Decimal(p.seqNo));
    PaddedWidth(Decimal(p.seqNo));
    if p.year > 0 {
      NoLeadingZero(p.year);
    }
    if p.seqNo > 0 {
      NoLeadingZero(p.seqNo);
    }
  }

  /** A digit string is determined by its text up to the first '-'. */
  lemma SplitAtDash(y1: string, s1: string, y2: string, s2: string)
    requires Digits(y1) && Digits(y2)
    requires y1 + "-" + s1 == y2 + "-" + s2
    ensures y1 == y2 && s1 == s2
  {
    var a, b := y1 + "-" + s1, y2 + "-" + s2;
    assert |y1| == |y2| by {
      assert a[|y1|] == '-' && b[|y2|] == '-';
      assert forall i :: 0 <= i < |y1| ==> IsDigit(a[i]);
      assert forall i :: 0 <= i < |y2| ==> IsDigit(b[i]);
    }
    assert y1 == a[..|y1|] && y2 == b[..|y1|];
    assert s1 == a[|y1| + 1..] && s2 == b[|y1| + 1..];
  }

  /** Distinct policy numbers have distinct texts, sequence numbers of more than five digits included. */
  lemma TextInjective(a: PolicyNo, b: PolicyNo)
    requires a.Text() == b.Text()
    ensures a == b
  {
    var ta, tb := PadTo5(Decimal(a.seqNo)), PadTo5(Decimal(b.seqNo));
    assert a.Text()[8..] == Decimal(a.year) + "-" + ta;
    assert b.Text()[8..] == Decimal(b.year) + "-" + tb;
    SplitAtDash(Decimal(a.year), ta, Decimal(b.year), tb);
    ValueOfDecimal(a.year);
    ValueOfDecimal(b.year);
    ValueOfDecimal(a.seqNo);
    ValueOfDecimal(b.seqNo);
    ValueOfPadded(Decimal(a.seqNo));
    ValueOfPadded(Decimal(b.seqNo));
  }
}
