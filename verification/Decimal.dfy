/** Depths as text: what `str(n)` prints and what `int(text.strip())` reads, for ASCII text. */
module Decimal {
  import opened Options

  predicate IsBlank(c: char) {
    c == ' ' || '\t' <= c <= '\r' || '\U{1C}' <= c <= '\U{1F}'
  }

  function StripLeft(s: string): string {
    if s != [] && IsBlank(s[0]) then StripLeft(s[1..]) else s
  }

  function StripRight(s: string): string {
    if s != [] && IsBlank(s[|s| - 1]) then StripRight(s[..|s| - 1]) else s
  }

  function Strip(s: string): string {
    StripRight(StripLeft(s))
  }

  predicate IsDigit(c: char) {
    '0' <= c <= '9'
  }

  function DigitValue(c: char): nat
    requires IsDigit(c)
  {
    (c as int) - ('0' as int)
  }

  function DigitOf(d: nat): char
    requires d < 10
  {
    (d + '0' as int) as char
  }

  /** Digits, with single underscores allowed between them, as Python's int() reads them. */
  function ReadDigits(s: string): Option<nat> {
    if s == [] || !IsDigit(s[|s| - 1]) then None
    else if |s| == 1 then Some(DigitValue(s[0]))
    else
      var rest := s[..|s| - 1];
      match ReadDigits(if rest[|rest| - 1] == '_' then rest[..|rest| - 1] else rest)
      case None => None
      case Some(n) => Some(10 * n + DigitValue(s[|s| - 1]))
  }

  function ReadSigned(s: string): Option<int> {
    if s != [] && (s[0] == '-' || s[0] == '+') then
      match ReadDigits(s[1..])
      case None => None
      case Some(n) => if s[0] == '-' then Some(0 - n as int) else Some(n as int)
    else
      match ReadDigits(s)
      case None => None
      case Some(n) => Some(n)
  }

  /** `int(text)`: None is the ValueError. */
  function ReadInt(text: string): Option<int> {
    ReadSigned(Strip(text))
  }

  function ShowNat(n: nat): string {
    if n < 10 then [DigitOf(n)] else ShowNat(n / 10) + [DigitOf(n % 10)]
  }

  /** `str(n)` */
  function Show(n: int): string {
    if n < 0 then "-" + ShowNat(-n) else ShowNat(n)
  }

  lemma {:induction false} ShowNatReads(n: nat)
    ensures ShowNat(n) != []
    ensures forall i :: 0 <= i < |ShowNat(n)| ==> IsDigit(ShowNat(n)[i])
    ensures ReadDigits(ShowNat(n)) == Some(n)
  {
    if n >= 10 {
      ShowNatReads(n / 10);
      var s := ShowNat(n);
      assert s[..|s| - 1] == ShowNat(n / 10);
    }
  }

  lemma {:induction false} StripKeeps(s: string)
    requires s != [] && !IsBlank(s[0]) && !IsBlank(s[|s| - 1])
    ensures Strip(s) == s
  {
  }

  /** What was printed reads back: a depth written to a record is the depth the record reads as. */
  lemma ShowReads(n: int)
    ensures ReadInt(Show(n)) == Some(n)
    ensures Strip(Show(n)) != []
  {
    ShowNatReads(if n < 0 then -n else n);
    StripKeeps(Show(n));
    if n < 0 {
      assert Show(n)[1..] == ShowNat(-n);
    }
  }

  /** What reads as digits: digits first, last and around every underscore, and nothing else. */
  predicate Grouped(s: string) {
    && s != [] && IsDigit(s[0]) && IsDigit(s[|s| - 1])
    && forall i :: 0 <= i < |s| && !IsDigit(s[i]) ==> s[i] == '_' && 0 < i && IsDigit(s[i - 1])
  }

  lemma {:induction false} ReadsGrouped(s: string)
    ensures ReadDigits(s).Some? <==> Grouped(s)
    decreases |s|
  {
    if s != [] && IsDigit(s[|s| - 1]) && |s| > 1 {
      var rest := s[..|s| - 1];
      if rest[|rest| - 1] == '_' {
        assert rest[..|rest| - 1] == s[..|s| - 2];
        ReadsGrouped(s[..|s| - 2]);
        Ungrouped(s);
      } else {
        ReadsGrouped(rest);
        Regrouped(s);
      }
    }
  }

  lemma Regrouped(s: string)
    requires |s| > 1 && IsDigit(s[|s| - 1]) && s[|s| - 2] != '_'
    ensures Grouped(s) <==> Grouped(s[..|s| - 1])
  {
    var r := s[..|s| - 1];
    assert forall i :: 0 <= i < |r| ==> r[i] == s[i];
    if Grouped(s) {
      assert IsDigit(s[|s| - 2]);
    }
    if Grouped(r) {
      forall i | 0 <= i < |s| && !IsDigit(s[i])
        ensures s[i] == '_' && 0 < i && IsDigit(s[i - 1])
      {
        assert r[i] == s[i];
      }
    }
  }

  lemma Ungrouped(s: string)
    requires |s| > 1 && IsDigit(s[|s| - 1]) && s[|s| - 2] == '_'
    ensures Grouped(s) <==> Grouped(s[..|s| - 2])
  {
    var r := s[..|s| - 2];
    if Grouped(s) {
      assert !IsDigit(s[|s| - 2]) && IsDigit(s[|s| - 3]);
      assert forall i :: 0 <= i < |r| ==> r[i] == s[i];
    }
    if Grouped(r) {
      forall i | 0 <= i < |s| && !IsDigit(s[i])
        ensures s[i] == '_' && 0 < i && IsDigit(s[i - 1])
      {
        if i < |r| {
          assert r[i] == s[i];
        } else {
          assert s[i - 1] == r[|r| - 1];
        }
      }
    }
  }

  /** A zero in front changes nothing. */
  lemma {:induction false} LeadingZero(s: string)
    requires s != [] && forall i :: 0 <= i < |s| ==> IsDigit(s[i])
    ensures ReadDigits(['0'] + s) == ReadDigits(s)
    decreases |s|
  {
    var t := ['0'] + s;
    assert t[..|t| - 1] == ['0'] + s[..|s| - 1];
    if |s| > 1 {
      LeadingZero(s[..|s| - 1]);
    } else {
      assert t[..1] == ['0'] && DigitValue('0') == 0;
    }
  }

  /** Spaces, tabs and line ends, on either side of a number. */
  predicate Margin(s: string) {
    forall i :: 0 <= i < |s| ==> s[i] == ' ' || s[i] == '\t' || s[i] == '\n' || s[i] == '\r'
  }

  /** A number with a sign or none, between margins, is read. */
  lemma SignedReads(n: nat, before: string, after: string)
    requires Margin(before) && Margin(after)
    ensures ReadInt(before + (ShowNat(n) + after)) == Some(n)
    ensures ReadInt(before + (("+" + ShowNat(n)) + after)) == Some(n)
    ensures ReadInt(before + (("-" + ShowNat(n)) + after)) == Some(0 - n)
  {
    ShowNatReads(n);
    MarginsGo(before, ShowNat(n), after);
    MarginsGo(before, "+" + ShowNat(n), after);
    MarginsGo(before, "-" + ShowNat(n), after);
    assert ("+" + ShowNat(n))[1..] == ShowNat(n) && ("-" + ShowNat(n))[1..] == ShowNat(n);
  }

  lemma MarginsGo(before: string, s: string, after: string)
    requires Margin(before) && Margin(after) && s != [] && !IsBlank(s[0]) && !IsBlank(s[|s| - 1])
    ensures Strip(before + (s + after)) == s
  {
    LeftMargin(before, s + after);
    RightMargin(s, after);
  }

  lemma {:induction false} LeftMargin(before: string, s: string)
    requires Margin(before) && s != [] && !IsBlank(s[0])
    ensures StripLeft(before + s) == s
    decreases |before|
  {
    if before == [] {
      assert before + s == s;
    } else {
      assert (before + s)[1..] == before[1..] + s;
      LeftMargin(before[1..], s);
    }
  }

  lemma {:induction false} RightMargin(s: string, after: string)
    requires Margin(after) && s != [] && !IsBlank(s[|s| - 1])
    ensures StripRight(s + after) == s
    decreases |after|
  {
    if after == [] {
      assert s + after == s;
    } else {
      var n := |after| - 1;
      assert (s + after)[..|s + after| - 1] == s + after[..n];
      RightMargin(s, after[..n]);
    }
  }
}
