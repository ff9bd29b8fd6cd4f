/** atoi and the printing of a C int. */
module Decimal {
  import opened ConfigText
  import opened Strings

  /** The range of a C int. */
  predicate CInt(n: int) {
    -0x8000_0000 <= n < 0x8000_0000
  }

  function Run(s: string, acc: nat): nat {
    if s != "" && Digit(s[0]) then Run(s[1..], acc * 10 + (s[0] as int - '0' as int)) else acc
  }

  /** atoi, without the width of its result: white space, a sign, digits up to the first other character. */
  function Atoi(s: string): int {
    var t := TrimLeft(s);
    if t != "" && t[0] == '-' then 0 - Run(t[1..], 0)
    else if t != "" && t[0] == '+' then Run(t[1..], 0)
    else Run(t, 0)
  }

  function DigitChar(n: nat): (c: char)
    requires n < 10
    ensures Digit(c) && c as int - '0' as int == n
  {
    ('0' as int + n) as char
  }

  function Digits(n: nat): (s: string)
    ensures s != "" && forall k :: 0 <= k < |s| ==> Digit(s[k])
  {
    if n < 10 then [DigitChar(n)] else Digits(n / 10) + [DigitChar(n % 10)]
  }

  function PrintInt(n: int): string {
    if n < 0 then "-" + Digits(-n) else Digits(n)
  }

  lemma {:induction false} RunSnoc(s: string, d: nat, acc: nat)
    requires d < 10 && forall k :: 0 <= k < |s| ==> Digit(s[k])
    ensures Run(s + [DigitChar(d)], acc) == Run(s, acc) * 10 + d
  {
    if s == "" {
      assert ([DigitChar(d)])[1..] == "";
      assert s + [DigitChar(d)] == [DigitChar(d)];
      assert Run("", acc * 10 + d) == acc * 10 + d;
    } else {
      assert (s + [DigitChar(d)])[1..] == s[1..] + [DigitChar(d)];
      RunSnoc(s[1..], d, acc * 10 + (s[0] as int - '0' as int));
    }
  }

  lemma {:induction false} RunDigits(n: nat)
    ensures Run(Digits(n), 0) == n
  {
    if n < 10 {
      RunSnoc("", n, 0);
      assert "" + [DigitChar(n)] == Digits(n);
    } else {
      RunDigits(n / 10);
      RunSnoc(Digits(n / 10), n % 10, 0);
    }
  }

  /** Reading a printed number returns it. */
  lemma AtoiPrint(n: int)
    ensures Atoi(PrintInt(n)) == n
  {
    var s := PrintInt(n);
    if n < 0 {
      RunDigits(-n);
      assert s[1..] == Digits(-n);
    } else {
      RunDigits(n);
      assert Digit(s[0]);
    }
  }

  lemma {:induction false} RunStops(s: string, rest: string, acc: nat)
    requires forall k :: 0 <= k < |s| ==> Digit(s[k])
    requires rest == "" || !Digit(rest[0])
    ensures Run(s + rest, acc) == Run(s, acc)
  {
    if s != "" {
      assert (s + rest)[1..] == s[1..] + rest;
      RunStops(s[1..], rest, acc * 10 + (s[0] as int - '0' as int));
    } else {
      assert s + rest == rest;
    }
  }

  /** Blanks in front and whatever follows the digits make no difference. */
  lemma AtoiReads(b: string, n: int, rest: string)
    requires (forall i :: 0 <= i < |b| ==> Space(b[i])) && (rest == "" || !Digit(rest[0]))
    ensures Atoi(b + (PrintInt(n) + rest)) == n
  {
    var d := Digits(if n < 0 then -n else n);
    RunDigits(if n < 0 then -n else n);
    RunStops(d, rest, 0);
    hide Run, Digits, TrimLeft, Atoi;
    SkipBlanks(b, PrintInt(n) + rest);
    PrintedText(n, rest);
    hide PrintInt;
    if n < 0 {
      AtoiSigned(b + (PrintInt(n) + rest), '-', d + rest);
    } else {
      AtoiUnsigned(b + (PrintInt(n) + rest), d + rest);
    }
  }

  /** Nor does a plus sign. */
  lemma AtoiPlus(b: string, n: nat, rest: string)
    requires (forall i :: 0 <= i < |b| ==> Space(b[i])) && (rest == "" || !Digit(rest[0]))
    ensures Atoi(b + ("+" + (Digits(n) + rest))) == n
  {
    RunDigits(n);
    RunStops(Digits(n), rest, 0);
    hide Run, Digits, TrimLeft, Atoi;
    SkipBlanks(b, "+" + (Digits(n) + rest));
    AtoiSigned(b + ("+" + (Digits(n) + rest)), '+', Digits(n) + rest);
  }

  lemma PrintedText(n: int, rest: string)
    ensures PrintInt(n) + rest == if n < 0 then "-" + (Digits(-n) + rest) else Digits(n) + rest
    ensures PrintInt(n) != "" && StartsClean(PrintInt(n) + rest)
  {
    hide Digits;
  }

  lemma AtoiSigned(s: string, sign: char, t: string)
    requires TrimLeft(s) == [sign] + t && sign in {'+', '-'}
    ensures sign == '-' ==> Atoi(s) == 0 - Run(t, 0)
    ensures sign == '+' ==> Atoi(s) == Run(t, 0)
  {
    hide Run, TrimLeft;
    assert ([sign] + t)[0] == sign && ([sign] + t)[1..] == t;
  }

  lemma AtoiUnsigned(s: string, t: string)
    requires TrimLeft(s) == t && t != "" && Digit(t[0])
    ensures Atoi(s) == Run(t, 0)
  {
    hide Run, TrimLeft;
  }

  lemma SkipBlanks(b: string, s: string)
    requires (forall i :: 0 <= i < |b| ==> Space(b[i])) && StartsClean(s)
    ensures TrimLeft(b + s) == s
  {
    assert (b + s)[|b|..] == s;
    TrimLeftCut(b + s, |b|);
  }

  /** A text that does not start with a number is zero. */
  lemma AtoiZero(b: string, rest: string)
    requires (forall i :: 0 <= i < |b| ==> Space(b[i])) && StartsClean(rest)
    requires rest == "" || (!Digit(rest[0]) && (rest[0] in {'+', '-'} ==> |rest| == 1 || !Digit(rest[1])))
    ensures Atoi(b + rest) == 0
  {
    SkipBlanks(b, rest);
  }

  function PowerOfTen(k: nat): (p: nat)
    ensures p > 0
  {
    if k == 0 then 1 else 10 * PowerOfTen(k - 1)
  }

  lemma {:induction false} DigitsFit(n: nat, k: nat)
    requires k > 0 && n < PowerOfTen(k)
    ensures |Digits(n)| <= k
  {
    if n >= 10 {
      assert PowerOfTen(1) == 10 * PowerOfTen(0);
      DigitsFit(n / 10, k - 1);
    }
  }

  /** A printed int is short, has no newline and no white space around it. */
  lemma PrintIntIsShort(n: int)
    requires CInt(n)
    ensures |PrintInt(n)| <= 11 && '\n' !in PrintInt(n)
    ensures StartsClean(PrintInt(n)) && EndsClean(PrintInt(n))
  {
    TenPower();
    if n < 0 {
      DigitsFit(-n, 10);
    } else {
      DigitsFit(n, 10);
    }
  }

  lemma TenPower()
    ensures PowerOfTen(10) == 10_000_000_000
  {
    assert PowerOfTen(5) == 100_000;
    assert PowerOfTen(7) == 10_000_000;
    assert PowerOfTen(9) == 1000_000_000;
  }
}
