/** Characters and numerals of the address text forms. */
module InetText {
  import opened Common

  type word = w: int | 0 <= w < 0x1_0000

  /** A C string: it ends at its first NUL, so it holds none. */
  type cstring = s: string | '\0' !in s

  predicate IsDigit(c: char) {
    '0' <= c <= '9'
  }

  function DigitValue(c: char): (d: int)
    requires IsDigit(c)
    ensures 0 <= d < 10
  {
    c as int - '0' as int
  }

  predicate IsXDigit(c: char) {
    IsDigit(c) || 'a' <= c <= 'f' || 'A' <= c <= 'F'
  }

  /** The position of the digit in either of the two digit strings of `inet_pton6`. */
  function XDigitValue(c: char): (d: int)
    requires IsXDigit(c)
    ensures 0 <= d < 16
  {
    if IsDigit(c) then DigitValue(c)
    else if 'a' <= c <= 'f' then c as int - 'a' as int + 10
    else c as int - 'A' as int + 10
  }

  /** Both digit strings count from 0 up, and nothing else is a digit. */
  lemma {:induction false} XDigitsCount(k: nat)
    requires k < 16
    ensures IsXDigit("0123456789abcdef"[k]) && XDigitValue("0123456789abcdef"[k]) == k
    ensures IsXDigit("0123456789ABCDEF"[k]) && XDigitValue("0123456789ABCDEF"[k]) == k
    ensures k < 10 ==> IsDigit("0123456789"[k]) && DigitValue("0123456789"[k]) == k
  {
    var lower := "0123456789abcdef";
    var upper := "0123456789ABCDEF";
    assert lower[k] == upper[k] || k >= 10;
  }

  lemma {:induction false} XDigitsAreThose(c: char)
    ensures IsXDigit(c) <==> c in "0123456789abcdefABCDEF"
    ensures IsDigit(c) <==> c in "0123456789"
  {
    if IsXDigit(c) {
      XDigitsCount(XDigitValue(c));
      var k := XDigitValue(c);
      var all := "0123456789abcdefABCDEF";
      assert c == all[k] || c == all[k + 6];
      if IsDigit(c) {
        assert c == "0123456789"[k];
      }
    }
  }

  /** The digit that "%u" and "%x" print. */
  function Digit(d: nat): (c: char)
    requires d < 16
    ensures IsXDigit(c) && XDigitValue(c) == d
    ensures d < 10 ==> IsDigit(c) && DigitValue(c) == d
    ensures d >= 10 ==> 'a' <= c <= 'f'
    ensures c == '0' <==> d == 0
  {
    "0123456789abcdef"[d]
  }

  /** "%u". */
  function Dec(n: nat): (s: cstring)
    ensures s != "" && forall i :: 0 <= i < |s| ==> IsDigit(s[i])
  {
    if n < 10 then [Digit(n)] else Dec(n / 10) + [Digit(n % 10)]
  }

  /** "%x". */
  function Hex(n: nat): (s: cstring)
    ensures s != "" && forall i :: 0 <= i < |s| ==> IsXDigit(s[i])
  {
    if n < 16 then [Digit(n)] else Hex(n / 16) + [Digit(n % 16)]
  }

  /** Lower case, and no leading zero but for zero itself. */
  lemma {:induction false} HexForm(n: nat)
    ensures forall i :: 0 <= i < |Hex(n)| ==> IsDigit(Hex(n)[i]) || 'a' <= Hex(n)[i] <= 'f'
    ensures n > 0 ==> Hex(n)[0] != '0'
  {
    if n >= 16 {
      HexForm(n / 16);
    }
  }

  lemma {:induction false} DecForm(n: nat)
    ensures n > 0 ==> Dec(n)[0] != '0'
  {
    if n >= 10 {
      DecForm(n / 10);
    }
  }

  lemma {:induction false} DecLength(n: nat)
    requires n < 1000
    ensures 1 <= |Dec(n)| <= 3
  {
    if n >= 10 {
      assert |Dec(n)| == |Dec(n / 10)| + 1;
      if n / 10 >= 10 {
        assert |Dec(n / 10)| == |Dec(n / 10 / 10)| + 1;
      }
    }
  }

  lemma {:induction false} HexLength(n: nat)
    requires n < 0x1_0000
    ensures 1 <= |Hex(n)| <= 4
  {
    assert n >= 16 ==> n / 16 < 0x1000;
    assert n >= 256 ==> n / 16 / 16 < 0x100;
    assert n >= 4096 ==> n / 16 / 16 / 16 < 0x10;
    if n >= 16 {
      assert |Hex(n)| == |Hex(n / 16)| + 1;
      if n / 16 >= 16 {
        assert |Hex(n / 16)| == |Hex(n / 16 / 16)| + 1;
        if n / 16 / 16 >= 16 {
          assert |Hex(n / 16 / 16)| == |Hex(n / 16 / 16 / 16)| + 1;
        }
      }
    }
  }

  /** The number a string of digits denotes, leading zeros allowed. */
  function DecValue(s: string): nat
    requires forall i :: 0 <= i < |s| ==> IsDigit(s[i])
  {
    if s == "" then 0 else DecValue(s[..|s| - 1]) * 10 + DigitValue(s[|s| - 1])
  }

  lemma {:induction false} DecRoundTrip(n: nat)
    ensures DecValue(Dec(n)) == n
  {
    if n >= 10 {
      DecRoundTrip(n / 10);
      assert Dec(n)[..|Dec(n)| - 1] == Dec(n / 10);
    }
  }

  /** More digits never make the number smaller. */
  lemma {:induction false} DecValueGrows(s: string, t: string)
    requires forall i :: 0 <= i < |s + t| ==> IsDigit((s + t)[i])
    ensures forall i :: 0 <= i < |s| ==> IsDigit(s[i])
    ensures DecValue(s) <= DecValue(s + t)
    decreases |t|
  {
    forall i | 0 <= i < |s| ensures IsDigit(s[i]) {
      assert (s + t)[i] == s[i];
    }
    if t == "" {
      assert s + t == s;
    } else {
      var u := t[..|t| - 1];
      assert (s + t)[..|s + t| - 1] == s + u;
      DecValueGrows(s, u);
    }
  }

  /** The pieces of a string between the separators. */
  function Split(s: string, sep: char): (ps: seq<string>)
    ensures |ps| >= 1
  {
    if s == "" then [""]
    else
      var ps := Split(s[1..], sep);
      if s[0] == sep then [""] + ps else [[s[0]] + ps[0]] + ps[1..]
  }

  /** What comes before the first separator joins the first piece. */
  lemma {:induction false} SplitAfter(p: string, s: string, sep: char)
    requires sep !in p
    ensures Split(p + s, sep) == [p + Split(s, sep)[0]] + Split(s, sep)[1..]
  {
    var ps := Split(s, sep);
    if p == "" {
      assert p + s == s && p + ps[0] == ps[0] && [ps[0]] + ps[1..] == ps;
    } else {
      assert (p + s)[1..] == p[1..] + s;
      SplitAfter(p[1..], s, sep);
      assert [p[0]] + (p[1..] + ps[0]) == p + ps[0];
    }
  }

  lemma {:induction false} SplitAtSeparator(p: string, s: string, sep: char)
    requires sep !in p && s != "" && s[0] == sep
    ensures Split(p + s, sep) == [p] + Split(s[1..], sep)
  {
    SplitAfter(p, s, sep);
    assert Split(s, sep)[0] == "" && Split(s, sep)[1..] == Split(s[1..], sep) && p + "" == p;
  }
}
