/** Exactly what `inet_pton6` accepts, and what it then denotes, in terms of the fields between the colons
    of the text rather than its characters. */
module InetLanguage {
  import opened Common
  import opened InetText
  import opened InetPton4
  import opened InetPton6

  /** The pieces of a string between its colons. */
  function Fields(s: string): (fs: seq<string>)
    ensures |fs| >= 1
  {
    Split(s, ':')
  }

  /** The bytes the fields spell after `out`, and how many come before the empty field that marks the place of
      the zeros: a field followed by a colon is a group, or empty once for the mark; the last is empty, a group
      or a dotted quad. */
  function SpelledBy(fs: seq<string>, out: seq<byte>, colon: int): (g: Option<(seq<byte>, int)>)
    requires |fs| >= 1 && |out| <= SIZE && -1 <= colon <= |out|
    ensures g.Some? ==> |g.value.0| <= SIZE && -1 <= g.value.1 <= |g.value.0|
    decreases |fs|
  {
    if |fs| == 1 then SpelledByLast(fs[0], out, colon)
    else if fs[0] == "" then
      if colon != -1 then None else SpelledBy(fs[1..], out, |out|)
    else if IsGroup(fs[0]) && |out| + 2 <= SIZE then SpelledBy(fs[1..], out + Pair(HexValue(fs[0])), colon)
    else None
  }

  function SpelledByLast(f: string, out: seq<byte>, colon: int): (g: Option<(seq<byte>, int)>)
    requires |out| <= SIZE && -1 <= colon <= |out|
    ensures g.Some? ==> |g.value.0| <= SIZE && -1 <= g.value.1 <= |g.value.0|
  {
    if f == "" then Some((out, colon))
    else if IsGroup(f) && |out| + 2 <= SIZE then Some((out + Pair(HexValue(f)), colon))
    else if Address4(f).Some? && |out| + 4 <= SIZE then Some((out + Address4(f).value, colon))
    else None
  }

  /** The same for a whole text. A first colon counts only as part of a `::`, and is passed over. */
  function Spells6(s: string): (g: Option<(seq<byte>, int)>)
    ensures g.Some? ==> |g.value.0| <= SIZE && -1 <= g.value.1 <= |g.value.0|
  {
    if s == "" || s[0] != ':' then SpelledBy(Fields(s), [], -1)
    else if |s| >= 2 && s[1] == ':' then SpelledBy(Fields(s[1..]), [], -1)
    else None
  }

  /** The address a text denotes: zeros fill it up at the mark, and without a mark nothing may be missing. */
  function Denotes6(s: string): Option<seq<byte>> {
    var g := Spells6(s);
    if g.None? then None else Placed(g.value.0, g.value.1)
  }

  // ----- Fields -----

  lemma {:induction false} OneField(s: string)
    ensures |Fields(s)| == 1 ==> Fields(s) == [s]
    ensures ':' !in s ==> |Fields(s)| == 1
  {
    if s != "" {
      OneField(s[1..]);
      assert s == [s[0]] + s[1..];
    }
  }

  lemma {:induction false} NoColon(p: string)
    requires XDigits(p)
    ensures ':' !in p
  {
  }

  // ----- Dotted quads -----

  lemma {:induction false} CharInGroup(q: string, i: nat) returns (k: nat)
    requires i < |q| && q[i] != '.'
    ensures k < |Groups(q)| && q[i] in Groups(q)[k]
    decreases i
  {
    if i == 0 {
      k := 0;
      assert Groups(q)[0][0] == q[0];
    } else {
      k := CharInGroup(q[1..], i - 1);
      if q[0] == '.' {
        k := k + 1;
      }
    }
  }

  /** A dotted quad is made of digits and dots. */
  lemma {:induction false} QuadChar(q: string, i: nat)
    requires Address4(q).Some? && i < |q|
    ensures IsDigit(q[i]) || q[i] == '.'
  {
    if q[i] != '.' {
      var k := CharInGroup(q, i);
      assert IsOctet(Groups(q)[k]);
    }
  }

  lemma {:induction false} QuadHasNoColon(q: string)
    requires Address4(q).Some?
    ensures ':' !in q && Fields(q) == [q] && q != "" && !IsGroup(q)
  {
    forall i | 0 <= i < |q| ensures q[i] != ':' {
      QuadChar(q, i);
    }
    OneField(q);
    QuadStartsWithGroup(q);
    var n := |Groups(q)[0]|;
    assert !IsXDigit(q[n]);
  }

  lemma {:induction false} TooLargeForGroup(p: string, f: string)
    requires XDigits(p) && HexValue(p) > 0xffff && |p| <= |f| && f[..|p|] == p
    ensures !IsGroup(f)
  {
    if XDigits(f) {
      assert p + f[|p|..] == f;
      HexGrows(p, f[|p|..]);
    }
  }

  /** A group too large to be one does not begin a dotted quad either. */
  lemma {:induction false} TooLargeForQuad(p: string, f: string)
    requires XDigits(p) && HexValue(p) > 0xffff && |p| <= |f| && f[..|p|] == p
    ensures Address4(f).None?
  {
    hide Address4, HexValue, Groups;
    if Address4(f).Some? {
      QuadStartsWithGroup(f);
      var g := Groups(f)[0];
      OctetIsGroup(g);
      if |g| >= |p| {
        assert g[..|p|] == f[..|g|][..|p|] == f[..|p|];
        TooLargeForGroup(p, g);
      }
      assert false;
    }
  }

  // ----- The scan -----

  /** The scan and the fields agree: `p` is the part of the current field already read. */
  ghost predicate Agree(s: string, p: string, out: seq<byte>, colon: int)
    requires XDigits(p) && HexValue(p) <= 0xffff && |out| <= SIZE && -1 <= colon <= |out|
  {
    Gathered(Scan6(s, out, colon, HexValue(p), p != "", p + s)) == SpelledBy(Fields(p + s), out, colon)
  }

  lemma {:induction false} AgreeAtEnd(p: string, out: seq<byte>, colon: int)
    requires XDigits(p) && HexValue(p) <= 0xffff && |out| <= SIZE && -1 <= colon <= |out|
    ensures Agree("", p, out, colon)
  {
    assert p + "" == p;
    NoColon(p);
    OneField(p);
    if p != "" && Address4(p).Some? {
      QuadHasNoColon(p);
    }
  }

  /** A first field that is neither empty, nor a group, nor a dotted quad to the end. */
  lemma {:induction false} NothingSpelled(s: string, out: seq<byte>, colon: int)
    requires |out| <= SIZE && -1 <= colon <= |out|
    requires Fields(s)[0] != "" && !IsGroup(Fields(s)[0])
    requires Address4(s).None? || |out| + 4 > SIZE
    ensures SpelledBy(Fields(s), out, colon) == None
  {
    OneField(s);
  }

  lemma {:induction false} AgreeAtColon(s: string, p: string, out: seq<byte>, colon: int)
    requires XDigits(p) && HexValue(p) <= 0xffff && |out| <= SIZE && -1 <= colon <= |out|
    requires s != "" && s[0] == ':'
    requires p == "" && colon == -1 ==> Agree(s[1..], "", out, |out|)
    requires p != "" && |out| + 2 <= SIZE ==> Agree(s[1..], "", out + Pair(HexValue(p)), colon)
    ensures Agree(s, p, out, colon)
  {
    NoColon(p);
    SplitAtSeparator(p, s, ':');
    assert "" + s[1..] == s[1..];
    assert ([p] + Fields(s[1..]))[1..] == Fields(s[1..]);
  }

  lemma {:induction false} FirstField(p: string, s: string)
    requires ':' !in p && s != "" && s[0] != ':'
    ensures var f := Fields(p + s)[0]; |p| < |f| && f[..|p|] == p && f[|p|] == s[0]
  {
    SplitAfter(p, s, ':');
    assert Fields(s)[0][0] == s[0];
  }

  lemma {:induction false} AgreeAtDot(s: string, p: string, out: seq<byte>, colon: int)
    requires XDigits(p) && HexValue(p) <= 0xffff && |out| <= SIZE && -1 <= colon <= |out|
    requires s != "" && s[0] == '.'
    ensures Agree(s, p, out, colon)
  {
    NoColon(p);
    FirstField(p, s);
    var f := Fields(p + s)[0];
    assert !IsXDigit(f[|p|]);
    if Address4(p + s).Some? && |out| + 4 <= SIZE {
      QuadHasNoColon(p + s);
    } else {
      NothingSpelled(p + s, out, colon);
    }
  }

  lemma {:induction false} AgreeAtOther(s: string, p: string, out: seq<byte>, colon: int)
    requires XDigits(p) && HexValue(p) <= 0xffff && |out| <= SIZE && -1 <= colon <= |out|
    requires s != "" && s[0] != '.' && s[0] != ':' && !IsXDigit(s[0])
    ensures Agree(s, p, out, colon)
  {
    NoColon(p);
    FirstField(p, s);
    var f := Fields(p + s)[0];
    assert !IsXDigit(f[|p|]);
    if Address4(p + s).Some? {
      QuadChar(p + s, |p|);
      assert false;
    }
    NothingSpelled(p + s, out, colon);
  }

  lemma {:induction false} AgreeTooLarge(s: string, p: string, out: seq<byte>, colon: int)
    requires XDigits(p) && HexValue(p) <= 0xffff && |out| <= SIZE && -1 <= colon <= |out|
    requires s != "" && IsXDigit(s[0]) && HexValue(p) * 16 + XDigitValue(s[0]) > 0xffff
    ensures Agree(s, p, out, colon)
  {
    HexAppend(p, s[0]);
    NoColon(p);
    FirstField(p, s);
    var (p', f) := (p + [s[0]], Fields(p + s)[0]);
    assert f[..|p'|] == p';
    TooLargeForGroup(p', f);
    assert (p + s)[..|p'|] == p';
    TooLargeForQuad(p', p + s);
    NothingSpelled(p + s, out, colon);
  }

  lemma {:induction false} AgreeAtDigit(s: string, p: string, out: seq<byte>, colon: int)
    requires XDigits(p) && HexValue(p) <= 0xffff && |out| <= SIZE && -1 <= colon <= |out|
    requires s != "" && IsXDigit(s[0]) && HexValue(p) * 16 + XDigitValue(s[0]) <= 0xffff
    requires XDigits(p + [s[0]]) && HexValue(p + [s[0]]) == HexValue(p) * 16 + XDigitValue(s[0])
    requires Agree(s[1..], p + [s[0]], out, colon)
    ensures Agree(s, p, out, colon)
  {
    hide HexValue, SpelledBy, Gathered, Fields;
    assert p + [s[0]] + s[1..] == p + s;
  }

  lemma {:induction false} EmptyField()
    ensures XDigits("") && HexValue("") == 0
  {
  }

  lemma {:induction false} ScanSpells(s: string, p: string, out: seq<byte>, colon: int)
    requires XDigits(p) && HexValue(p) <= 0xffff && |out| <= SIZE && -1 <= colon <= |out|
    ensures Agree(s, p, out, colon)
    decreases |s|
  {
    hide Agree, HexValue;
    EmptyField();
    if s == "" {
      AgreeAtEnd(p, out, colon);
    } else if IsXDigit(s[0]) {
      HexAppend(p, s[0]);
      if HexValue(p) * 16 + XDigitValue(s[0]) > 0xffff {
        AgreeTooLarge(s, p, out, colon);
      } else {
        ScanSpells(s[1..], p + [s[0]], out, colon);
        AgreeAtDigit(s, p, out, colon);
      }
    } else if s[0] == ':' {
      if p == "" && colon == -1 {
        ScanSpells(s[1..], "", out, |out|);
      }
      if p != "" && |out| + 2 <= SIZE {
        ScanSpells(s[1..], "", out + Pair(HexValue(p)), colon);
      }
      AgreeAtColon(s, p, out, colon);
    } else if s[0] == '.' {
      AgreeAtDot(s, p, out, colon);
    } else {
      AgreeAtOther(s, p, out, colon);
    }
  }

  /** What `inet_pton6` reads from every text, and what it accepts and as what. */
  lemma {:induction false} PtonDenotes(s: string)
    ensures Spelled(s) == Spells6(s) && Address6(s) == Denotes6(s)
  {
    ScanSpells(s, "", [], -1);
    assert "" + s == s;
    if |s| >= 2 {
      ScanSpells(s[1..], "", [], -1);
      assert "" + s[1..] == s[1..];
    }
  }
}
