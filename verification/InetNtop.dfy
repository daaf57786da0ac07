/** `inet_ntop4` and `inet_ntop6` (libfree/inet_ntop.c): the run of zeros that is elided, the text
    that is printed, and that reading it back gives the same address. */
module InetNtop {
  import opened Common
  import opened InetText
  import opened InetPton4
  import opened InetPton6

  // ----- IPv4 -----

  function Dotted(v: seq<byte>): string
    requires |v| == 4
  {
    Dec(v[0]) + ("." + (Dec(v[1]) + ("." + (Dec(v[2]) + ("." + Dec(v[3]))))))
  }

  lemma {:induction false} DottedLength(v: seq<byte>)
    requires |v| == 4
    ensures |Dotted(v)| <= 15
  {
    DecLength(v[0]);
    DecLength(v[1]);
    DecLength(v[2]);
    DecLength(v[3]);
  }

  lemma {:induction false} OctetOfByte(n: byte)
    ensures IsOctet(Dec(n)) && DecValue(Dec(n)) == n
  {
    DecRoundTrip(n);
  }

  lemma {:induction false} GroupsBeforeDot(p: string, rest: string)
    requires Digits(p)
    ensures Groups(p + ("." + rest)) == [p] + Groups(rest)
  {
    assert ("." + rest)[1..] == rest;
    GroupsAtDot(p, "." + rest);
  }

  lemma {:induction false} GroupsOfDotted(v: seq<byte>)
    requires |v| == 4
    ensures Groups(Dotted(v)) == [Dec(v[0]), Dec(v[1]), Dec(v[2]), Dec(v[3])]
  {
    var (d0, d1, d2, d3) := (Dec(v[0]), Dec(v[1]), Dec(v[2]), Dec(v[3]));
    GroupsOfDigits(d3, "");
    assert d3 + "" == d3 && Groups("") == [""];
    assert Groups(d3) == [d3];
    GroupsBeforeDot(d2, d3);
    GroupsBeforeDot(d1, d2 + ("." + d3));
    GroupsBeforeDot(d0, d1 + ("." + (d2 + ("." + d3))));
  }

  /** What `inet_ntop4` prints, `inet_pton4` reads back. */
  lemma {:induction false} DottedRoundTrip(v: seq<byte>)
    requires |v| == 4
    ensures Address4(Dotted(v)) == Some(v)
  {
    GroupsOfDotted(v);
    var gs := Groups(Dotted(v));
    forall i | 0 <= i < 4 ensures IsOctet(gs[i]) && DecValue(gs[i]) == v[i] {
      OctetOfByte(v[i]);
    }
    assert [] + Values(gs) == v;
  }

  // ----- The elided run -----

  predicate ZeroRun(ws: seq<word>, base: int, len: int) {
    0 <= base && 1 <= len && base + len <= |ws| && forall i :: base <= i < base + len ==> ws[i] == 0
  }

  /** No run of zeros is longer, and none as long starts earlier. */
  ghost predicate LeftmostLongest(ws: seq<word>, base: int, len: int) {
    && ZeroRun(ws, base, len)
    && forall b, l :: ZeroRun(ws, b, l) ==> l <= len && (l == len ==> base <= b)
  }

  ghost predicate Best(ws: seq<word>, base: int, len: int) {
    if base == -1 then forall b, l :: !ZeroRun(ws, b, l) else LeftmostLongest(ws, base, len)
  }

  /** The run that is printed as `::`: the leftmost of the longest, when it has two words or more. */
  ghost predicate Elided(ws: seq<word>, base: int, len: int) {
    if base == -1 then forall b, l :: ZeroRun(ws, b, l) ==> l < 2 else len >= 2 && LeftmostLongest(ws, base, len)
  }

  lemma {:induction false} ElidedIsUnique(ws: seq<word>, b: int, l: int, b': int, l': int)
    requires Elided(ws, b, l) && Elided(ws, b', l')
    ensures b == b' && (b != -1 ==> l == l')
  {
  }

  /** A run that is followed by a word that is not zero, or by the end, competes with the best so far. */
  lemma {:induction false} CloseRun(ws: seq<word>, m: nat, i: nat, bb: int, bl: int)
    requires m < i <= |ws| && ZeroRun(ws, m, i - m) && (m > 0 ==> ws[m - 1] != 0)
    requires Best(ws[..m], bb, bl)
    ensures if bb == -1 || i - m > bl then Best(ws[..i], m, i - m) else Best(ws[..i], bb, bl)
  {
    var before: int := if m > 0 then ws[..i][m - 1] else 1;
    assert before != 0;
    var (cb, cl) := if bb == -1 || i - m > bl then (m, i - m) else (bb, bl);
    forall b, l | ZeroRun(ws[..i], b, l)
      ensures l <= cl && (l == cl ==> cb <= b)
    {
      if b + l <= m {
        assert ZeroRun(ws[..m], b, l);
      } else if b < m {
        assert false;
      }
    }
    assert bb != -1 ==> ZeroRun(ws[..m], bb, bl);
    assert ZeroRun(ws[..i], cb, cl);
  }

  lemma {:induction false} PassWord(ws: seq<word>, i: nat, bb: int, bl: int)
    requires i < |ws| && ws[i] != 0 && Best(ws[..i], bb, bl)
    ensures Best(ws[..i + 1], bb, bl)
  {
    var shorter, longer := ws[..i], ws[..i + 1];
    assert longer[i] != 0;
    if bb == -1 {
      forall b, l ensures !ZeroRun(longer, b, l) {
        assert !ZeroRun(shorter, b, l);
      }
    } else {
      forall b, l | ZeroRun(longer, b, l)
        ensures l <= bl && (l == bl ==> bb <= b)
      {
        assert ZeroRun(ws[..i], b, l);
      }
      assert ZeroRun(ws[..i], bb, bl);
      assert ZeroRun(longer, bb, bl);
    }
  }

  /** A run is elided if and only if two zero words are next to each other. */
  lemma {:induction false} TwoInARow(ws: seq<word>, base: int, len: int)
    requires Elided(ws, base, len)
    ensures base != -1 <==> exists i :: 0 <= i < |ws| - 1 && ws[i] == 0 && ws[i + 1] == 0
  {
    if base != -1 {
      assert ws[base] == 0 && ws[base + 1] == 0;
    } else if i :| 0 <= i < |ws| - 1 && ws[i] == 0 && ws[i + 1] == 0 {
      assert ZeroRun(ws, i, 2);
      assert false;
    }
  }

  /** The search of lines 135-156. */
  method FindRun(ws: seq<word>) returns (base: int, len: int)
    ensures Elided(ws, base, len)
    ensures base != -1 <==> exists i :: 0 <= i < |ws| - 1 && ws[i] == 0 && ws[i + 1] == 0
    ensures -1 <= base && 0 <= len && base + len <= |ws|
  {
    var bestBase, bestLen, curBase, curLen := -1, 0, -1, 0;
    var i := 0;
    while i < |ws|
      invariant 0 <= i <= |ws| && -1 <= curBase < i && -1 <= bestBase && 0 <= bestLen
      invariant bestBase + bestLen <= |ws|
      invariant curBase == -1 ==> Best(ws[..i], bestBase, bestLen) && (i > 0 ==> ws[i - 1] != 0)
      invariant curBase != -1 ==> curLen == i - curBase && ZeroRun(ws, curBase, curLen)
      invariant curBase != -1 ==> Best(ws[..curBase], bestBase, bestLen)
      invariant curBase > 0 ==> ws[curBase - 1] != 0
    {
      if ws[i] == 0 {
        if curBase == -1 {
          curBase, curLen := i, 1;
        } else {
          curLen := curLen + 1;
        }
      } else {
        if curBase != -1 {
          CloseRun(ws, curBase, i, bestBase, bestLen);
          if bestBase == -1 || curLen > bestLen {
            bestBase, bestLen := curBase, curLen;
          }
          curBase := -1;
        }
        PassWord(ws, i, bestBase, bestLen);
      }
      i := i + 1;
    }
    if curBase != -1 {
      CloseRun(ws, curBase, i, bestBase, bestLen);
      if bestBase == -1 || curLen > bestLen {
        bestBase, bestLen := curBase, curLen;
      }
    }
    assert ws[..i] == ws;
    if bestBase != -1 && bestLen < 2 {
      bestBase := -1;
    }
    TwoInARow(ws, bestBase, bestLen);
    return bestBase, bestLen;
  }

  // ----- The text -----

  /** The word of bytes `2 * i` and `2 * i + 1`, most significant first. */
  function WordAt(a: seq<byte>, i: nat): word
    requires |a| == SIZE && i < 8
  {
    var hi: int := a[2 * i];
    hi * 0x100 + a[2 * i + 1]
  }

  function Words(a: seq<byte>): (ws: seq<word>)
    requires |a| == SIZE
    ensures |ws| == 8 && forall i :: 0 <= i < 8 ==> ws[i] == WordAt(a, i)
  {
    seq(8, i requires 0 <= i < 8 => WordAt(a, i))
  }

  /** The words in hexadecimal. */
  function HexAll(ws: seq<word>): (ts: seq<string>)
    ensures |ts| == |ws| && forall i :: 0 <= i < |ws| ==> ts[i] == Hex(ws[i])
  {
    seq(|ws|, i requires 0 <= i < |ws| => Hex(ws[i]))
  }

  /** The tail as an IPv4 address, when it is printed so. */
  function Quad4(a: seq<byte>, base: int, len: int): Option<string>
    requires |a| == SIZE
  {
    if base == 0 && (len == 6 || (len == 5 && WordAt(a, 5) == 0xffff)) then Some(Dotted(a[12..])) else None
  }

  /** Eight groups of which `len` at `base` are elided, none if `base` is -1, with the last two perhaps
      in the IPv4 form. */
  function Rendered(ts: seq<string>, base: int, len: int, quad: Option<string>): string
    requires |ts| == 8 && -1 <= base && 0 <= len && base + len <= 8
  {
    if base == -1 then Join(ts)
    else if quad.Some? then "::" + (if len == 6 then quad.value else ts[5] + (":" + quad.value))
    else Join(ts[..base]) + ("::" + Join(ts[base + len..]))
  }

  /** The text of an address whose run of `len` zero words at `base` is elided. */
  function Text6(a: seq<byte>, base: int, len: int): string
    requires |a| == SIZE && -1 <= base && 0 <= len && base + len <= 8
  {
    Rendered(HexAll(Words(a)), base, len, Quad4(a, base, len))
  }

  // ----- Reading it back -----

  lemma {:induction false} HexRoundTrip(n: nat)
    ensures XDigits(Hex(n)) && HexValue(Hex(n)) == n
  {
    if n >= 16 {
      HexRoundTrip(n / 16);
      assert Hex(n)[..|Hex(n)| - 1] == Hex(n / 16);
    }
  }

  /** The groups `ts` spell the bytes of `a`. */
  ghost predicate Spells(ts: seq<string>, a: seq<byte>) {
    && |ts| == 8 && |a| == SIZE
    && forall i :: 0 <= i < 8 ==> IsGroup(ts[i]) && Pair(HexValue(ts[i])) == a[2 * i..2 * i + 2]
  }

  lemma {:induction false} HexPair(a: seq<byte>, i: nat)
    requires |a| == SIZE && i < 8
    ensures IsGroup(Hex(WordAt(a, i))) && Pair(HexValue(Hex(WordAt(a, i)))) == a[2 * i..2 * i + 2]
  {
    hide Hex, HexValue;
    HexRoundTrip(WordAt(a, i));
    assert Pair(WordAt(a, i)) == [a[2 * i], a[2 * i + 1]];
  }

  lemma {:induction false} HexSpells(a: seq<byte>)
    requires |a| == SIZE
    ensures Spells(HexAll(Words(a)), a)
  {
    var ts := HexAll(Words(a));
    forall i | 0 <= i < 8 ensures IsGroup(ts[i]) && Pair(HexValue(ts[i])) == a[2 * i..2 * i + 2] {
      HexPair(a, i);
    }
  }

  lemma {:induction false} SpelledBytes(ts: seq<string>, a: seq<byte>, i: nat, j: nat)
    requires Spells(ts, a) && i <= j <= 8
    ensures AreGroups(ts[i..j]) && Bytes(ts[i..j]) == a[2 * i..2 * j]
    decreases j - i
  {
    if i < j {
      SpelledBytes(ts, a, i + 1, j);
      assert ts[i..j][1..] == ts[i + 1..j] && ts[i..j][0] == ts[i];
      assert a[2 * i..2 * j] == a[2 * i..2 * i + 2] + a[2 * (i + 1)..2 * j];
    }
  }

  lemma {:induction false} RunIsZeros(a: seq<byte>, base: nat, len: nat)
    requires |a| == SIZE && ZeroRun(Words(a), base, len)
    ensures a == a[..2 * base] + Zeros(2 * len) + a[2 * (base + len)..]
  {
    forall k | 2 * base <= k < 2 * (base + len) ensures a[k] == 0 {
      assert WordAt(a, k / 2) == Words(a)[k / 2] == 0;
    }
    assert a[2 * base..2 * (base + len)] == Zeros(2 * len);
  }

  lemma {:induction false} FullRoundTrip(ts: seq<string>, a: seq<byte>)
    requires Spells(ts, a)
    ensures Address6(Join(ts)) == Some(a)
  {
    SpelledBytes(ts, a, 0, 8);
    assert ts[0..8] == ts && a[0..16] == a;
    FullForm(ts);
  }

  lemma {:induction false} ElidedRoundTrip(ts: seq<string>, a: seq<byte>, base: nat, len: nat)
    requires Spells(ts, a) && 1 <= len && base + len <= 8
    requires a == a[..2 * base] + Zeros(2 * len) + a[2 * (base + len)..]
    ensures Address6(Join(ts[..base]) + ("::" + Join(ts[base + len..]))) == Some(a)
  {
    SpelledBytes(ts, a, 0, base);
    SpelledBytes(ts, a, base + len, 8);
    assert ts[0..base] == ts[..base] && a[0..2 * base] == a[..2 * base];
    assert |ts| == 8 && ts[base + len..8] == ts[base + len..];
    assert |a| == 16 && a[2 * (base + len)..16] == a[2 * (base + len)..];
    ElidedForm(ts[..base], ts[base + len..]);
  }

  lemma {:induction false} CompatibleRoundTrip(a: seq<byte>, q: string)
    requires |a| == SIZE && Address4(q) == Some(a[12..]) && a == a[..0] + Zeros(12) + a[12..]
    ensures Address6("::" + q) == Some(a)
  {
    ElidedThenQuad([], q);
    assert Join([]) + ("::" + q) == "::" + q;
    assert Bytes([]) + Zeros(12) + ([] + a[12..]) == a;
  }

  lemma {:induction false} MappedRoundTrip(ts: seq<string>, a: seq<byte>, q: string)
    requires Spells(ts, a) && Address4(q) == Some(a[12..]) && a == a[..0] + Zeros(10) + a[10..]
    ensures Address6("::" + (ts[5] + (":" + q))) == Some(a)
  {
    SpelledBytes(ts, a, 5, 6);
    assert [ts[5]] == ts[5..6];
    ElidedFormWithQuad([], [ts[5]], q);
    assert Join([ts[5]]) == ts[5] + "" == ts[5];
    var tail := ts[5] + (":" + q);
    assert Join([]) + ("::" + tail) == "::" + tail;
    assert a[10..12] + a[12..] == a[10..];
    assert Bytes([]) + Zeros(10) + a[10..] == a;
  }

  /** Whatever zero run is elided, the text reads back as the address it was made from. */
  lemma {:induction false} TextRoundTrip(a: seq<byte>, base: int, len: nat)
    requires |a| == SIZE && -1 <= base && base + len <= 8 && (base == -1 || ZeroRun(Words(a), base, len))
    ensures Address6(Text6(a, base, len)) == Some(a)
  {
    var ts := HexAll(Words(a));
    HexSpells(a);
    if base == -1 {
      FullRoundTrip(ts, a);
    } else {
      RunIsZeros(a, base, len);
      if Quad4(a, base, len).Some? {
        DottedRoundTrip(a[12..]);
        if len == 6 {
          CompatibleRoundTrip(a, Dotted(a[12..]));
        } else {
          MappedRoundTrip(ts, a, Dotted(a[12..]));
        }
      } else {
        ElidedRoundTrip(ts, a, base, len);
      }
    }
  }

  // ----- Printing it -----

  predicate InRun(base: int, len: int, i: int) {
    base != -1 && base <= i < base + len
  }

  /** What the formatting loop still has to print when it comes to word `i`. */
  function Fmt(ts: seq<string>, base: int, len: int, quad: Option<string>, i: nat): string
    requires |ts| == 8 && i <= 8
    decreases 8 - i
  {
    if i == 8 then
      if base != -1 && base + len == 8 then ":" else ""
    else if InRun(base, len, i) then
      var rest := Fmt(ts, base, len, quad, i + 1);
      if i == base then ":" + rest else rest
    else
      var rest := if i == 6 && quad.Some? then quad.value else ts[i] + Fmt(ts, base, len, quad, i + 1);
      if i != 0 then ":" + rest else rest
  }

  lemma {:induction false} FmtWord(ts: seq<string>, base: int, len: int, quad: Option<string>, i: nat)
    requires |ts| == 8 && i < 8 && !InRun(base, len, i) && !(i == 6 && quad.Some?)
    ensures var rest := ts[i] + Fmt(ts, base, len, quad, i + 1);
      Fmt(ts, base, len, quad, i) == if i != 0 then ":" + rest else rest
  {
  }

  lemma {:induction false} FmtInRun(ts: seq<string>, base: int, len: int, quad: Option<string>, i: nat)
    requires |ts| == 8 && i < 8 && InRun(base, len, i)
    ensures var rest := Fmt(ts, base, len, quad, i + 1);
      Fmt(ts, base, len, quad, i) == if i == base then ":" + rest else rest
  {
  }

  lemma {:induction false} ListedThen(ts: seq<string>, end: string)
    requires ts != []
    ensures ":" + (ts[0] + (Listed(ts[1..]) + end)) == Listed(ts) + end
    ensures ts[0] + (Listed(ts[1..]) + end) == Join(ts) + end
  {
  }

  /** Words `i` to `j`, none of them in the run or printed as IPv4. */
  lemma {:induction false} FmtWords(ts: seq<string>, base: int, len: int, quad: Option<string>, i: nat, j: nat)
    requires |ts| == 8 && 1 <= i <= j <= 8
    requires forall k :: i <= k < j ==> !InRun(base, len, k)
    requires quad.Some? ==> j <= 6
    ensures Fmt(ts, base, len, quad, i) == Listed(ts[i..j]) + Fmt(ts, base, len, quad, j)
    decreases j - i
  {
    var end := Fmt(ts, base, len, quad, j);
    if i == j {
      assert ts[i..j] == [] && "" + end == end;
    } else {
      FmtWords(ts, base, len, quad, i + 1, j);
      assert !InRun(base, len, i);
      FmtWord(ts, base, len, quad, i);
      assert ts[i..j][1..] == ts[i + 1..j] && ts[i..j][0] == ts[i];
      ListedThen(ts[i..j], end);
    }
  }

  /** The same from the first word. */
  lemma {:induction false} FmtFront(ts: seq<string>, base: int, len: int, quad: Option<string>, j: nat)
    requires |ts| == 8 && 1 <= j <= 8
    requires forall k :: 0 <= k < j ==> !InRun(base, len, k)
    requires quad.Some? ==> j <= 6
    ensures Fmt(ts, base, len, quad, 0) == Join(ts[..j]) + Fmt(ts, base, len, quad, j)
  {
    FmtWords(ts, base, len, quad, 1, j);
    assert !InRun(base, len, 0);
    FmtWord(ts, base, len, quad, 0);
    assert ts[..j][1..] == ts[1..j] && ts[..j][0] == ts[0];
    ListedThen(ts[..j], Fmt(ts, base, len, quad, j));
  }

  lemma {:induction false} FmtRun(ts: seq<string>, base: int, len: int, quad: Option<string>, i: nat)
    requires |ts| == 8 && 0 <= base < i <= base + len <= 8
    ensures Fmt(ts, base, len, quad, i) == Fmt(ts, base, len, quad, base + len)
    decreases 8 - i
  {
    if i < base + len {
      FmtRun(ts, base, len, quad, i + 1);
      FmtInRun(ts, base, len, quad, i);
    }
  }

  lemma {:induction false} FmtBeforeRun(ts: seq<string>, base: nat, len: nat, quad: Option<string>)
    requires |ts| == 8 && 1 <= len && base + len <= 8 && (quad.Some? ==> base == 0)
    ensures Fmt(ts, base, len, quad, 0) == Join(ts[..base]) + (":" + Fmt(ts, base, len, quad, base + len))
  {
    FmtRun(ts, base, len, quad, base + 1);
    FmtInRun(ts, base, len, quad, base);
    var end := Fmt(ts, base, len, quad, base);
    if base == 0 {
      assert ts[..0] == [] && "" + end == end;
    } else {
      FmtFront(ts, base, len, quad, base);
    }
  }

  lemma {:induction false} FmtAfterRun(ts: seq<string>, base: nat, len: nat)
    requires |ts| == 8 && 1 <= len && base + len <= 8
    ensures Fmt(ts, base, len, None, base + len) == ":" + Join(ts[base + len..])
  {
    var i := base + len;
    FmtWords(ts, base, len, None, i, 8);
    assert ts[i..8] == ts[i..];
    if i == 8 {
      assert Listed(ts[i..]) == "" == Join(ts[i..]) && ":" + "" == ":" == "" + ":";
    } else {
      assert Listed(ts[i..]) + "" == Listed(ts[i..]) == ":" + Join(ts[i..]);
    }
  }

  lemma {:induction false} FmtIsRenderedQuad(ts: seq<string>, len: nat, q: string)
    requires |ts| == 8 && (len == 5 || len == 6)
    ensures Fmt(ts, 0, len, Some(q), 0) == Rendered(ts, 0, len, Some(q))
  {
  }

  lemma {:induction false} FmtFull(ts: seq<string>, len: nat)
    requires |ts| == 8
    ensures Fmt(ts, -1, len, None, 0) == Join(ts)
  {
    FmtFront(ts, -1, len, None, 8);
    assert ts[..8] == ts && Join(ts) + "" == Join(ts);
  }

  /** The loop prints the rendering. */
  lemma {:induction false} FmtIsRendered(ts: seq<string>, base: int, len: nat, quad: Option<string>)
    requires |ts| == 8 && -1 <= base && base + len <= 8
    requires quad.Some? ==> base == 0 && (len == 5 || len == 6)
    requires base != -1 ==> len >= 1
    ensures Fmt(ts, base, len, quad, 0) == Rendered(ts, base, len, quad)
  {
    hide Fmt, Join;
    if base == -1 {
      FmtFull(ts, len);
    } else if quad.Some? {
      FmtIsRenderedQuad(ts, len, quad.value);
    } else {
      FmtBeforeRun(ts, base, len, quad);
      FmtAfterRun(ts, base, len);
      var rest := Join(ts[base + len..]);
      assert ":" + (":" + rest) == "::" + rest;
    }
  }

  lemma {:induction false} FmtLength(ts: seq<string>, base: int, len: int, i: nat)
    requires |ts| == 8 && i <= 8 && forall k :: 0 <= k < 8 ==> |ts[k]| <= 4
    ensures |Fmt(ts, base, len, None, i)| <= 5 * (8 - i) + 1
    decreases 8 - i
  {
    if i < 8 {
      FmtLength(ts, base, len, i + 1);
    }
  }

  lemma {:induction false} HexLengths(a: seq<byte>)
    requires |a| == SIZE
    ensures forall k :: 0 <= k < 8 ==> |HexAll(Words(a))[k]| <= 4
  {
    forall k | 0 <= k < 8 ensures |HexAll(Words(a))[k]| <= 4 {
      HexLength(Words(a)[k]);
    }
  }

  /** The text and its terminator fit the 46 characters of `tmp`. */
  lemma {:induction false} TextFits(a: seq<byte>, base: int, len: nat)
    requires |a| == SIZE && -1 <= base && base + len <= 8 && (base != -1 ==> len >= 1)
    ensures |Text6(a, base, len)| + 1 <= 46
  {
    HexLengths(a);
    if Quad4(a, base, len).Some? {
      DottedLength(a[12..]);
    } else {
      FmtIsRendered(HexAll(Words(a)), base, len, None);
      FmtLength(HexAll(Words(a)), base, len, 0);
    }
  }

  const TMP_SIZE: nat := 46

  /** The copy of lines 132-134, a byte at a time into either half of a word. */
  method FillWords(src: seq<byte>) returns (words: array<int>)
    requires |src| == SIZE
    ensures fresh(words) && words.Length == 8
    ensures forall k :: 0 <= k < 8 ==> words[k] == WordAt(src, k)
  {
    words := new int[8](_ => 0);
    var i := 0;
    while i < SIZE
      invariant 0 <= i <= SIZE
      invariant forall k :: 0 <= k < 8 && 2 * k + 1 < i ==> words[k] == WordAt(src, k)
      invariant i % 2 == 1 ==> words[i / 2] == 0x100 * src[i - 1] as int
      invariant forall k :: 0 <= k < 8 && i <= 2 * k ==> words[k] == 0
    {
      words[i / 2] := words[i / 2] + src[i] * (if i % 2 == 0 then 0x100 else 1);
      i := i + 1;
    }
  }

  /** Have `tp` characters of `text` been printed, with `rest` still to come? */
  ghost predicate Printed(tmp: array<char>, tp: nat, text: string, rest: string)
    reads tmp
  {
    && |text| < TMP_SIZE == tmp.Length && tp <= |text|
    && tmp[..tp] == text[..tp] && text[tp..] == rest
  }

  /** `sprintf` at the cursor: characters and terminator stay within `tmp`. */
  method Put(tmp: array<char>, tp: nat, s: string, ghost text: string, ghost rest: string) returns (tp': nat)
    requires Printed(tmp, tp, text, s + rest)
    modifies tmp
    ensures tp' == tp + |s| && Printed(tmp, tp', text, rest)
  {
    assert text[tp..][..|s|] == s && text[tp + |s|..] == text[tp..][|s|..] == rest;
    var i := 0;
    while i < |s|
      invariant 0 <= i <= |s|
      invariant tmp[..tp + i] == text[..tp + i]
    {
      tmp[tp + i] := s[i];
      assert s[i] == text[tp..][i];
      i := i + 1;
    }
    tp' := tp + |s|;
    tmp[tp'] := '\0';
  }

  /** One turn of the loop for a word outside the run. */
  method FormatWord(tmp: array<char>, tp: nat, ts: seq<string>, base: int, len: nat, quad: Option<string>, i: nat,
                    ghost text: string)
    returns (tp': nat, last: bool)
    requires |ts| == 8 && i < 8 && !InRun(base, len, i)
    requires Printed(tmp, tp, text, Fmt(ts, base, len, quad, i))
    modifies tmp
    ensures last == (i == 6 && quad.Some?)
    ensures Printed(tmp, tp', text, if last then "" else Fmt(ts, base, len, quad, i + 1))
  {
    last := i == 6 && quad.Some?;
    var group := if i == 6 && quad.Some? then quad.value else ts[i];
    ghost var rest := if last then "" else Fmt(ts, base, len, quad, i + 1);
    assert last ==> group + "" == group;
    assert Fmt(ts, base, len, quad, i) == if i != 0 then ":" + (group + rest) else group + rest;
    tp' := tp;
    if i != 0 {
      tp' := Put(tmp, tp', ":", text, group + rest);
    }
    tp' := Put(tmp, tp', group, text, rest);
  }

  /** One turn of the loop for a word of the run. */
  method FormatRun(tmp: array<char>, tp: nat, ts: seq<string>, base: int, len: nat, quad: Option<string>, i: nat,
                   ghost text: string)
    returns (tp': nat)
    requires |ts| == 8 && i < 8 && InRun(base, len, i)
    requires Printed(tmp, tp, text, Fmt(ts, base, len, quad, i))
    modifies tmp
    ensures Printed(tmp, tp', text, Fmt(ts, base, len, quad, i + 1))
  {
    tp' := tp;
    if i == base {
      tp' := Put(tmp, tp, ":", text, Fmt(ts, base, len, quad, i + 1));
    }
  }

  /** The colon of a run that reaches the end. */
  method FormatEnd(tmp: array<char>, tp: nat, ts: seq<string>, base: int, len: nat, quad: Option<string>,
                   ghost text: string)
    returns (tp': nat)
    requires |ts| == 8 && Printed(tmp, tp, text, Fmt(ts, base, len, quad, 8))
    modifies tmp
    ensures Printed(tmp, tp', text, "")
  {
    tp' := tp;
    if base != -1 && base + len == 8 {
      assert ":" + "" == ":";
      tp' := Put(tmp, tp, ":", text, "");
    }
  }

  lemma {:induction false} NonePrinted(tmp: array<char>, text: string)
    requires tmp.Length == TMP_SIZE && |text| < TMP_SIZE
    ensures Printed(tmp, 0, text, text)
  {
  }

  lemma {:induction false} AllPrinted(tmp: array<char>, tp: nat, text: string)
    requires Printed(tmp, tp, text, "")
    ensures tp < TMP_SIZE == tmp.Length && tmp[..tp] == text
  {
  }

  /** Line 187. */
  method Terminate(tmp: array<char>, tp: nat)
    requires tp < tmp.Length
    modifies tmp
    ensures tmp[..tp] == old(tmp[..tp]) && tmp[tp] == '\0'
  {
    tmp[tp] := '\0';
  }

  /** The formatting loop of lines 161-187. No write goes past the end of `tmp`. */
  method Format(tmp: array<char>, ts: seq<string>, base: int, len: nat, quad: Option<string>) returns (tp: nat)
    requires |ts| == 8 && tmp.Length == TMP_SIZE && |Fmt(ts, base, len, quad, 0)| < TMP_SIZE
    modifies tmp
    ensures tp < TMP_SIZE && tmp[..tp] == Fmt(ts, base, len, quad, 0) && tmp[tp] == '\0'
  {
    hide Printed, Fmt;
    ghost var text := Fmt(ts, base, len, quad, 0);
    NonePrinted(tmp, text);
    tp := 0;
    var i := 0;
    while i < 8
      invariant 0 <= i <= 8
      invariant Printed(tmp, tp, text, Fmt(ts, base, len, quad, i))
    {
      if InRun(base, len, i) {
        tp := FormatRun(tmp, tp, ts, base, len, quad, i, text);
      } else {
        var last;
        tp, last := FormatWord(tmp, tp, ts, base, len, quad, i, text);
        if last {
          AllPrinted(tmp, tp, text);
          Terminate(tmp, tp);
          return;
        }
      }
      i := i + 1;
    }
    tp := FormatEnd(tmp, tp, ts, base, len, quad, text);
    AllPrinted(tmp, tp, text);
    Terminate(tmp, tp);
  }

  // ----- The IPv4 forms -----

  /** An IPv4 address as IPv6: ten zero bytes and two of ones. */
  predicate IsMapped(a: seq<byte>)
    requires |a| == SIZE
  {
    a[10] == 0xff && a[11] == 0xff && forall i :: 0 <= i < 10 ==> a[i] == 0
  }

  /** Twelve zero bytes, and not two more after them. */
  predicate IsCompatible(a: seq<byte>)
    requires |a| == SIZE
  {
    (a[12] != 0 || a[13] != 0) && forall i :: 0 <= i < 12 ==> a[i] == 0
  }

  lemma {:induction false} LeadingRun(ws: seq<word>, n: nat, base: int, len: int)
    requires |ws| == 8 && 5 <= n < 8 && ws[n] != 0 && Elided(ws, base, len)
    requires forall i :: 0 <= i < n ==> ws[i] == 0
    ensures base == 0 && len == n
  {
    assert ZeroRun(ws, 0, n);
    assert base != -1 && LeftmostLongest(ws, base, len);
  }

  lemma {:induction false} WordIsZero(a: seq<byte>, i: nat)
    requires |a| == SIZE && i < 8
    ensures WordAt(a, i) == 0 <==> a[2 * i] == 0 && a[2 * i + 1] == 0
    ensures WordAt(a, i) == 0xffff <==> a[2 * i] == 0xff && a[2 * i + 1] == 0xff
  {
  }

  lemma {:induction false} ZeroWords(a: seq<byte>, n: nat)
    requires |a| == SIZE && n <= 8 && forall i :: 0 <= i < 2 * n ==> a[i] == 0
    ensures forall i :: 0 <= i < n ==> Words(a)[i] == 0
  {
    forall i | 0 <= i < n ensures Words(a)[i] == 0 {
      WordIsZero(a, i);
    }
  }

  lemma {:induction false} HexOfOnes()
    ensures Hex(0xffff) == "ffff"
  {
    assert Hex(0xf) == "f";
    assert Hex(0xff) == Hex(0xf) + "f";
    assert Hex(0xfff) == Hex(0xff) + "f";
  }

  lemma {:induction false} MappedText(a: seq<byte>, base: int, len: int)
    requires |a| == SIZE && IsMapped(a) && Elided(Words(a), base, len)
    ensures base == 0 && len == 5 && Text6(a, base, len) == "::ffff:" + Dotted(a[12..])
  {
    hide Dotted, Elided, Hex;
    ZeroWords(a, 5);
    WordIsZero(a, 5);
    LeadingRun(Words(a), 5, base, len);
    HexOfOnes();
    var q := Dotted(a[12..]);
    assert "::" + ("ffff" + (":" + q)) == "::ffff:" + q;
  }

  lemma {:induction false} CompatibleText(a: seq<byte>, base: int, len: int)
    requires |a| == SIZE && IsCompatible(a) && Elided(Words(a), base, len)
    ensures base == 0 && len == 6 && Text6(a, base, len) == "::" + Dotted(a[12..])
  {
    hide Dotted, Elided, Hex;
    ZeroWords(a, 6);
    WordIsZero(a, 6);
    LeadingRun(Words(a), 6, base, len);
  }

  lemma {:induction false} QuadOnlyThen(a: seq<byte>, base: int, len: int)
    requires |a| == SIZE && Elided(Words(a), base, len) && Quad4(a, base, len).Some?
    ensures IsMapped(a) || IsCompatible(a)
  {
    hide Dotted;
    assert ZeroRun(Words(a), 0, len);
    forall i | 0 <= i < 2 * len ensures a[i] == 0 {
      WordIsZero(a, i / 2);
      assert Words(a)[i / 2] == 0;
    }
    WordIsZero(a, 5);
    WordIsZero(a, 6);
    assert len == 6 && Words(a)[6] == 0 ==> ZeroRun(Words(a), 0, 7);
  }

  lemma {:induction false} NoDotInJoin(ts: seq<string>)
    requires AreGroups(ts)
    ensures '.' !in Listed(ts) && '.' !in Join(ts)
    decreases |ts|
  {
    if ts != [] {
      NoDotInJoin(ts[1..]);
      assert IsGroup(ts[0]) && '.' !in ts[0];
    }
  }

  lemma {:induction false} NoDotInGroups(a: seq<byte>, base: int, len: nat)
    requires |a| == SIZE && -1 <= base && base + len <= 8 && Quad4(a, base, len).None?
    ensures '.' !in Text6(a, base, len)
  {
    hide Join, IsGroup;
    var ts := HexAll(Words(a));
    HexSpells(a);
    if base == -1 {
      NoDotInJoin(ts);
    } else {
      NoDotInJoin(ts[..base]);
      NoDotInJoin(ts[base + len..]);
    }
  }

  /** Made of decimal digits, lower-case hexadecimal ones, colons and dots. */
  predicate Plain(s: string) {
    forall i :: 0 <= i < |s| ==> IsDigit(s[i]) || 'a' <= s[i] <= 'f' || s[i] == ':' || s[i] == '.'
  }

  lemma {:induction false} PlainJoin(ts: seq<string>)
    requires forall i :: 0 <= i < |ts| ==> Plain(ts[i])
    ensures Plain(Listed(ts)) && Plain(Join(ts))
    decreases |ts|
  {
    if ts != [] {
      PlainJoin(ts[1..]);
    }
  }

  lemma {:induction false} PlainText(a: seq<byte>, base: int, len: nat)
    requires |a| == SIZE && -1 <= base && base + len <= 8
    ensures Plain(Text6(a, base, len))
  {
    hide Join, Hex, Dec;
    var ts := HexAll(Words(a));
    forall i | 0 <= i < 8 ensures Plain(ts[i]) {
      HexForm(Words(a)[i]);
    }
    if base == -1 {
      PlainJoin(ts);
    } else {
      PlainJoin(ts[..base]);
      PlainJoin(ts[base + len..]);
    }
  }

  /** Which of the three forms an address is printed in. */
  lemma {:induction false} WhichForm(a: seq<byte>, base: int, len: nat)
    requires |a| == SIZE && Elided(Words(a), base, len) && -1 <= base && base + len <= 8
    ensures IsMapped(a) ==> Text6(a, base, len) == "::ffff:" + Dotted(a[12..])
    ensures IsCompatible(a) ==> Text6(a, base, len) == "::" + Dotted(a[12..])
    ensures !IsMapped(a) && !IsCompatible(a) ==> '.' !in Text6(a, base, len)
  {
    hide Text6, Quad4, Dotted, Elided;
    if IsMapped(a) {
      MappedText(a, base, len);
    } else if IsCompatible(a) {
      CompatibleText(a, base, len);
    } else if Quad4(a, base, len).Some? {
      QuadOnlyThen(a, base, len);
      assert false;
    } else {
      NoDotInGroups(a, base, len);
    }
  }

  /** `inet_ntop6` up to the copy to the caller: the run elided is the leftmost of the longest runs of
      two zero words or more, the text is the one with that run elided, it reads back as `src`, and its end is
      printed as an IPv4 address exactly for mapped and compatible addresses. */
  method Ntop6(src: seq<byte>) returns (text: string, base: int, len: int)
    requires |src| == SIZE
    ensures -1 <= base && 0 <= len && base + len <= 8 && Elided(Words(src), base, len)
    ensures text == Text6(src, base, len) && |text| < TMP_SIZE
    ensures Address6(text) == Some(src)
    ensures IsMapped(src) ==> text == "::ffff:" + Dotted(src[12..])
    ensures IsCompatible(src) ==> text == "::" + Dotted(src[12..])
    ensures !IsMapped(src) && !IsCompatible(src) ==> '.' !in text
    ensures Plain(text)
    ensures base != -1 <==> exists i :: 0 <= i < 7 && Words(src)[i] == 0 && Words(src)[i + 1] == 0
  {
    var words := FillWords(src);
    assert words[..] == Words(src);
    base, len := FindRun(words[..]);
    assert base != -1 ==> ZeroRun(Words(src), base, len);
    var quad := None;
    if base == 0 && (len == 6 || (len == 5 && words[5] == 0xffff)) {
      quad := Some(Dotted(src[12..]));
    }
    var tmp := new char[TMP_SIZE];
    FmtIsRendered(HexAll(Words(src)), base, len, quad);
    TextFits(src, base, len);
    TextRoundTrip(src, base, len);
    WhichForm(src, base, len);
    PlainText(src, base, len);
    var tp := Format(tmp, HexAll(words[..]), base, len, quad);
    text := tmp[..tp];
  }
}
