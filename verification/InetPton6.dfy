/** `inet_pton6` (libfree/inet_pton.c): the scan, the in-place shift for `::`, and the text forms of
    section 2.2 of RFC 1884 that it accepts. */
module InetPton6 {
  import opened Common
  import opened InetText
  import opened InetPton4

  const SIZE: nat := 16

  function Zeros(n: nat): (z: seq<byte>)
    ensures |z| == n && forall i :: 0 <= i < n ==> z[i] == 0
  {
    seq(n, _ => 0)
  }

  /** The two bytes stored for a group. */
  function Pair(val: nat): seq<byte>
    requires val <= 0xffff
  {
    [val / 0x100, val % 0x100]
  }

  // ----- The shift of lines 205-218 -----

  /** What the shift makes of the bytes stored so far: `colon` of them stay, the others move to the
      end. When there is nothing to fill, every moved byte is cleared where it stands. */
  function Shifted(out: seq<byte>, colon: nat): (r: seq<byte>)
    requires colon <= |out| <= SIZE
    ensures |r| == SIZE
  {
    out[..colon] + Zeros(SIZE - |out|) + (if |out| < SIZE then out[colon..] else Zeros(SIZE - colon))
  }

  lemma {:induction false} OneMoved(out: seq<byte>, colon: nat)
    requires colon < |out| <= SIZE
    ensures var before := Shifted(out, colon + 1);
      before[SIZE - |out| + colon := before[colon]][colon := 0] == Shifted(out, colon)
  {
  }

  /** The loop in place: source and target overlap, so it runs from the end. */
  method ShiftInPlace(tmp: array<byte>, colon: nat, tp: nat)
    requires tmp.Length == SIZE && colon <= tp <= SIZE
    requires forall i :: tp <= i < SIZE ==> tmp[i] == 0
    modifies tmp
    ensures tmp[..] == Shifted(old(tmp[..tp]), colon)
  {
    ghost var out: seq<byte> := tmp[..tp];
    var n := tp - colon;
    var i := 1;
    assert tmp[..] == Shifted(out, tp);
    while i <= n
      invariant 1 <= i <= n + 1
      invariant tmp[..] == Shifted(out, colon + n + 1 - i)
    {
      OneMoved(out, colon + n - i);
      ghost var before: seq<byte> := tmp[..];
      tmp[SIZE - i] := tmp[colon + n - i];
      tmp[colon + n - i] := 0;
      assert tmp[..] == before[SIZE - i := before[colon + n - i]][colon + n - i := 0];
      i := i + 1;
    }
  }

  // ----- The scan -----

  /** The state after the loop; `colon` is -1 until a `::` is seen. */
  datatype Scanned = Scanned(out: seq<byte>, colon: int, val: nat, saw: bool)

  ghost predicate Sound(out: seq<byte>, colon: int, val: nat) {
    |out| <= SIZE && -1 <= colon <= |out| && val <= 0xffff
  }

  /** The rest of the loop of `inet_pton6`: `curtok` is the text from the start of the current group. */
  function Scan6(s: string, out: seq<byte>, colon: int, val: nat, saw: bool, curtok: string): (r: Option<Scanned>)
    requires Sound(out, colon, val)
    ensures r.Some? ==> Sound(r.value.out, r.value.colon, r.value.val)
  {
    if s == "" then Some(Scanned(out, colon, val, saw))
    else if IsXDigit(s[0]) then
      var v := val * 16 + XDigitValue(s[0]);
      if v > 0xffff then None else Scan6(s[1..], out, colon, v, true, curtok)
    else if s[0] == ':' then
      if !saw then
        if colon != -1 then None else Scan6(s[1..], out, |out|, val, saw, s[1..])
      else if |out| + 2 > SIZE then None
      else Scan6(s[1..], out + Pair(val), colon, 0, false, s[1..])
    else if s[0] == '.' && |out| + 4 <= SIZE && Address4(curtok).Some? then
      Some(Scanned(out + Address4(curtok).value, colon, val, false))
    else None
  }

  /** The bytes stored once the last group is, and where the `::` was. */
  function Gathered(r: Option<Scanned>): (g: Option<(seq<byte>, int)>)
    requires r.Some? ==> Sound(r.value.out, r.value.colon, r.value.val)
    ensures g.Some? ==> |g.value.0| <= SIZE && -1 <= g.value.1 <= |g.value.0|
  {
    if r.None? || (r.value.saw && |r.value.out| + 2 > SIZE) then None
    else Some((if r.value.saw then r.value.out + Pair(r.value.val) else r.value.out, r.value.colon))
  }

  /** After the scan: the last group, then the shift, then the length test. */
  function Finish(r: Option<Scanned>): Option<seq<byte>>
    requires r.Some? ==> Sound(r.value.out, r.value.colon, r.value.val)
  {
    var g := Gathered(r);
    if g.None? then None else Placed(g.value.0, g.value.1)
  }

  function Placed(out: seq<byte>, colon: int): Option<seq<byte>>
    requires |out| <= SIZE && -1 <= colon <= |out|
  {
    if colon != -1 then Some(Shifted(out, colon))
    else if |out| == SIZE then Some(out)
    else None
  }

  /** The address `inet_pton6` reads, if it accepts the text. */
  function Address6(s: string): (r: Option<seq<byte>>)
    ensures r.Some? ==> |r.value| == SIZE
  {
    if s != "" && s[0] == ':' then
      if |s| < 2 || s[1] != ':' then None
      else Finish(Scan6(s[1..], [], -1, 0, false, s[1..]))
    else Finish(Scan6(s, [], -1, 0, false, s))
  }

  /** The bytes a text spells out, and how many of them come before its `::`, -1 if it has none. */
  function Spelled(s: string): (g: Option<(seq<byte>, int)>)
    ensures g.Some? ==> |g.value.0| <= SIZE && -1 <= g.value.1 <= |g.value.0|
  {
    if s != "" && s[0] == ':' then
      if |s| < 2 || s[1] != ':' then None
      else Gathered(Scan6(s[1..], [], -1, 0, false, s[1..]))
    else Gathered(Scan6(s, [], -1, 0, false, s))
  }

  /** `inet_pton6`. */
  method Pton6(src: cstring, dst: array<byte>) returns (ok: bool)
    requires dst.Length >= SIZE
    modifies dst
    ensures ok <==> Address6(src).Some?
    ensures dst[..] == if ok then Address6(src).value + old(dst[SIZE..]) else old(dst[..])
  {
    var start := 0;
    if |src| > 0 && src[0] == ':' {
      start := 1;
      if |src| < 2 || src[1] != ':' {
        return false;
      }
    }
    var tmp := new byte[SIZE](_ => 0);
    var tp, colonp, good := ScanInto(src, start, tmp);
    if !good {
      return false;
    }
    ghost var filled: seq<byte> := tmp[..tp];
    if colonp != -1 {
      ShiftInPlace(tmp, colonp, tp);
      tp := SIZE;
    }
    if tp != SIZE {
      return false;
    }
    assert colonp == -1 ==> tmp[..] == filled;
    assert Placed(filled, colonp) == Some(tmp[..]);
    CopyOut(tmp, dst);
    return true;
  }

  /** The copy to the caller. */
  method CopyOut(tmp: array<byte>, dst: array<byte>)
    requires tmp.Length == SIZE <= dst.Length && tmp != dst
    modifies dst
    ensures dst[..] == tmp[..] + old(dst[SIZE..])
  {
    var i := 0;
    while i < SIZE
      invariant 0 <= i <= SIZE
      invariant forall j :: 0 <= j < i ==> dst[j] == tmp[j]
      invariant forall j :: i <= j < dst.Length ==> dst[j] == old(dst[j])
    {
      dst[i] := tmp[i];
      i := i + 1;
    }
  }

  /** The loop and the group it may leave: `tp` bytes of `tmp` are filled. */
  method ScanInto(src: cstring, start: nat, tmp: array<byte>) returns (tp: nat, colonp: int, ok: bool)
    requires start <= |src| && tmp.Length == SIZE && forall i :: 0 <= i < SIZE ==> tmp[i] == 0
    modifies tmp
    ensures tp <= SIZE && -1 <= colonp <= tp
    ensures forall i :: tp <= i < SIZE ==> tmp[i] == 0
    ensures Finish(Scan6(src[start..], [], -1, 0, false, src[start..])) ==
      if ok then Placed(tmp[..tp], colonp) else None
  {
    hide Scan6, Placed;
    var val, saw;
    tp, colonp, val, saw, ok := ScanLoop(src, start, tmp);
    if !ok {
      return;
    }
    if saw {
      if tp + 2 > SIZE {
        return tp, colonp, false;
      }
      ghost var out: seq<byte> := tmp[..tp];
      tmp[tp], tmp[tp + 1] := val / 0x100, val % 0x100;
      tp := tp + 2;
      assert tmp[..tp] == out + Pair(val);
    }
  }

  lemma {:induction false} TailHoldsNoNul(src: cstring, k: nat)
    requires k <= |src|
    ensures '\0' !in src[k..]
  {
  }

  /** The loop of lines 162-198. */
  method ScanLoop(src: cstring, start: nat, tmp: array<byte>)
    returns (tp: nat, colonp: int, val: nat, saw: bool, ok: bool)
    requires start <= |src| && tmp.Length == SIZE && forall i :: 0 <= i < SIZE ==> tmp[i] == 0
    modifies tmp
    ensures Sound(tmp[..], colonp, val) && tp <= SIZE && colonp <= tp
    ensures forall i :: tp <= i < SIZE ==> tmp[i] == 0
    ensures Scan6(src[start..], [], -1, 0, false, src[start..]) ==
      if ok then Some(Scanned(tmp[..tp], colonp, val, saw)) else None
  {
    hide Address4;
    ghost var all := Scan6(src[start..], [], -1, 0, false, src[start..]);
    var i, curtok := start, start;
    tp, colonp, val, saw := 0, -1, 0, false;
    assert tmp[..0] == [];
    while i < |src|
      invariant start <= curtok <= i <= |src| && tp <= SIZE && -1 <= colonp <= tp && 0 <= val <= 0xffff
      invariant forall j :: tp <= j < SIZE ==> tmp[j] == 0
      invariant Scan6(src[i..], tmp[..tp], colonp, val, saw, src[curtok..]) == all
    {
      var ch := src[i];
      ghost var out: seq<byte> := tmp[..tp];
      assert src[i..][1..] == src[i + 1..];
      i := i + 1;
      if IsXDigit(ch) {
        var v := val * 16 + XDigitValue(ch);
        if v > 0xffff {
          return tp, colonp, val, saw, false;
        }
        val, saw := v, true;
      } else if ch == ':' {
        curtok := i;
        if !saw {
          if colonp != -1 {
            return tp, colonp, val, saw, false;
          }
          colonp := tp;
        } else {
          if tp + 2 > SIZE {
            return tp, colonp, val, saw, false;
          }
          tmp[tp], tmp[tp + 1] := val / 0x100, val % 0x100;
          tp := tp + 2;
          assert tmp[..tp] == out + Pair(val);
          saw, val := false, 0;
        }
      } else if ch == '.' && tp + 4 <= SIZE {
        TailHoldsNoNul(src, curtok);
        var four := Pton4(src[curtok..], tmp, tp);
        if !four {
          return tp, colonp, val, saw, false;
        }
        tp := tp + 4;
        return tp, colonp, val, false, true;
      } else {
        return tp, colonp, val, saw, false;
      }
    }
    return tp, colonp, val, saw, true;
  }

  // ----- The text forms -----

  predicate XDigits(t: string) {
    forall i :: 0 <= i < |t| ==> IsXDigit(t[i])
  }

  function HexValue(t: string): nat
    requires XDigits(t)
  {
    if t == "" then 0 else HexValue(t[..|t| - 1]) * 16 + XDigitValue(t[|t| - 1])
  }

  /** A group: hexadecimal digits of either case, at least one, of value at most 0xffff. */
  predicate IsGroup(t: string) {
    t != "" && XDigits(t) && HexValue(t) <= 0xffff
  }

  /** Any number of digits will do. */
  lemma {:induction false} GroupsAreThese(t: string)
    ensures IsGroup(t) <==>
      |t| > 0 && (forall k :: 0 <= k < |t| ==> t[k] in "0123456789abcdefABCDEF") && HexValue(t) < 0x1_0000
  {
    hide HexValue;
    forall k | 0 <= k < |t| ensures IsXDigit(t[k]) <==> t[k] in "0123456789abcdefABCDEF" {
      XDigitsAreThose(t[k]);
    }
  }

  predicate AreGroups(ts: seq<string>) {
    forall i :: 0 <= i < |ts| ==> IsGroup(ts[i])
  }

  /** The groups with single colons between them. */
  function Join(ts: seq<string>): string {
    if ts == [] then "" else ts[0] + Listed(ts[1..])
  }

  /** The groups with a colon before each. */
  function Listed(ts: seq<string>): string {
    if ts == [] then "" else ":" + (ts[0] + Listed(ts[1..]))
  }

  function Bytes(ts: seq<string>): (bs: seq<byte>)
    requires AreGroups(ts)
    ensures |bs| == 2 * |ts|
  {
    if ts == [] then [] else Pair(HexValue(ts[0])) + Bytes(ts[1..])
  }

  lemma {:induction false} HexAppend(p: string, c: char)
    requires XDigits(p) && IsXDigit(c)
    ensures XDigits(p + [c]) && HexValue(p + [c]) == HexValue(p) * 16 + XDigitValue(c)
  {
  }

  lemma {:induction false} HexGrows(p: string, t: string)
    requires XDigits(p) && XDigits(p + t)
    ensures HexValue(p) <= HexValue(p + t)
    decreases |t|
  {
    if t == "" {
      assert p + t == p;
    } else {
      var u := t[..|t| - 1];
      assert (p + t)[..|p + t| - 1] == p + u;
      HexGrows(p, u);
    }
  }

  lemma {:induction false} ScanXDigit(c: char, rest: string, out: seq<byte>, colon: int, val: nat, saw: bool,
                                      curtok: string)
    requires IsXDigit(c) && Sound(out, colon, val) && val * 16 + XDigitValue(c) <= 0xffff
    ensures Scan6([c] + rest, out, colon, val, saw, curtok) ==
            Scan6(rest, out, colon, val * 16 + XDigitValue(c), true, curtok)
  {
  }

  /** Reading the rest `t` of a group of which `p` is already read. */
  lemma {:induction false} ScanDigits(p: string, t: string, rest: string, out: seq<byte>, colon: int,
                                      curtok: string)
    requires XDigits(p) && XDigits(p + t) && HexValue(p + t) <= 0xffff
    requires HexValue(p) <= 0xffff && Sound(out, colon, 0)
    ensures Scan6(t + rest, out, colon, HexValue(p), p != "", curtok) ==
            Scan6(rest, out, colon, HexValue(p + t), p + t != "", curtok)
    decreases |t|
  {
    if t == "" {
      assert t + rest == rest && p + t == p;
    } else {
      assert (p + t)[|p|] == t[0];
      HexAppend(p, t[0]);
      assert p + [t[0]] + t[1..] == p + t;
      HexGrows(p + [t[0]], t[1..]);
      assert t + rest == [t[0]] + (t[1..] + rest);
      ScanXDigit(t[0], t[1..] + rest, out, colon, HexValue(p), p != "", curtok);
      ScanDigits(p + [t[0]], t[1..], rest, out, colon, curtok);
    }
  }

  lemma {:induction false} ScanGroup(t: string, rest: string, out: seq<byte>, colon: int, curtok: string)
    requires IsGroup(t) && Sound(out, colon, 0)
    ensures Scan6(t + rest, out, colon, 0, false, curtok) == Scan6(rest, out, colon, HexValue(t), true, curtok)
  {
    assert "" + t == t;
    ScanDigits("", t, rest, out, colon, curtok);
  }

  lemma {:induction false} ScanColon(val: nat, rest: string, out: seq<byte>, colon: int, curtok: string)
    requires Sound(out, colon, val) && |out| + 2 <= SIZE
    ensures Scan6(":" + rest, out, colon, val, true, curtok) == Scan6(rest, out + Pair(val), colon, 0, false, rest)
  {
  }

  lemma {:induction false} ShiftedSplit(front: seq<byte>, back: seq<byte>)
    requires |front| + |back| <= SIZE
    ensures Shifted(front + back, |front|) == front + Zeros(SIZE - |front| - |back|) +
      (if |front| + |back| < SIZE then back else Zeros(|back|))
  {
  }

  /** Reading groups: all but the last are stored, the last is still in `val`. */
  lemma {:induction false} ScanGroups(ts: seq<string>, rest: string, out: seq<byte>, colon: int)
    requires ts != [] && AreGroups(ts) && Sound(out, colon, 0) && |out| + 2 * (|ts| - 1) <= SIZE
    ensures var n := |ts| - 1;
      Scan6(Join(ts) + rest, out, colon, 0, false, Join(ts) + rest) ==
      Scan6(rest, out + Bytes(ts[..n]), colon, HexValue(ts[n]), true, ts[n] + rest)
    decreases |ts|
  {
    var n := |ts| - 1;
    var text := Join(ts) + rest;
    if n == 0 {
      assert ts[..n] == [] && out + Bytes([]) == out;
      assert ts[1..] == [] && text == ts[0] + rest;
      ScanGroup(ts[0], rest, out, colon, text);
    } else {
      var us := ts[1..];
      var after := Join(us) + rest;
      assert Listed(us) == ":" + Join(us);
      assert text == ts[0] + (":" + after);
      ScanGroup(ts[0], ":" + after, out, colon, text);
      ScanColon(HexValue(ts[0]), after, out, colon, text);
      ScanGroups(us, rest, out + Pair(HexValue(ts[0])), colon);
      BytesOfPrefix(ts, out);
    }
  }

  lemma {:induction false} BytesOfPrefix(ts: seq<string>, out: seq<byte>)
    requires |ts| > 1 && AreGroups(ts)
    ensures var n := |ts| - 1;
      out + Pair(HexValue(ts[0])) + Bytes(ts[1..][..n - 1]) == out + Bytes(ts[..n])
  {
    assert ts[..|ts| - 1][1..] == ts[1..][..|ts| - 2];
  }

  lemma {:induction false} BytesSplit(ts: seq<string>)
    requires ts != [] && AreGroups(ts)
    ensures Bytes(ts) == Bytes(ts[..|ts| - 1]) + Pair(HexValue(ts[|ts| - 1]))
  {
    if |ts| > 1 {
      BytesSplit(ts[1..]);
      assert ts[1..][..|ts| - 2] == ts[..|ts| - 1][1..];
    } else {
      assert ts[..0] == [] && ts[1..] == [];
    }
  }

  /** Groups to the end of the text. */
  lemma {:induction false} GroupsToEnd(ts: seq<string>, out: seq<byte>, colon: int)
    requires AreGroups(ts) && Sound(out, colon, 0) && |out| + 2 * |ts| <= SIZE
    ensures Finish(Scan6(Join(ts), out, colon, 0, false, Join(ts))) == Placed(out + Bytes(ts), colon)
  {
    if ts == [] {
      assert out + [] == out;
    } else {
      assert Join(ts) + "" == Join(ts);
      ScanGroups(ts, "", out, colon);
      BytesSplit(ts);
      assert out + Bytes(ts) == out + Bytes(ts[..|ts| - 1]) + Pair(HexValue(ts[|ts| - 1]));
    }
  }

  /** Groups up to a `::`, which is noted and passed over. */
  lemma {:induction false} GroupsToElision(ts: seq<string>, rest: string)
    requires ts != [] && AreGroups(ts) && 2 * |ts| <= SIZE
    ensures Scan6(Join(ts) + ("::" + rest), [], -1, 0, false, Join(ts) + ("::" + rest)) ==
            Scan6(rest, Bytes(ts), 2 * |ts|, 0, false, rest)
  {
    hide Join, HexValue, Bytes;
    var n := |ts| - 1;
    ScanGroups(ts, "::" + rest, [], -1);
    BytesSplit(ts);
    assert [] + Bytes(ts[..n]) + Pair(HexValue(ts[n])) == Bytes(ts);
    assert "::" + rest == ":" + (":" + rest);
    ScanColon(HexValue(ts[n]), ":" + rest, [] + Bytes(ts[..n]), -1, ts[n] + ("::" + rest));
    assert (":" + rest)[1..] == rest;
  }

  lemma {:induction false} JoinStartsWithGroup(ts: seq<string>)
    requires ts != [] && AreGroups(ts)
    ensures Join(ts) != "" && IsXDigit(Join(ts)[0])
  {
  }

  /** Eight groups are their bytes. */
  lemma {:induction false} FullForm(ts: seq<string>)
    requires |ts| == 8 && AreGroups(ts)
    ensures Address6(Join(ts)) == Some(Bytes(ts))
  {
    JoinStartsWithGroup(ts);
    GroupsToEnd(ts, [], -1);
    assert [] + Bytes(ts) == Bytes(ts);
  }

  lemma {:induction false} LeadingElision(rest: string)
    ensures Address6("::" + rest) == Finish(Scan6(rest, [], 0, 0, false, rest))
  {
  }

  /** The text after an elision is read to the end, whatever came before. */
  lemma {:induction false} ElisionThen(pre: seq<string>, rest: string)
    requires AreGroups(pre) && |pre| <= 8
    ensures Address6(Join(pre) + ("::" + rest)) == Finish(Scan6(rest, Bytes(pre), 2 * |pre|, 0, false, rest))
  {
    var text := Join(pre) + ("::" + rest);
    if pre == [] {
      assert text == "::" + rest;
      LeadingElision(rest);
    } else {
      JoinStartsWithGroup(pre);
      assert text[0] == Join(pre)[0];
      GroupsToElision(pre, rest);
    }
  }

  /** `::` stands for the groups that are missing. */
  lemma {:induction false} ElidedForm(pre: seq<string>, post: seq<string>)
    requires AreGroups(pre) && AreGroups(post) && |pre| + |post| <= 7
    ensures Address6(Join(pre) + ("::" + Join(post))) ==
            Some(Bytes(pre) + Zeros(SIZE - 2 * |pre| - 2 * |post|) + Bytes(post))
  {
    hide Address6, Scan6, Finish, Join, IsGroup, AreGroups, Bytes, Shifted;
    ElisionThen(pre, Join(post));
    GroupsToEnd(post, Bytes(pre), 2 * |pre|);
    ShiftedSplit(Bytes(pre), Bytes(post));
  }

  lemma {:induction false} PlacedFull(out: seq<byte>, colon: nat)
    requires |out| == SIZE && colon <= SIZE
    ensures Placed(out, colon) == Some(out[..colon] + Zeros(SIZE - colon))
    ensures Placed(out, colon) == Some(out) <==> out[colon..] == Zeros(SIZE - colon)
  {
    var r := out[..colon] + Zeros(SIZE - colon);
    assert Shifted(out, colon) == r;
    assert r[colon..] == Zeros(SIZE - colon) && out == out[..colon] + out[colon..];
  }

  /** A `::` in a text that spells out all 16 bytes is accepted, but what follows it is lost, where the comment
      of the function says the `::` is ignored: that is so exactly when what follows is all zeros. */
  lemma {:induction false} ElisionInFullAddress(s: string)
    requires Spelled(s).Some? && |Spelled(s).value.0| == SIZE && Spelled(s).value.1 != -1
    ensures var (out, colon) := Spelled(s).value;
      && Address6(s) == Some(out[..colon] + Zeros(SIZE - colon))
      && (Address6(s) == Some(out) <==> out[colon..] == Zeros(SIZE - colon))
  {
    PlacedFull(Spelled(s).value.0, Spelled(s).value.1);
  }

  /** The same for eight groups. */
  lemma {:induction false} ElisionInFullGroups(pre: seq<string>, post: seq<string>)
    requires AreGroups(pre) && AreGroups(post) && |pre| + |post| == 8
    ensures Address6(Join(pre) + ("::" + Join(post))) == Some(Bytes(pre) + Zeros(2 * |post|))
    ensures Address6(Join(pre) + ("::" + Join(post))) == Some(Bytes(pre) + Bytes(post)) <==>
            Bytes(post) == Zeros(2 * |post|)
  {
    hide Address6, Scan6, Finish, Join, IsGroup, AreGroups, Bytes, Placed;
    ElisionThen(pre, Join(post));
    GroupsToEnd(post, Bytes(pre), 2 * |pre|);
    PlacedFull(Bytes(pre) + Bytes(post), 2 * |pre|);
    assert (Bytes(pre) + Bytes(post))[..2 * |pre|] == Bytes(pre);
    assert (Bytes(pre) + Bytes(post))[2 * |pre|..] == Bytes(post);
  }

  /** One colon too many after eight groups is accepted. */
  lemma {:induction false} TrailingColon(ts: seq<string>)
    requires |ts| == 8 && AreGroups(ts)
    ensures Address6(Join(ts) + ":") == Some(Bytes(ts))
  {
    JoinStartsWithGroup(ts);
    assert ":" + "" == ":";
    GroupsThen(ts, "", [], -1);
    assert [] + Bytes(ts) == Bytes(ts);
  }

  // ----- An IPv4 address at the end -----

  /** Decimal digits read as hexadecimal. */
  function AsHex(n: nat): nat {
    if n < 10 then n else AsHex(n / 10) * 16 + n % 10
  }

  lemma {:induction false} DigitsAsHex(g: string)
    requires Digits(g)
    ensures XDigits(g) && HexValue(g) == AsHex(DecValue(g))
  {
    if g != "" {
      var h := g[..|g| - 1];
      DigitsAsHex(h);
      var (d, n) := (DigitValue(g[|g| - 1]), DecValue(h));
      assert (n * 10 + d) / 10 == n && (n * 10 + d) % 10 == d;
    }
  }

  lemma {:induction false} OctetIsGroup(g: string)
    requires IsOctet(g)
    ensures IsGroup(g)
  {
    DigitsAsHex(g);
    var n := DecValue(g);
    var m := n / 10;
    assert m <= 25 && m / 10 <= 2;
    assert AsHex(m / 10) <= 2 && AsHex(m) <= 0x29 && AsHex(n) <= 0x299;
  }

  lemma {:induction false} QuadStartsWithGroup(q: string)
    requires Address4(q).Some?
    ensures var g := Groups(q)[0]; IsOctet(g) && |g| < |q| && q[..|g|] == g && q[|g|] == '.'
  {
    FirstGroup(q);
  }

  lemma {:induction false} FirstGroup(q: string)
    ensures var g := Groups(q)[0]; |g| <= |q| && q[..|g|] == g
    ensures |Groups(q)| > 1 ==> |Groups(q)[0]| < |q| && q[|Groups(q)[0]|] == '.'
  {
    if q != "" && q[0] != '.' {
      FirstGroup(q[1..]);
      var g := Groups(q[1..])[0];
      assert Groups(q)[0] == [q[0]] + g;
      assert q[..|g| + 1] == [q[0]] + q[1..][..|g|];
    }
  }

  /** A dotted quad in the place of the last two groups. */
  lemma {:induction false} QuadToEnd(q: string, out: seq<byte>, colon: int)
    requires Address4(q).Some? && Sound(out, colon, 0) && |out| + 4 <= SIZE
    ensures Finish(Scan6(q, out, colon, 0, false, q)) == Placed(out + Address4(q).value, colon)
  {
    QuadStartsWithGroup(q);
    var g := Groups(q)[0];
    OctetIsGroup(g);
    assert q == g + q[|g|..];
    ScanGroup(g, q[|g|..], out, colon, q);
    assert q[|g|..][0] == '.';
  }

  /** Groups and the colon after them. */
  lemma {:induction false} GroupsThen(ts: seq<string>, rest: string, out: seq<byte>, colon: int)
    requires ts != [] && AreGroups(ts) && Sound(out, colon, 0) && |out| + 2 * |ts| <= SIZE
    ensures Scan6(Join(ts) + (":" + rest), out, colon, 0, false, Join(ts) + (":" + rest)) ==
            Scan6(rest, out + Bytes(ts), colon, 0, false, rest)
  {
    hide Join, Scan6, HexValue, Bytes;
    var n := |ts| - 1;
    ScanGroups(ts, ":" + rest, out, colon);
    ScanColon(HexValue(ts[n]), rest, out + Bytes(ts[..n]), colon, ts[n] + (":" + rest));
    BytesSplit(ts);
    assert out + Bytes(ts[..n]) + Pair(HexValue(ts[n])) == out + Bytes(ts);
  }

  /** Six groups and a dotted quad. */
  lemma {:induction false} FullFormWithQuad(ts: seq<string>, q: string)
    requires |ts| == 6 && AreGroups(ts) && Address4(q).Some?
    ensures Address6(Join(ts) + (":" + q)) == Some(Bytes(ts) + Address4(q).value)
  {
    JoinStartsWithGroup(ts);
    GroupsThen(ts, q, [], -1);
    assert [] + Bytes(ts) == Bytes(ts);
    QuadToEnd(q, Bytes(ts), -1);
  }

  /** `::` and a dotted quad. */
  lemma {:induction false} ElidedThenQuad(pre: seq<string>, q: string)
    requires AreGroups(pre) && Address4(q).Some? && |pre| <= 5
    ensures Address6(Join(pre) + ("::" + q)) ==
      Some(Bytes(pre) + Zeros(12 - 2 * |pre|) + ([] + Address4(q).value))
  {
    hide Address6, Scan6, Finish, Join, IsGroup, AreGroups, Bytes, Shifted, Address4;
    ElisionThen(pre, q);
    assert Bytes(pre) + [] == Bytes(pre);
    ElidedQuadToEnd(Bytes(pre), [], q);
  }

  /** `::`, groups and a dotted quad. */
  lemma {:induction false} ElidedFormWithQuad(pre: seq<string>, post: seq<string>, q: string)
    requires AreGroups(pre) && AreGroups(post) && Address4(q).Some? && post != [] && |pre| + |post| <= 5
    ensures Address6(Join(pre) + ("::" + (Join(post) + (":" + q)))) ==
      Some(Bytes(pre) + Zeros(12 - 2 * |pre| - 2 * |post|) + (Bytes(post) + Address4(q).value))
  {
    hide Address6, Scan6, Finish, Join, IsGroup, AreGroups, Bytes, Shifted, Address4;
    ElisionThen(pre, Join(post) + (":" + q));
    GroupsThen(post, q, Bytes(pre), 2 * |pre|);
    ElidedQuadToEnd(Bytes(pre), Bytes(post), q);
  }

  lemma {:induction false} ElidedQuadToEnd(front: seq<byte>, back: seq<byte>, q: string)
    requires Address4(q).Some? && |front| + |back| <= 10
    ensures Finish(Scan6(q, front + back, |front|, 0, false, q)) ==
      Some(front + Zeros(12 - |front| - |back|) + (back + Address4(q).value))
  {
    hide Scan6, Finish, Address4, Shifted;
    var v := Address4(q).value;
    QuadToEnd(q, front + back, |front|);
    assert front + back + v == front + (back + v);
    ShiftedSplit(front, back + v);
  }

  /** Groups, if any, each with a colon after it. */
  function Before(ts: seq<string>): string {
    if ts == [] then "" else Join(ts) + ":"
  }

  /** A `::` in a full address whose last four bytes are a dotted quad. */
  lemma {:induction false} ElisionInFullQuad(pre: seq<string>, post: seq<string>, q: string)
    requires AreGroups(pre) && AreGroups(post) && Address4(q).Some? && |pre| + |post| == 6
    ensures var (s, back) := (Join(pre) + ("::" + (Before(post) + q)), Bytes(post) + Address4(q).value);
      && Address6(s) == Some(Bytes(pre) + Zeros(SIZE - 2 * |pre|))
      && (Address6(s) == Some(Bytes(pre) + back) <==> back == Zeros(SIZE - 2 * |pre|))
  {
    hide Address6, Scan6, Finish, Join, IsGroup, AreGroups, Bytes, Placed, Address4;
    var (front, v) := (Bytes(pre), Address4(q).value);
    BeforeThen(post, q, front, 2 * |pre|);
    ElisionThen(pre, Before(post) + q);
    QuadToEnd(q, front + Bytes(post), 2 * |pre|);
    var out := front + Bytes(post) + v;
    PlacedFull(out, 2 * |pre|);
    assert out[..2 * |pre|] == front && out[2 * |pre|..] == Bytes(post) + v;
    assert out == front + (Bytes(post) + v);
  }

  lemma {:induction false} BeforeThen(ts: seq<string>, rest: string, out: seq<byte>, colon: int)
    requires AreGroups(ts) && Sound(out, colon, 0) && |out| + 2 * |ts| <= SIZE
    ensures Scan6(Before(ts) + rest, out, colon, 0, false, Before(ts) + rest) ==
            Scan6(rest, out + Bytes(ts), colon, 0, false, rest)
  {
    hide Scan6, Join;
    if ts == [] {
      assert Before(ts) + rest == rest && out + Bytes(ts) == out;
    } else {
      assert Before(ts) + rest == Join(ts) + (":" + rest);
      GroupsThen(ts, rest, out, colon);
    }
  }

  lemma {:induction false} JoinMore(t: string, ts: seq<string>)
    requires ts != []
    ensures Join([t] + ts) == t + ":" + Join(ts)
  {
    assert ([t] + ts)[1..] == ts;
  }

  function Ones(n: nat): (ts: seq<string>)
    ensures |ts| == n && forall i :: 0 <= i < n ==> ts[i] == "1"
  {
    if n == 0 then [] else ["1"] + Ones(n - 1)
  }

  lemma {:induction false} OneIsGroup()
    ensures IsGroup("1") && HexValue("1") == 1
  {
    assert "1"[..0] == "";
  }

  lemma {:induction false} JoinOnes(n: nat)
    requires n > 0
    ensures Join(Ones(n)) == if n == 1 then "1" else "1" + ":" + Join(Ones(n - 1))
  {
    if n == 1 {
      assert Ones(1) == ["1"] && Join(["1"]) == "1" + "" == "1";
    } else {
      JoinMore("1", Ones(n - 1));
    }
  }

  lemma {:induction false} EightOnes()
    ensures Join(Ones(8)) == "1:1:1:1:1:1:1:1"
  {
    hide Join, Ones;
    JoinOnes(1);
    JoinOnes(2);
    JoinOnes(3);
    JoinOnes(4);
    JoinOnes(5);
    JoinOnes(6);
    JoinOnes(7);
    JoinOnes(8);
  }

  /** A text in which the `::` is not ignored: what follows it is lost. */
  lemma {:induction false} ElisionIsNotIgnored()
    ensures Address6("::1:1:1:1:1:1:1:1") == Some(Zeros(SIZE))
    ensures Address6("1:1:1:1:1:1:1:1").Some? && Address6("1:1:1:1:1:1:1:1").value[1] == 1
  {
    hide Address6, Join, HexValue, IsGroup, Ones;
    EightOnes();
    OneIsGroup();
    ElisionInFullGroups([], Ones(8));
    assert Join([]) + ("::" + Join(Ones(8))) == "::1:1:1:1:1:1:1:1" by { JoinNothing(); }
    assert Bytes([]) + Zeros(16) == Zeros(SIZE);
    FullForm(Ones(8));
  }

  lemma {:induction false} JoinNothing()
    ensures Join([]) == ""
  {
  }

  // ----- Upper and lower case -----

  function Lower(c: char): char {
    if 'A' <= c <= 'F' then (c as int + 32) as char else c
  }

  function LowerAll(s: string): (t: string)
    ensures |t| == |s| && forall i :: 0 <= i < |s| ==> t[i] == Lower(s[i])
  {
    seq(|s|, i requires 0 <= i < |s| => Lower(s[i]))
  }

  lemma {:induction false} LowerChar(c: char)
    ensures IsXDigit(Lower(c)) <==> IsXDigit(c)
    ensures IsXDigit(c) ==> XDigitValue(Lower(c)) == XDigitValue(c)
    ensures IsDigit(Lower(c)) <==> IsDigit(c)
    ensures IsDigit(c) || c == '.' || c == ':' ==> Lower(c) == c
    ensures Lower(c) == '.' <==> c == '.'
    ensures Lower(c) == ':' <==> c == ':'
  {
  }

  lemma {:induction false} LowerTail(s: string)
    requires s != ""
    ensures LowerAll(s) != "" && LowerAll(s)[0] == Lower(s[0]) && LowerAll(s)[1..] == LowerAll(s[1..])
  {
  }

  lemma {:induction false} LowerScan4(s: string, vals: seq<byte>, saw: bool)
    requires 1 <= |vals| <= 4
    ensures Scan4(LowerAll(s), vals, saw) == Scan4(s, vals, saw)
    decreases |s|
  {
    hide LowerAll, Lower;
    if s != "" {
      LowerTail(s);
      LowerChar(s[0]);
      if IsDigit(s[0]) {
        var v: int := vals[|vals| - 1] * 10 + DigitValue(s[0]);
        if v <= 255 {
          LowerScan4(s[1..], vals[|vals| - 1 := v], true);
        }
      } else if s[0] == '.' && saw && |vals| < 4 {
        LowerScan4(s[1..], vals + [0], false);
      }
    }
  }

  lemma {:induction false} LowerAddress4(s: string)
    ensures Address4(LowerAll(s)) == Address4(s)
  {
    ScanIsAddress(s);
    ScanIsAddress(LowerAll(s));
    LowerScan4(s, [0], false);
  }

  lemma {:induction false} LowerScan6(s: string, out: seq<byte>, colon: int, val: nat, saw: bool, curtok: string)
    requires Sound(out, colon, val)
    ensures Scan6(LowerAll(s), out, colon, val, saw, LowerAll(curtok)) == Scan6(s, out, colon, val, saw, curtok)
    decreases |s|
  {
    hide LowerAll, Lower, Address4;
    if s != "" {
      LowerTail(s);
      LowerChar(s[0]);
      LowerAddress4(curtok);
      if IsXDigit(s[0]) {
        var v := val * 16 + XDigitValue(s[0]);
        if v <= 0xffff {
          LowerScan6(s[1..], out, colon, v, true, curtok);
        }
      } else if s[0] == ':' {
        if !saw {
          LowerScan6(s[1..], out, |out|, val, saw, s[1..]);
        } else if |out| + 2 <= SIZE {
          LowerScan6(s[1..], out + Pair(val), colon, 0, false, s[1..]);
        }
      }
    }
  }

  /** The case of hexadecimal digits makes no difference to any text. */
  lemma {:induction false} CaseIsIgnored(s: string)
    ensures Address6(LowerAll(s)) == Address6(s)
  {
    hide Lower, LowerAll, Scan6;
    LowerScan6(s, [], -1, 0, false, s);
    if s != "" {
      LowerTail(s);
      LowerChar(s[0]);
      if |s| >= 2 {
        LowerTail(s[1..]);
        LowerChar(s[1]);
      }
      LowerScan6(s[1..], [], -1, 0, false, s[1..]);
    }
  }

  /** Each group gives two bytes, the high one first. */
  lemma {:induction false} GroupBytes(ts: seq<string>, i: nat)
    requires AreGroups(ts) && i < |ts|
    ensures var (hi: int, lo: int) := (Bytes(ts)[2 * i], Bytes(ts)[2 * i + 1]); hi * 256 + lo == HexValue(ts[i])
    decreases i
  {
    if i > 0 {
      GroupBytes(ts[1..], i - 1);
      assert Bytes(ts)[2 * i] == Bytes(ts[1..])[2 * (i - 1)];
      assert Bytes(ts)[2 * i + 1] == Bytes(ts[1..])[2 * (i - 1) + 1];
    }
  }
}
