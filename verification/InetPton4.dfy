/** `inet_pton4` (libfree/inet_pton.c). */
module InetPton4 {
  import opened Common
  import opened InetText

  // ----- The language of dotted quads -----

  /** The pieces of a string between its dots. */
  function Groups(s: string): (gs: seq<string>)
    ensures |gs| >= 1
  {
    Split(s, '.')
  }

  predicate Digits(s: string) {
    forall i :: 0 <= i < |s| ==> IsDigit(s[i])
  }

  /** A decimal group: digits, at least one, of value at most 255; leading zeros are allowed. */
  predicate IsOctet(g: string) {
    g != "" && Digits(g) && DecValue(g) <= 255
  }

  predicate AreOctets(gs: seq<string>) {
    forall i :: 0 <= i < |gs| ==> IsOctet(gs[i])
  }

  function Values(gs: seq<string>): (vs: seq<byte>)
    requires AreOctets(gs)
    ensures |vs| == |gs|
  {
    seq(|gs|, i requires 0 <= i < |gs| => DecValue(gs[i]))
  }

  /** The address of a dotted quad, after `done` leading octets. */
  function Quad(done: seq<byte>, gs: seq<string>): Option<seq<byte>> {
    if |done| + |gs| == 4 && AreOctets(gs) then Some(done + Values(gs)) else None
  }

  /** What a dotted quad denotes; anything else denotes nothing. */
  function Address4(s: string): (r: Option<seq<byte>>)
    ensures r.Some? ==> |r.value| == 4
  {
    Quad([], Groups(s))
  }

  /** Four groups, none of them empty, of decimal digits, each of value at most 255, are the four bytes. */
  lemma {:induction false} QuadsAreThese(s: string)
    ensures Address4(s).Some? <==> |Groups(s)| == 4 && forall i :: 0 <= i < 4 ==>
      && |Groups(s)[i]| > 0 && (forall k :: 0 <= k < |Groups(s)[i]| ==> '0' <= Groups(s)[i][k] <= '9')
      && DecValue(Groups(s)[i]) <= 255
    ensures Address4(s).Some? ==> forall i :: 0 <= i < 4 ==> Address4(s).value[i] == DecValue(Groups(s)[i])
  {
    hide Groups, DecValue;
    var gs := Groups(s);
    assert |gs| == 4 ==> (AreOctets(gs) <==> forall i :: 0 <= i < 4 ==> IsOctet(gs[i]));
    if Address4(s).Some? {
      assert [] + Values(gs) == Values(gs);
    }
  }

  // ----- The scan, character by character -----

  /** The rest of the loop of `inet_pton4`: `vals` are the octets up to the one being read. */
  function Scan4(s: string, vals: seq<byte>, saw: bool): (r: Option<seq<byte>>)
    requires 1 <= |vals| <= 4
    ensures r.Some? ==> |r.value| == 4
  {
    var octets := if saw then |vals| else |vals| - 1;
    if s == "" then
      if octets < 4 then None else Some(vals)
    else if IsDigit(s[0]) then
      var new_ := vals[|vals| - 1] * 10 + DigitValue(s[0]);
      if new_ > 255 then None else Scan4(s[1..], vals[|vals| - 1 := new_], true)
    else if s[0] == '.' && saw then
      if octets == 4 then None else Scan4(s[1..], vals + [0], false)
    else None
  }

  lemma {:induction false} GroupsOfDigits(p: string, s: string)
    requires Digits(p)
    ensures Groups(p + s) == [p + Groups(s)[0]] + Groups(s)[1..]
  {
    SplitAfter(p, s, '.');
  }

  lemma {:induction false} GroupsAtDot(p: string, s: string)
    requires Digits(p) && s != "" && s[0] == '.'
    ensures Groups(p + s) == [p] + Groups(s[1..])
  {
    SplitAtSeparator(p, s, '.');
  }

  lemma {:induction false} NotOctets(done: seq<byte>, gs: seq<string>, i: nat)
    requires i < |gs| && !IsOctet(gs[i])
    ensures Quad(done, gs) == None
  {
  }

  lemma {:induction false} DigitsAppend(p: string, c: char)
    requires Digits(p) && IsDigit(c)
    ensures Digits(p + [c]) && DecValue(p + [c]) == DecValue(p) * 10 + DigitValue(c)
  {
  }

  /** The scan accepts exactly the dotted quads: `p` is the part of the current group already read. */
  lemma {:induction false} ScanMeaning(s: string, done: seq<byte>, p: string)
    requires |done| <= 3 && Digits(p) && DecValue(p) <= 255
    ensures Scan4(s, done + [DecValue(p)], p != "") == Quad(done, Groups(p + s))
    decreases |s|, 1
  {
    GroupsOfDigits(p, s);
    if s == "" {
      assert Groups(s) == [""] && p + "" == p;
      assert Groups(p + s) == [p];
      if p == "" {
        NotOctets(done, [p], 0);
      } else {
        assert AreOctets([p]) && Values([p]) == [DecValue(p)];
      }
    } else if IsDigit(s[0]) {
      ScanDigit(s, done, p);
    } else if s[0] == '.' {
      GroupsAtDot(p, s);
      if p == "" {
        NotOctets(done, Groups(p + s), 0);
      } else if |done| < 3 {
        ScanMeaning(s[1..], done + [DecValue(p)], "");
        assert "" + s[1..] == s[1..];
        QuadStep(done, p, Groups(s[1..]));
      }
    } else {
      var g := Groups(p + s)[0];
      assert Groups(s)[0][0] == s[0] && g[|p|] == s[0];
      NotOctets(done, Groups(p + s), 0);
    }
  }

  lemma {:induction false} QuadStep(done: seq<byte>, p: string, gs: seq<string>)
    requires IsOctet(p)
    ensures Quad(done + [DecValue(p)], gs) == Quad(done, [p] + gs)
  {
    var all := [p] + gs;
    assert gs == all[1..];
    if AreOctets(gs) {
      assert AreOctets(all);
      assert Values(all) == [DecValue(p)] + Values(gs);
      assert done + [DecValue(p)] + Values(gs) == done + Values(all);
    } else {
      var i :| 0 <= i < |gs| && !IsOctet(gs[i]);
      assert !IsOctet(all[i + 1]);
    }
  }

  lemma {:induction false} ScanDigit(s: string, done: seq<byte>, p: string)
    requires s != "" && IsDigit(s[0])
    requires |done| <= 3 && Digits(p) && DecValue(p) <= 255
    ensures Scan4(s, done + [DecValue(p)], p != "") == Quad(done, Groups(p + s))
    decreases |s|, 0
  {
    var p' := p + [s[0]];
    DigitsAppend(p, s[0]);
    assert p' + s[1..] == p + s;
    ScanOneDigit(s, done, DecValue(p), p != "");
    if DecValue(p') <= 255 {
      ScanMeaning(s[1..], done, p');
    } else {
      TooLarge(p', s[1..]);
      NotOctets(done, Groups(p + s), 0);
    }
  }

  lemma {:induction false} ScanOneDigit(s: string, done: seq<byte>, v: byte, saw: bool)
    requires s != "" && IsDigit(s[0]) && |done| <= 3
    ensures var w: int := v * 10 + DigitValue(s[0]);
      Scan4(s, done + [v], saw) == if w > 255 then None else Scan4(s[1..], done + [w], true)
  {
    var w: int := v * 10 + DigitValue(s[0]);
    if w <= 255 {
      assert (done + [v])[|done| := w] == done + [w];
    }
  }

  lemma {:induction false} TooLarge(p: string, s: string)
    requires Digits(p) && DecValue(p) > 255
    ensures !IsOctet(Groups(p + s)[0])
  {
    GroupsOfDigits(p, s);
    var t := Groups(s)[0];
    if Digits(p + t) {
      DecValueGrows(p, t);
    }
  }

  lemma {:induction false} ScanIsAddress(s: string)
    ensures Scan4(s, [0], false) == Address4(s)
  {
    ScanMeaning(s, [], "");
    assert "" + s == s && [] + [0] == [0];
  }

  /** The loop of `inet_pton4`, which fills its own `tmp`. */
  method ScanQuad(src: cstring) returns (ok: bool, tmp: array<byte>)
    ensures fresh(tmp) && tmp.Length == 4
    ensures ok <==> Scan4(src, [0], false).Some?
    ensures ok ==> tmp[..] == Scan4(src, [0], false).value
  {
    var sawDigit, octets := false, 0;
    tmp := new byte[4];
    var tp := 0;
    tmp[tp] := 0;
    var i := 0;
    assert tmp[..1] == [0] && src[0..] == src;
    while i < |src|
      invariant 0 <= i <= |src| && 0 <= tp < 4
      invariant octets == if sawDigit then tp + 1 else tp
      invariant Scan4(src[i..], tmp[..tp + 1], sawDigit) == Scan4(src, [0], false)
    {
      var ch := src[i];
      ghost var vals: seq<byte> := tmp[..tp + 1];
      assert src[i..][1..] == src[i + 1..];
      i := i + 1;
      if IsDigit(ch) {
        var new_ := tmp[tp] * 10 + DigitValue(ch);
        if new_ > 255 {
          return false, tmp;
        }
        tmp[tp] := new_;
        assert tmp[..tp + 1] == vals[tp := new_];
        if !sawDigit {
          octets := octets + 1;
          if octets > 4 {
            return false, tmp;
          }
          sawDigit := true;
        }
      } else if ch == '.' && sawDigit {
        if octets == 4 {
          return false, tmp;
        }
        tp := tp + 1;
        tmp[tp] := 0;
        assert tmp[..tp + 1] == vals + [0];
        sawDigit := false;
      } else {
        return false, tmp;
      }
    }
    assert octets == 4 ==> tmp[..] == tmp[..tp + 1];
    return octets == 4, tmp;
  }

  /** `inet_pton4`: accepts exactly the dotted quads, and does not touch `dst` otherwise. */
  method Pton4(src: cstring, dst: array<byte>, at: nat) returns (ok: bool)
    requires at + 4 <= dst.Length
    modifies dst
    ensures ok <==> Address4(src).Some?
    ensures dst[..] == if ok then old(dst[..at]) + Address4(src).value + old(dst[at + 4..]) else old(dst[..])
  {
    ScanIsAddress(src);
    var tmp;
    ok, tmp := ScanQuad(src);
    if ok {
      dst[at], dst[at + 1], dst[at + 2], dst[at + 3] := tmp[0], tmp[1], tmp[2], tmp[3];
    }
  }
}
