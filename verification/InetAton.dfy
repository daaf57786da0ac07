/** `inet_aton` (libfree/inet_aton.c): what it accepts, and how that compares with `inet_pton4`. */
module InetAton {
  import opened Common
  import opened InetText
  import opened InetPton4

  /** The widths an `unsigned long` has. */
  predicate IsUlong(m: int) {
    m == 0x1_0000_0000 || m == 0x1_0000_0000_0000_0000
  }

  /** The value of a string of digits in an `unsigned long`, which wraps around. */
  function UlongValue(s: string, ulong: int): (v: nat)
    requires IsUlong(ulong) && Digits(s)
    ensures v < ulong
  {
    if s == "" then 0 else (UlongValue(s[..|s| - 1], ulong) * 10 + DigitValue(s[|s| - 1])) % ulong
  }

  lemma {:induction false} UlongValueIsMod(s: string, ulong: int)
    requires IsUlong(ulong) && Digits(s)
    ensures UlongValue(s, ulong) == DecValue(s) % ulong
  {
    if s != "" {
      UlongValueIsMod(s[..|s| - 1], ulong);
      MulMod(DecValue(s[..|s| - 1]), DigitValue(s[|s| - 1]), ulong);
    }
  }

  lemma {:induction false} UlongAppend(p: string, c: char, ulong: int)
    requires IsUlong(ulong) && Digits(p) && IsDigit(c)
    ensures Digits(p + [c])
    ensures UlongValue(p + [c], ulong) == (UlongValue(p, ulong) * 10 + DigitValue(c)) % ulong
  {
  }

  /** A group `inet_aton` takes: digits, perhaps none, whose value in an `unsigned long` is at most 255. */
  predicate IsAtonGroup(g: string, ulong: int)
    requires IsUlong(ulong)
  {
    Digits(g) && UlongValue(g, ulong) <= 255
  }

  predicate AtonGroups(gs: seq<string>, ulong: int)
    requires IsUlong(ulong)
  {
    forall i :: 0 <= i < |gs| ==> IsAtonGroup(gs[i], ulong)
  }

  /** Groups read as digits of base 256, after those already in `addr`. */
  function Base256(addr: nat, gs: seq<string>, ulong: int): nat
    requires IsUlong(ulong) && AtonGroups(gs, ulong)
    decreases |gs|
  {
    if gs == [] then addr else Base256(addr * 256 + UlongValue(gs[0], ulong), gs[1..], ulong)
  }

  function Power256(k: nat): nat {
    if k == 0 then 1 else 256 * Power256(k - 1)
  }

  /** What `inet_aton` makes of the groups of a string: missing ones are zeros at the end. */
  function AtonResult(addr: nat, dots: nat, gs: seq<string>, ulong: int): Option<nat>
    requires IsUlong(ulong) && |gs| >= 1
  {
    if dots + |gs| <= 4 && AtonGroups(gs, ulong) then
      Some(Base256(addr, gs, ulong) * Power256(4 - dots - |gs|))
    else None
  }

  lemma {:induction false} MulMod(x: nat, d: nat, m: int)
    requires IsUlong(m)
    ensures ((x % m) * 10 + d) % m == (x * 10 + d) % m
  {
  }

  // ----- The scan, character by character -----

  /** The rest of the loop of `inet_aton`, the terminator included, and the shift after it. */
  function AtonScan(s: string, acc: nat, addr: nat, dots: nat, ulong: int): Option<nat>
    requires IsUlong(ulong) && dots <= 3
  {
    if s == "" then
      if acc > 255 then None else Some((addr * 256 + acc) * Power256(3 - dots))
    else if IsDigit(s[0]) then
      AtonScan(s[1..], (acc * 10 + DigitValue(s[0])) % ulong, addr, dots, ulong)
    else if s[0] == '.' then
      if dots == 3 || acc > 255 then None
      else AtonScan(s[1..], 0, addr * 256 + acc, dots + 1, ulong)
    else None
  }

  lemma {:induction false} NotAton(addr: nat, dots: nat, gs: seq<string>, ulong: int, i: nat)
    requires IsUlong(ulong) && i < |gs| && !IsAtonGroup(gs[i], ulong)
    ensures AtonResult(addr, dots, gs, ulong) == None
  {
  }

  lemma {:induction false} AtonFirst(addr: nat, dots: nat, p: string, gs: seq<string>, ulong: int)
    requires IsUlong(ulong) && Digits(p) && UlongValue(p, ulong) <= 255 && |gs| >= 1 && dots < 4
    ensures AtonResult(addr, dots, [p] + gs, ulong) ==
      AtonResult(addr * 256 + UlongValue(p, ulong), dots + 1, gs, ulong)
  {
  }

  ghost predicate ScanAgrees(s: string, addr: nat, dots: nat, p: string, ulong: int)
    requires IsUlong(ulong) && dots <= 3 && Digits(p)
  {
    AtonScan(s, UlongValue(p, ulong), addr, dots, ulong) == AtonResult(addr, dots, Groups(p + s), ulong)
  }

  lemma {:induction false} AgreesAtEnd(addr: nat, dots: nat, p: string, ulong: int)
    requires IsUlong(ulong) && dots <= 3 && Digits(p)
    ensures ScanAgrees("", addr, dots, p, ulong)
  {
    GroupsOfDigits(p, "");
    assert Groups("") == [""] && p + "" == p;
    assert Groups(p + "") == [p];
    if IsAtonGroup(p, ulong) {
      assert AtonGroups([p], ulong);
      assert Base256(addr, [p], ulong) == addr * 256 + UlongValue(p, ulong);
    } else {
      NotAton(addr, dots, [p], ulong, 0);
    }
  }

  lemma {:induction false} AgreesAtDot(s: string, addr: nat, dots: nat, p: string, ulong: int)
    requires IsUlong(ulong) && dots <= 3 && Digits(p) && s != "" && s[0] == '.'
    requires dots < 3 ==> ScanAgrees(s[1..], addr * 256 + UlongValue(p, ulong), dots + 1, "", ulong)
    ensures ScanAgrees(s, addr, dots, p, ulong)
  {
    GroupsAtDot(p, s);
    if UlongValue(p, ulong) > 255 {
      NotAton(addr, dots, Groups(p + s), ulong, 0);
    } else if dots < 3 {
      assert "" + s[1..] == s[1..];
      AtonFirst(addr, dots, p, Groups(s[1..]), ulong);
    }
  }

  lemma {:induction false} AgreesAtOther(s: string, addr: nat, dots: nat, p: string, ulong: int)
    requires IsUlong(ulong) && dots <= 3 && Digits(p) && s != "" && s[0] != '.' && !IsDigit(s[0])
    ensures ScanAgrees(s, addr, dots, p, ulong)
  {
    GroupsOfDigits(p, s);
    var g := Groups(p + s)[0];
    assert Groups(s)[0][0] == s[0] && g[|p|] == s[0];
    NotAton(addr, dots, Groups(p + s), ulong, 0);
  }

  /** The scan against the groups of the string: `p` is the part of the current one already read. */
  lemma {:induction false} AtonMeaning(s: string, addr: nat, dots: nat, p: string, ulong: int)
    requires IsUlong(ulong) && dots <= 3 && Digits(p)
    ensures ScanAgrees(s, addr, dots, p, ulong)
    decreases |s|
  {
    if s == "" {
      AgreesAtEnd(addr, dots, p, ulong);
    } else if IsDigit(s[0]) {
      UlongAppend(p, s[0], ulong);
      assert p + [s[0]] + s[1..] == p + s;
      AtonMeaning(s[1..], addr, dots, p + [s[0]], ulong);
    } else if s[0] == '.' {
      if dots < 3 {
        AtonMeaning(s[1..], addr * 256 + UlongValue(p, ulong), dots + 1, "", ulong);
      }
      AgreesAtDot(s, addr, dots, p, ulong);
    } else {
      AgreesAtOther(s, addr, dots, p, ulong);
    }
  }

  method AtonLoop(cp: cstring, ulong: int) returns (ok: bool, s_addr: nat)
    requires IsUlong(ulong)
    ensures ok <==> AtonScan(cp, 0, 0, 0, ulong).Some?
    ensures ok ==> s_addr == AtonScan(cp, 0, 0, 0, ulong).value
  {
    var dots, acc, addr, i := 0, 0, 0, 0;
    assert cp[0..] == cp;
    while i <= |cp|
      invariant 0 <= i <= |cp| + 1 && 0 <= dots <= 3 && 0 <= acc && 0 <= addr
      invariant i <= |cp| ==> AtonScan(cp[i..], acc, addr, dots, ulong) == AtonScan(cp, 0, 0, 0, ulong)
      invariant i > |cp| ==> Some(addr * Power256(3 - dots)) == AtonScan(cp, 0, 0, 0, ulong)
    {
      var cc := if i < |cp| then cp[i] else '\0';
      if i < |cp| {
        assert cp[i..][1..] == cp[i + 1..];
      }
      if IsDigit(cc) {
        acc := (acc * 10 + DigitValue(cc)) % ulong;
      } else if cc == '.' || cc == '\0' {
        if cc == '.' {
          dots := dots + 1;
          if dots > 3 {
            return false, 0;
          }
        }
        if acc > 255 {
          return false, 0;
        }
        addr := addr * 256 + acc;
        acc := 0;
      } else {
        return false, 0;
      }
      i := i + 1;
    }
    return true, addr * Power256(3 - dots);
  }

  /** Four bytes as a number, most significant first. */
  function Number(a: seq<byte>): nat
    requires |a| == 4
  {
    var (a0: int, a1: int, a2: int, a3: int) := (a[0], a[1], a[2], a[3]);
    ((a0 * 256 + a1) * 256 + a2) * 256 + a3
  }

  lemma {:induction false} PowersOf256()
    ensures Power256(0) == 1 && Power256(1) == 0x100 && Power256(2) == 0x1_0000
    ensures Power256(3) == 0x100_0000 && Power256(4) == 0x1_0000_0000
  {
  }

  /** Whatever the string, the address has 32 bits. */
  lemma {:induction false} AddressFits(s: string, acc: nat, addr: nat, dots: nat, ulong: int)
    requires IsUlong(ulong) && dots <= 3 && addr < Power256(dots)
    ensures var r := AtonScan(s, acc, addr, dots, ulong); r.Some? ==> r.value < Power256(4)
    decreases |s|
  {
    hide Power256;
    PowersOf256();
    if s == "" {
      assert dots == 0 || dots == 1 || dots == 2 || dots == 3;
    } else if IsDigit(s[0]) {
      AddressFits(s[1..], (acc * 10 + DigitValue(s[0])) % ulong, addr, dots, ulong);
    } else if s[0] == '.' && dots < 3 && acc <= 255 {
      assert dots == 0 || dots == 1 || dots == 2;
      AddressFits(s[1..], 0, addr * 256 + acc, dots + 1, ulong);
    }
  }

  /** `inet_aton`: it takes at most four groups of digits, empty ones included, each of value at most 255 once
      wrapped to an `unsigned long`. The result, if one is asked for, is stored in network byte order. */
  method Aton(cp: cstring, ulong: int, ap: array?<byte>) returns (ok: bool)
    requires IsUlong(ulong) && (ap != null ==> ap.Length == 4)
    modifies ap
    ensures ok <==> AtonResult(0, 0, Groups(cp), ulong).Some?
    ensures ok && ap != null ==> Number(ap[..]) == AtonResult(0, 0, Groups(cp), ulong).value
    ensures !ok && ap != null ==> ap[..] == old(ap[..])
    ensures Address4(cp).Some? ==> ok && (ap != null ==> ap[..] == Address4(cp).value)
  {
    hide AtonScan, AtonResult, Groups, Power256, Address4, Number;
    PowersOf256();
    AtonMeaning(cp, 0, 0, "", ulong);
    assert "" + cp == cp;
    AddressFits(cp, 0, 0, 0, ulong);
    var addr;
    ok, addr := AtonLoop(cp, ulong);
    if ok && ap != null {
      StoreNetwork(addr, ap);
    }
    if Address4(cp).Some? {
      AtonAgreesOnQuads(cp, ulong);
      if ap != null {
        NumberIsInjective(ap[..], Address4(cp).value);
      }
    }
  }

  lemma {:induction false} NumberIsInjective(a: seq<byte>, b: seq<byte>)
    requires |a| == |b| == 4 && Number(a) == Number(b)
    ensures a == b
  {
    var (a0: int, a1: int, a2: int, a3: int) := (a[0], a[1], a[2], a[3]);
    var (b0: int, b1: int, b2: int, b3: int) := (b[0], b[1], b[2], b[3]);
    SameDigit((a0 * 256 + a1) * 256 + a2, a3, (b0 * 256 + b1) * 256 + b2, b3);
    SameDigit(a0 * 256 + a1, a2, b0 * 256 + b1, b2);
    SameDigit(a0, a1, b0, b1);
  }

  lemma {:induction false} SameDigit(x: nat, d: byte, y: nat, e: byte)
    requires x * 256 + d == y * 256 + e
    ensures x == y && d == e
  {
  }

  /** The four bytes in memory that `htonl` makes of an address, on either kind of host. */
  method StoreNetwork(addr: nat, ap: array<byte>)
    requires addr < 0x1_0000_0000 && ap.Length == 4
    modifies ap
    ensures Number(ap[..]) == addr
  {
    var high, low := addr / 0x1_0000, addr % 0x1_0000;
    ap[0], ap[1], ap[2], ap[3] := high / 0x100, high % 0x100, low / 0x100, low % 0x100;
  }

  /** At most four groups of decimal digits, empty ones too, each of value at most 255 modulo the width. */
  lemma {:induction false} AtonTakesThese(s: string, ulong: int)
    requires IsUlong(ulong)
    ensures AtonResult(0, 0, Groups(s), ulong).Some? <==> |Groups(s)| <= 4 && forall i :: 0 <= i < |Groups(s)| ==>
      && (forall k :: 0 <= k < |Groups(s)[i]| ==> '0' <= Groups(s)[i][k] <= '9')
      && DecValue(Groups(s)[i]) % ulong <= 255
  {
    hide Groups, DecValue, UlongValue, Base256, Power256;
    var gs := Groups(s);
    forall i | 0 <= i < |gs| && Digits(gs[i]) ensures UlongValue(gs[i], ulong) == DecValue(gs[i]) % ulong {
      UlongValueIsMod(gs[i], ulong);
    }
  }

  // ----- Against inet_pton4 -----

  lemma {:induction false} OctetIsAtonGroup(g: string, ulong: int)
    requires IsUlong(ulong) && IsOctet(g)
    ensures IsAtonGroup(g, ulong) && UlongValue(g, ulong) == DecValue(g)
  {
    hide UlongValue, DecValue;
    UlongValueIsMod(g, ulong);
  }

  /** Every string `inet_pton4` accepts, `inet_aton` accepts with the same address. */
  lemma {:induction false} AtonAgreesOnQuads(s: string, ulong: int)
    requires IsUlong(ulong) && Address4(s).Some?
    ensures AtonResult(0, 0, Groups(s), ulong) == Some(Number(Address4(s).value))
  {
    var gs := Groups(s);
    forall i | 0 <= i < 4
      ensures IsAtonGroup(gs[i], ulong) && UlongValue(gs[i], ulong) == Values(gs)[i]
    {
      OctetIsAtonGroup(gs[i], ulong);
    }
    FourGroups(gs, Values(gs), ulong);
    assert [] + Values(gs) == Values(gs);
  }

  lemma {:induction false} FourGroups(gs: seq<string>, a: seq<byte>, ulong: int)
    requires IsUlong(ulong) && |gs| == |a| == 4 && AtonGroups(gs, ulong)
    requires forall i :: 0 <= i < 4 ==> UlongValue(gs[i], ulong) == a[i]
    ensures Base256(0, gs, ulong) == Number(a)
  {
    var (a0: int, a1: int, a2: int, a3: int) := (a[0], a[1], a[2], a[3]);
    var g1 := gs[1..];
    var g2 := g1[1..];
    var g3 := g2[1..];
    assert gs[0] == gs[0] && g1[0] == gs[1] && g2[0] == gs[2] && g3[0] == gs[3];
    calc {
      Base256(0, gs, ulong);
      Base256(a0, g1, ulong);
      Base256(a0 * 256 + a1, g2, ulong);
      Base256((a0 * 256 + a1) * 256 + a2, g3, ulong);
      Number(a);
    }
  }

  /** The groups given are the leading bytes of the address, and those missing are zeros at its end. */
  lemma {:induction false} MissingGroupsAreZeros(gs: seq<string>, a: seq<byte>, ulong: int)
    requires IsUlong(ulong) && 1 <= |gs| <= 4 == |a| && AtonGroups(gs, ulong)
    requires forall i :: 0 <= i < 4 ==> a[i] == if i < |gs| then UlongValue(gs[i], ulong) else 0
    ensures AtonResult(0, 0, gs, ulong) == Some(Number(a))
  {
    hide UlongValue, Power256;
    PowersOf256();
    var (a0: int, a1: int, a2: int, a3: int) := (a[0], a[1], a[2], a[3]);
    var g1 := gs[1..];
    if |gs| == 1 {
      assert g1 == [] && Base256(0, gs, ulong) == a0;
    } else {
      var g2 := g1[1..];
      assert g1[0] == gs[1] && Base256(0, gs, ulong) == Base256(a0, g1, ulong) == Base256(a0 * 256 + a1, g2, ulong);
      if |gs| == 2 {
        assert g2 == [];
      } else if |gs| == 3 {
        assert g2[0] == gs[2] && g2[1..] == [];
      } else {
        FourGroups(gs, a, ulong);
      }
    }
  }

  /** The other way they part exactly when a group is missing, empty or has wrapped around. */
  lemma {:induction false} PtonIsStricter(s: string, ulong: int)
    requires IsUlong(ulong) && AtonResult(0, 0, Groups(s), ulong).Some?
    ensures Address4(s).Some? <==>
      |Groups(s)| == 4 && forall i :: 0 <= i < 4 ==> Groups(s)[i] != "" && DecValue(Groups(s)[i]) < ulong
  {
    hide Groups, DecValue, UlongValue;
    var gs := Groups(s);
    forall i | 0 <= i < |gs|
      ensures IsOctet(gs[i]) <==> gs[i] != "" && DecValue(gs[i]) < ulong
    {
      assert IsAtonGroup(gs[i], ulong);
      UlongValueIsMod(gs[i], ulong);
    }
  }

  lemma {:induction false} OneDigit(g: string, v: nat, ulong: int)
    requires IsUlong(ulong) && |g| == 1 && IsDigit(g[0]) && DigitValue(g[0]) == v
    ensures IsAtonGroup(g, ulong) && UlongValue(g, ulong) == v
  {
    assert g[..0] == "" && UlongValue("", ulong) == 0;
  }

  lemma {:induction false} ThreeGroups()
    ensures Groups("1.2.3") == ["1", "2", "3"]
  {
    GroupsAtDot("1", ".2.3");
    GroupsAtDot("2", ".3");
    GroupsOfDigits("3", "");
    assert "1" + ".2.3" == "1.2.3" && ".2.3"[1..] == "2.3" == "2" + ".3" && ".3"[1..] == "3" == "3" + "";
    assert Groups("3") == ["3"];
  }

  /** A string on which they part: `inet_aton` takes it with a zero at the end. */
  lemma {:induction false} OnlyAtonAccepts(ulong: int)
    requires IsUlong(ulong)
    ensures AtonResult(0, 0, Groups("1.2.3"), ulong) == Some(0x0102_0300) && Address4("1.2.3") == None
  {
    hide UlongValue, Groups, Power256;
    ThreeGroups();
    PowersOf256();
    OneDigit("1", 1, ulong);
    OneDigit("2", 2, ulong);
    OneDigit("3", 3, ulong);
    var gs := ["1", "2", "3"];
    assert AtonGroups(gs, ulong) && gs[1..] == ["2", "3"] && gs[1..][1..] == ["3"] && gs[1..][1..][1..] == [];
    calc {
      Base256(0, gs, ulong);
      Base256(1, gs[1..], ulong);
      Base256(1 * 256 + 2, gs[1..][1..], ulong);
      Base256((1 * 256 + 2) * 256 + 3, [], ulong);
    }
  }
}
