/** The Internet checksum (libfree/in_cksum.c) and the UDP datagram that carries one
    (udpcksum/udpwrite.c).

    The reference is the definition of RFC 1071, section 1: the complement of the
    one's-complement sum (end-around carry at every addition) of the 16-bit words.
    The code does something else: it adds into a 32-bit accumulator, which can wrap,
    and folds the carries once at the end. */
module Checksum {
  import opened Common

  type word = w: int | 0 <= w < 0x1_0000

  /** The byte order of the host, which decides how two bytes in memory read as a `uint16_t`. */
  datatype ByteOrder = BigEndian | LittleEndian

  const WORD32: int := 0x1_0000_0000

  function Word(o: ByteOrder, first: byte, second: byte): word {
    if o.BigEndian? then 0x100 * first + second else first + 0x100 * second
  }

  /** The two bytes in memory when `w` is stored as a `uint16_t`. */
  function Stored(o: ByteOrder, w: word): (bs: seq<byte>)
    ensures |bs| == 2 && Word(o, bs[0], bs[1]) == w
  {
    if o.BigEndian? then [w / 0x100, w % 0x100] else [w % 0x100, w / 0x100]
  }

  function Swap(w: word): word {
    0x100 * (w % 0x100) + w / 0x100
  }

  /** A buffer read as words; an odd last byte is the first byte of a word whose second is 0. */
  function Words(o: ByteOrder, buf: seq<byte>): seq<word> {
    if |buf| == 0 then []
    else if |buf| == 1 then [Word(o, buf[0], 0)]
    else [Word(o, buf[0], buf[1])] + Words(o, buf[2..])
  }

  /** Word `k` of a buffer is made of bytes `2 * k` and `2 * k + 1`. */
  lemma {:induction false} WordIsPair(o: ByteOrder, buf: seq<byte>, k: nat)
    requires 2 * k < |buf|
    ensures k < |Words(o, buf)|
    ensures var (a: int, b: int) := (buf[2 * k], if 2 * k + 1 < |buf| then buf[2 * k + 1] else 0);
      Words(o, buf)[k] == if o == BigEndian then 256 * a + b else a + 256 * b
    decreases k
  {
    if k > 0 {
      WordIsPair(o, buf[2..], k - 1);
    }
  }

  /** Addition of RFC 1071: a carry out of the top is added back at the bottom. */
  function OnesAdd(a: word, b: word): word {
    if a + b > 0xffff then a + b - 0xffff else a + b
  }

  function OnesSum(ws: seq<word>): word {
    if ws == [] then 0 else OnesAdd(ws[0], OnesSum(ws[1..]))
  }

  /** The checksum as RFC 1071 defines it. */
  function Checksum(o: ByteOrder, buf: seq<byte>): word {
    0xffff - OnesSum(Words(o, buf))
  }

  /** The unbounded sum of the words. */
  function Sum(ws: seq<word>): (s: nat)
    ensures s <= 0xffff * |ws|
  {
    if ws == [] then 0 else ws[0] + Sum(ws[1..])
  }

  /** The one's-complement representative of a sum: 0 only for the sum 0, else 1..65535. */
  function Residue(s: nat): (r: word)
    ensures s == 0 <==> r == 0
  {
    if s <= 0xffff then s else Residue(s - 0xffff)
  }

  /** What is left of a sum in a 32-bit accumulator. */
  function Wrapped(s: nat): (r: nat)
    ensures r < WORD32
  {
    if s < WORD32 then s else Wrapped(s - WORD32)
  }

  /** Addition of `uint32_t`. */
  function Add32(a: nat, b: nat): (r: nat)
    requires a < WORD32 && b < WORD32
    ensures r < WORD32
  {
    if a + b < WORD32 then a + b else a + b - WORD32
  }

  /** What the two fold assignments and the truncated complement make of the accumulator. */
  function Folded(s: nat): word
    requires s < WORD32
  {
    var t := s / 0x1_0000 + s % 0x1_0000;
    0xffff - (t + t / 0x1_0000) % 0x1_0000
  }

  lemma {:induction false} ResidueShift(s: nat, q: nat)
    requires s > 0
    ensures Residue(0xffff * q + s) == Residue(s)
  {
    if q > 0 {
      ResidueShift(s, q - 1);
      assert 0xffff * q + s - 0xffff == 0xffff * (q - 1) + s;
    }
  }

  lemma {:induction false} ResidueQuotient(s: nat) returns (q: nat)
    requires s > 0
    ensures s == 0xffff * q + Residue(s)
  {
    if s <= 0xffff {
      q := 0;
    } else {
      q := ResidueQuotient(s - 0xffff);
      q := q + 1;
    }
  }

  lemma {:induction false} ResidueOfSum(w: word, s: nat)
    ensures Residue(w + s) == OnesAdd(w, Residue(s))
  {
    if s > 0 {
      var q := ResidueQuotient(s);
      assert w + s == 0xffff * q + (w + Residue(s));
      ResidueShift(w + Residue(s), q);
    }
  }

  lemma {:induction false} OnesSumIsResidue(ws: seq<word>)
    ensures OnesSum(ws) == Residue(Sum(ws))
  {
    if ws != [] {
      OnesSumIsResidue(ws[1..]);
      ResidueOfSum(ws[0], Sum(ws[1..]));
    }
  }

  /** The first fold leaves at most one carry, and the second takes it in. */
  lemma {:induction false} FoldedValue(s: nat) returns (hi: nat, t: nat)
    requires s < WORD32
    ensures s == 0xffff * hi + t && t <= 0x1_fffe
    ensures Folded(s) == 0xffff - (if t < 0x1_0000 then t else t - 0xffff)
  {
    hi := s / 0x1_0000;
    t := hi + s % 0x1_0000;
  }

  lemma {:induction false} FoldedIsComplementOfResidue(s: nat)
    requires s < WORD32
    ensures Folded(s) == 0xffff - Residue(s)
  {
    var hi, t := FoldedValue(s);
    if t > 0 {
      ResidueShift(t, hi);
    }
  }

  lemma {:induction false} WordCount(o: ByteOrder, buf: seq<byte>)
    ensures |Words(o, buf)| == (|buf| + 1) / 2
  {
    if |buf| >= 2 {
      WordCount(o, buf[2..]);
    }
  }

  /** 65537 words are the most the 32-bit accumulator can hold whatever their values. */
  lemma {:induction false} SumFits(o: ByteOrder, buf: seq<byte>)
    requires |buf| <= 131074
    ensures Sum(Words(o, buf)) < WORD32
  {
    WordCount(o, buf);
  }

  lemma {:induction false} WrappedQuotient(s: nat) returns (q: nat)
    ensures s == WORD32 * q + Wrapped(s)
  {
    if s < WORD32 {
      q := 0;
    } else {
      q := WrappedQuotient(s - WORD32);
      q := q + 1;
    }
  }

  /** 2^32 is 1 modulo 65535: `q` wraps drop `q` from the one's-complement sum. */
  lemma {:induction false} WrapDropsCarries(r: nat, q: nat)
    requires 0 < q < 0xffff
    ensures Residue(WORD32 * q + r) != Residue(r)
  {
    assert WORD32 * q + r == 0xffff * (0x1_0001 * q) + (q + r);
    ResidueShift(q + r, 0x1_0001 * q);
    if r > 0 {
      var k := ResidueQuotient(r);
      assert q + r == 0xffff * k + (q + Residue(r));
      ResidueShift(q + Residue(r), k);
    }
  }

  lemma {:induction false} FoldedIsRightIffNoWrap(s: nat)
    requires s < 0x4000_0000 * 0x1_0000
    ensures Folded(Wrapped(s)) == 0xffff - Residue(s) <==> s < WORD32
  {
    FoldedIsComplementOfResidue(Wrapped(s));
    if s >= WORD32 {
      var q := WrappedQuotient(s);
      WrapDropsCarries(Wrapped(s), q);
    }
  }

  lemma {:induction false} AnswerIsChecksum(o: ByteOrder, buf: seq<byte>)
    requires |buf| <= 0x7fff_ffff
    ensures Folded(Wrapped(Sum(Words(o, buf)))) == Checksum(o, buf) <==> Sum(Words(o, buf)) < WORD32
  {
    OnesSumIsResidue(Words(o, buf));
    WordCount(o, buf);
    FoldedIsRightIffNoWrap(Sum(Words(o, buf)));
  }

  /** The fold assignments and the truncating complement of `in_cksum`. */
  method FoldAndComplement(acc: nat) returns (answer: word)
    requires acc < WORD32
    ensures answer == Folded(acc)
  {
    var sum := acc;
    sum := sum / 0x1_0000 + sum % 0x1_0000;
    sum := sum + sum / 0x1_0000;
    answer := 0xffff - sum % 0x1_0000;
  }

  /** The bytes a length covers; a negative length covers none. */
  function Covered(addr: seq<byte>, len: int): (buf: seq<byte>)
    requires len <= |addr|
    ensures |buf| == if len < 0 then 0 else len
  {
    if len < 0 then [] else addr[..len]
  }

  lemma {:induction false} AccumulateStep(o: ByteOrder, buf: seq<byte>, w: nat, sum: nat)
    requires w < |buf| && sum < WORD32
    ensures var x := Word(o, buf[w], if w + 1 < |buf| then buf[w + 1] else 0);
      var next := if w + 1 < |buf| then buf[w + 2..] else [];
      Wrapped(Add32(sum, x) + Sum(Words(o, next))) == Wrapped(sum + Sum(Words(o, buf[w..])))
  {
  }

  /** The accumulation of `in_cksum`, with the odd byte mopped up. */
  method Accumulate(o: ByteOrder, addr: seq<byte>, len: int) returns (sum: nat)
    requires len <= |addr|
    ensures sum == Wrapped(Sum(Words(o, Covered(addr, len))))
  {
    hide Words, Sum, Wrapped;
    ghost var buf := Covered(addr, len);
    ghost var total := Sum(Words(o, buf));
    var nleft, w := len, 0;
    sum := 0;
    assert buf[0..] == buf;
    while nleft > 1
      invariant 0 <= w <= |buf| && sum < WORD32
      invariant nleft == if len < 0 then len else len - w
      invariant Wrapped(sum + Sum(Words(o, buf[w..]))) == Wrapped(total)
    {
      AccumulateStep(o, buf, w, sum);
      sum := Add32(sum, Word(o, addr[w], addr[w + 1]));
      w := w + 2;
      nleft := nleft - 2;
    }
    if nleft == 1 {
      AccumulateStep(o, buf, w, sum);
      sum := Add32(sum, Word(o, addr[w], 0));
    } else {
      assert buf[w..] == [];
    }
    NothingLeft(o, sum);
  }

  lemma {:induction false} NothingLeft(o: ByteOrder, sum: nat)
    requires sum < WORD32
    ensures Wrapped(sum + Sum(Words(o, []))) == sum
  {
  }

  /** `in_cksum`. The result is the RFC 1071 checksum exactly when the words add up to less
      than 2^32, which up to 131074 bytes they always do. */
  method InCksum(o: ByteOrder, addr: seq<byte>, len: int) returns (answer: word)
    requires len <= |addr| && len <= 0x7fff_ffff
    ensures answer == Checksum(o, Covered(addr, len)) <==> Sum(Words(o, Covered(addr, len))) < WORD32
    ensures answer == Folded(Wrapped(Sum(Words(o, Covered(addr, len)))))
    ensures len <= 131074 ==> answer == Checksum(o, Covered(addr, len))
  {
    var sum := Accumulate(o, addr, len);
    answer := FoldAndComplement(sum);
    AnswerIsChecksum(o, Covered(addr, len));
    if len <= 131074 {
      SumFits(o, Covered(addr, len));
    }
  }

  /** 131074 is the last safe length: of every greater one, a buffer of ones loses a carry. */
  lemma {:induction false} LongerBufferCanFail(o: ByteOrder, buf: seq<byte>)
    requires 131075 <= |buf| <= 0x7fff_ffff && forall i :: 0 <= i < |buf| ==> buf[i] == 0xff
    ensures Folded(Wrapped(Sum(Words(o, buf)))) != Checksum(o, buf)
  {
    SumOfOnes(o, buf);
    AnswerIsChecksum(o, buf);
  }

  lemma {:induction false} SumOfOnes(o: ByteOrder, buf: seq<byte>)
    requires forall i :: 0 <= i < |buf| ==> buf[i] == 0xff
    ensures Sum(Words(o, buf)) >= 0xffff * (|buf| / 2) + 0xff * (|buf| % 2)
  {
    if |buf| >= 2 {
      SumOfOnes(o, buf[2..]);
    }
  }

  /** An odd buffer has the checksum of the same buffer padded with one zero byte. */
  lemma {:induction false} OddLengthIsZeroPadded(o: ByteOrder, buf: seq<byte>)
    requires |buf| % 2 == 1
    ensures Words(o, buf) == Words(o, buf + [0])
    ensures Checksum(o, buf) == Checksum(o, buf + [0])
  {
    if |buf| == 1 {
      assert (buf + [0])[2..] == [];
    } else {
      OddLengthIsZeroPadded(o, buf[2..]);
      assert (buf + [0])[2..] == buf[2..] + [0];
    }
  }

  // ----- Byte order (RFC 1071, section 2(B)) -----

  /** Swapping the bytes of a word multiplies it by 256 modulo 65535. */
  lemma {:induction false} SwapScales(w: word)
    ensures 0x100 * (w as int) == Swap(w) + 0xffff * (w / 0x100)
    ensures Swap(w) == 0 <==> w == 0
    ensures Swap(0xffff - w) == 0xffff - Swap(w)
  {
  }

  lemma {:induction false} SwappedSum(ws: seq<word>, vs: seq<word>) returns (k: nat)
    requires |vs| == |ws| && forall i :: 0 <= i < |ws| ==> vs[i] == Swap(ws[i])
    ensures 0x100 * Sum(ws) == Sum(vs) + 0xffff * k
    ensures Sum(ws) == 0 <==> Sum(vs) == 0
  {
    if ws == [] {
      k := 0;
    } else {
      var j := SwappedSum(ws[1..], vs[1..]);
      SwapScales(ws[0]);
      k := j + ws[0] / 0x100;
    }
  }

  lemma {:induction false} ResidueOfSwap(s: nat, t: nat, k: nat)
    requires 0x100 * s == t + 0xffff * k
    requires s == 0 <==> t == 0
    ensures Residue(t) == Swap(Residue(s))
  {
    if s > 0 {
      var r := Residue(s);
      var a := ResidueQuotient(s);
      SwapScales(r);
      var d := 0x100 * a + r / 0x100;
      assert t + 0xffff * k == Swap(r) + 0xffff * d;
      ResidueShift(t, k);
      ResidueShift(Swap(r), d);
    }
  }

  /** Swapping the bytes of every word swaps the bytes of the checksum. */
  lemma {:induction false} SwappedChecksum(ws: seq<word>, vs: seq<word>)
    requires |vs| == |ws| && forall i :: 0 <= i < |ws| ==> vs[i] == Swap(ws[i])
    ensures 0xffff - OnesSum(vs) == Swap(0xffff - OnesSum(ws))
  {
    var k := SwappedSum(ws, vs);
    ResidueOfSwap(Sum(ws), Sum(vs), k);
    OnesSumIsResidue(ws);
    OnesSumIsResidue(vs);
    SwapScales(OnesSum(ws));
  }

  lemma {:induction false} WordsSwap(buf: seq<byte>)
    ensures |Words(LittleEndian, buf)| == |Words(BigEndian, buf)|
    ensures forall i :: 0 <= i < |Words(BigEndian, buf)| ==>
      Words(LittleEndian, buf)[i] == Swap(Words(BigEndian, buf)[i])
  {
    if |buf| >= 2 {
      WordsSwap(buf[2..]);
    }
  }

  lemma {:induction false} StoredSwap(w: word)
    ensures Stored(LittleEndian, Swap(w)) == Stored(BigEndian, w)
  {
  }

  /** Both kinds of host leave the same two bytes in memory. */
  lemma {:induction false} ByteOrderIndependent(buf: seq<byte>)
    ensures Stored(LittleEndian, Checksum(LittleEndian, buf)) == Stored(BigEndian, Checksum(BigEndian, buf))
  {
    WordsSwap(buf);
    SwappedChecksum(Words(BigEndian, buf), Words(LittleEndian, buf));
    StoredSwap(Checksum(BigEndian, buf));
  }

  // ----- Storing and verifying -----

  /** `buf` with the word that starts at the even offset `k` replaced. */
  function Patched(o: ByteOrder, buf: seq<byte>, k: nat, w: word): (r: seq<byte>)
    requires k + 2 <= |buf|
    ensures |r| == |buf|
  {
    buf[..k] + Stored(o, w) + buf[k + 2..]
  }

  lemma {:induction false} SumOfPatched(o: ByteOrder, buf: seq<byte>, k: nat, w: word)
    requires k % 2 == 0 && k + 2 <= |buf|
    ensures Sum(Words(o, Patched(o, buf, k, w))) == Sum(Words(o, buf)) - Word(o, buf[k], buf[k + 1]) + w
  {
    var p := Patched(o, buf, k, w);
    if k == 0 {
      assert p[2..] == buf[2..];
    } else {
      assert p[2..] == Patched(o, buf[2..], k - 2, w);
      SumOfPatched(o, buf[2..], k - 2, w);
    }
  }

  lemma {:induction false} ResidueWithChecksum(s: nat)
    ensures Residue(s + (0xffff - Residue(s))) == 0xffff
    ensures Residue(s) == 0xffff ==> Residue(s + 0xffff) == 0xffff
  {
    if s > 0 {
      var q := ResidueQuotient(s);
      assert s + (0xffff - Residue(s)) == 0xffff * q + 0xffff;
      ResidueShift(0xffff, q);
      if Residue(s) == 0xffff {
        assert s + 0xffff == 0xffff * (q + 1) + 0xffff;
        ResidueShift(0xffff, q + 1);
      }
    }
  }

  /** Storing the checksum in a zeroed aligned word makes the whole buffer check as 0;
      so does 0xffff where the checksum itself came out as 0. */
  lemma {:induction false} StoredChecksumVerifies(o: ByteOrder, buf: seq<byte>, k: nat, c: word)
    requires k % 2 == 0 && k + 2 <= |buf| && buf[k] == buf[k + 1] == 0
    requires c == Checksum(o, buf) || (Checksum(o, buf) == 0 && c == 0xffff)
    ensures Checksum(o, Patched(o, buf, k, c)) == 0
  {
    OnesSumIsResidue(Words(o, buf));
    SumOfPatched(o, buf, k, c);
    OnesSumIsResidue(Words(o, Patched(o, buf, k, c)));
    ResidueWithChecksum(Sum(Words(o, buf)));
  }

  /** With a sum that has wrapped, a receiver does not find 0. */
  lemma {:induction false} WrappedSumFails(o: ByteOrder, buf: seq<byte>, k: nat, c: word)
    requires k % 2 == 0 && k + 2 <= |buf| <= 0x7fff_ffff && buf[k] == buf[k + 1] == 0
    requires Sum(Words(o, buf)) >= WORD32
    requires var f := Folded(Wrapped(Sum(Words(o, buf)))); c == f || (f == 0 && c == 0xffff)
    ensures Checksum(o, Patched(o, buf, k, c)) != 0
  {
    hide Words, Sum, Folded, Wrapped;
    var s := Sum(Words(o, buf));
    WordCount(o, buf);
    FoldedIsComplementOfResidue(Wrapped(s));
    SumOfPatched(o, buf, k, c);
    OnesSumIsResidue(Words(o, Patched(o, buf, k, c)));
    var q := WrappedQuotient(s);
    ResidueOfWrapped(Wrapped(s), q, c);
  }

  /** The wraps that were lost are what is left over. */
  lemma {:induction false} ResidueOfWrapped(r: nat, q: nat, c: word)
    requires 0 < q < 0xffff && (c == 0xffff - Residue(r) || (Residue(r) == 0xffff && c == 0xffff))
    ensures Residue(WORD32 * q + r + c) == q
  {
    var a := 0;
    if r > 0 {
      a := ResidueQuotient(r);
    }
    var b := if c == 0xffff - Residue(r) then 1 else 2;
    assert WORD32 * q + r + c == 0xffff * (0x1_0001 * q + a + b) + q;
    ResidueShift(q, 0x1_0001 * q + a + b);
  }

  lemma {:induction false} ResidueSeparates(r: nat, a: word, b: word)
    requires a < b
    ensures Residue(r + a) == Residue(r + b) <==> (a == 0 && b == 0xffff && r > 0)
  {
    if r + a > 0 {
      var q := ResidueQuotient(r + a);
      var x := Residue(r + a) + (b - a);
      assert r + b == 0xffff * q + x;
      ResidueShift(x, q);
    }
  }

  /** The two words a checksum cannot tell apart. */
  predicate TwoZeros(v: word, w: word) {
    (v == 0 && w == 0xffff) || (v == 0xffff && w == 0)
  }

  lemma {:induction false} ResidueAfterChange(s: nat, v: word, w: word)
    requires v <= s
    ensures Residue(s - v + w) == Residue(s) <==> (v == w || (TwoZeros(v, w) && s > v))
  {
    if v < w {
      ResidueSeparates(s - v, v, w);
    } else if w < v {
      ResidueSeparates(s - v, w, v);
    }
  }

  /** Replacing one aligned word goes unnoticed only between 0 and 0xffff, and then only when
      some other word is non-zero. */
  lemma {:induction false} OneWordErrorDetected(o: ByteOrder, buf: seq<byte>, k: nat, w: word)
    requires k % 2 == 0 && k + 2 <= |buf|
    ensures var v := Word(o, buf[k], buf[k + 1]);
      Checksum(o, Patched(o, buf, k, w)) == Checksum(o, buf) <==>
        (v == w || (TwoZeros(v, w) && Sum(Words(o, buf)) > v))
  {
    hide Words, Sum, Residue, OnesSum, Patched;
    SumOfPatched(o, buf, k, 0);
    SumOfPatched(o, buf, k, w);
    OnesSumIsResidue(Words(o, buf));
    OnesSumIsResidue(Words(o, Patched(o, buf, k, w)));
    ResidueAfterChange(Sum(Words(o, buf)), Word(o, buf[k], buf[k + 1]), w);
  }

  // ----- The UDP datagram of udp_write -----

  const UDPIPHDR: nat := 28
  const SUM_OFFSET: nat := 26
  const IPPROTO_UDP: byte := 17
  const TTL_OUT: byte := 64

  /** The bytes a receiver checks: its IP header reduced to the pseudo-header (only protocol,
      UDP length and the two addresses are kept), then the UDP header and data. */
  function PseudoDatagram(d: seq<byte>): seq<byte>
    requires |d| >= UDPIPHDR
  {
    [0, 0, 0, 0, 0, 0, 0, 0, 0, d[9]] + d[24..26] + d[12..]
  }

  /** Addresses and ports of the two ends, in network byte order. */
  datatype Ends = Ends(src: seq<byte>, dst: seq<byte>, sport: seq<byte>, dport: seq<byte>) {
    predicate Valid() {
      |src| == |dst| == 4 && |sport| == |dport| == 2
    }
  }

  /** The 28 bytes summed: overlay of the IP header with the pseudo-header, then the UDP header. */
  function OverlaidHeader(e: Ends, ulen: seq<byte>): (h: seq<byte>)
    requires e.Valid() && |ulen| == 2
    ensures |h| == UDPIPHDR
  {
    [0, 0, 0, 0, 0, 0, 0, 0, 0] + [IPPROTO_UDP] + ulen + e.src + e.dst + e.sport + e.dport + ulen + [0, 0]
  }

  /** A copy of the bytes `bs` to offset `k`. */
  method Put(buf: array<byte>, k: nat, bs: seq<byte>)
    requires k + |bs| <= buf.Length
    modifies buf
    ensures forall i :: 0 <= i < |bs| ==> buf[k + i] == bs[i]
    ensures forall i :: 0 <= i < k || k + |bs| <= i < buf.Length ==> buf[i] == old(buf[i])
  {
    var i := 0;
    while i < |bs|
      invariant 0 <= i <= |bs|
      invariant forall j :: 0 <= j < i ==> buf[k + j] == bs[j]
      invariant forall j :: 0 <= j < k || k + |bs| <= j < buf.Length ==> buf[j] == old(buf[j])
    {
      buf[k + i] := bs[i];
      i := i + 1;
    }
  }

  method FillUdpHeader(buf: array<byte>, e: Ends, ulen: seq<byte>)
    requires buf.Length >= UDPIPHDR && e.Valid() && |ulen| == 2
    modifies buf
    ensures buf[..UDPIPHDR] == OverlaidHeader(e, ulen)
    ensures buf[UDPIPHDR..] == old(buf[UDPIPHDR..])
  {
    hide OverlaidHeader;
    HeaderParts(e, ulen);
    ghost var h := OverlaidHeader(e, ulen);
    FillPseudo(buf, ulen);
    ghost var first := buf[..12];
    FillEnds(buf, e);
    ghost var ends := buf[12..24];
    assert buf[..12] == first;
    Put(buf, 24, ulen);
    Put(buf, 26, [0, 0]);
    assert buf[..12] == first && buf[12..24] == ends && buf[24..26] == ulen && buf[26..28] == [0, 0];
    assert buf[..UDPIPHDR] == buf[..12] + buf[12..24] + buf[24..26] + buf[26..28];
  }

  lemma {:induction false} HeaderParts(e: Ends, ulen: seq<byte>)
    requires e.Valid() && |ulen| == 2
    ensures OverlaidHeader(e, ulen) == PseudoStart(ulen) + (e.src + e.dst + e.sport + e.dport) + ulen + [0, 0]
  {
  }

  /** The part of the pseudo-header before the addresses. */
  function PseudoStart(ulen: seq<byte>): (p: seq<byte>)
    requires |ulen| == 2
    ensures |p| == 12
  {
    [0, 0, 0, 0, 0, 0, 0, 0, 0] + [IPPROTO_UDP] + ulen
  }

  method FillPseudo(buf: array<byte>, ulen: seq<byte>)
    requires buf.Length >= UDPIPHDR && |ulen| == 2
    modifies buf
    ensures buf[..12] == PseudoStart(ulen)
    ensures forall i :: 12 <= i < buf.Length ==> buf[i] == old(buf[i])
  {
    Put(buf, 0, [0, 0, 0, 0, 0, 0, 0, 0, 0]);
    Put(buf, 9, [IPPROTO_UDP]);
    Put(buf, 10, ulen);
    assert buf[..9] == [0, 0, 0, 0, 0, 0, 0, 0, 0] && buf[9..10] == [IPPROTO_UDP] && buf[10..12] == ulen;
    assert buf[..12] == buf[..9] + buf[9..10] + buf[10..12];
  }

  method FillEnds(buf: array<byte>, e: Ends)
    requires buf.Length >= UDPIPHDR && e.Valid()
    modifies buf
    ensures buf[12..24] == e.src + e.dst + e.sport + e.dport
    ensures buf[..12] == old(buf[..12])
    ensures forall i :: 24 <= i < buf.Length ==> buf[i] == old(buf[i])
  {
    Put(buf, 12, e.src);
    Put(buf, 16, e.dst);
    Put(buf, 20, e.sport);
    Put(buf, 22, e.dport);
  }

  /** The checksum word of `udp_write`: a computed 0 is sent as 0xffff, since a 0 would say
      that no checksum was computed. The whole then checks to 0 exactly when the sum did not wrap. */
  method StoreUdpSum(o: ByteOrder, buf: array<byte>)
    requires UDPIPHDR <= buf.Length <= 0x7fff_ffff
    requires buf[SUM_OFFSET] == buf[SUM_OFFSET + 1] == 0
    modifies buf
    ensures Word(o, buf[SUM_OFFSET], buf[SUM_OFFSET + 1]) != 0
    ensures buf[..SUM_OFFSET] == old(buf[..SUM_OFFSET]) && buf[UDPIPHDR..] == old(buf[UDPIPHDR..])
    ensures Checksum(o, buf[..]) == 0 <==> Sum(Words(o, old(buf[..]))) < WORD32
  {
    hide Words, Sum, Folded, Wrapped, Checksum;
    ghost var summed := buf[..];
    var sum := InCksum(o, buf[..], buf.Length);
    assert Covered(summed, buf.Length) == summed;
    if sum == 0 {
      sum := 0xffff;
    }
    if Sum(Words(o, summed)) < WORD32 {
      StoredChecksumVerifies(o, summed, SUM_OFFSET, sum);
    } else {
      WrappedSumFails(o, summed, SUM_OFFSET, sum);
    }
    var bs := Stored(o, sum);
    buf[SUM_OFFSET], buf[SUM_OFFSET + 1] := bs[0], bs[1];
    assert buf[..] == Patched(o, summed, SUM_OFFSET, sum);
  }

  /** The rest of the IP header, written over the zeroed part of the pseudo-header. Some
      kernels want the total length in host byte order. */
  method FillIpHeader(o: ByteOrder, buf: array<byte>)
    requires buf.Length >= UDPIPHDR
    modifies buf
    ensures buf[..9] == [0x45, 0] + Stored(o, buf.Length % 0x1_0000) + [0, 0, 0, 0, TTL_OUT]
    ensures buf[9..] == old(buf[9..])
  {
    var len := Stored(o, buf.Length % 0x1_0000);
    buf[0] := 0x45;
    buf[1] := 0;
    buf[2], buf[3] := len[0], len[1];
    buf[4], buf[5], buf[6], buf[7] := 0, 0, 0, 0;
    buf[8] := TTL_OUT;
  }

  /** `udp_write` up to the `Sendto`: `buf` is 28 bytes of room followed by the user data.
      Whatever the room held, the datagram carries the data unchanged and the two ends, and a
      receiver that rebuilds the pseudo-header finds checksum 0 in a field that is not 0, as long as the
      32-bit sum does not wrap, which up to 131074 bytes it never does. */
  method UdpWrite(o: ByteOrder, lengthOrder: ByteOrder, buf: array<byte>, zerosum: bool, e: Ends)
    requires UDPIPHDR <= buf.Length <= 0x7fff_ffff && e.Valid()
    modifies buf
    ensures buf[UDPIPHDR..] == old(buf[UDPIPHDR..])
    ensures buf[9] == IPPROTO_UDP && buf[12..24] == e.src + e.dst + e.sport + e.dport
    ensures buf[24..26] == Stored(BigEndian, (buf.Length - 20) % 0x1_0000)
    ensures var (hi: int, lo: int) := (buf[24], buf[25]); 0x100 * hi + lo == (buf.Length - 20) % 0x1_0000
    ensures buf[..9] == [0x45, 0] + Stored(lengthOrder, buf.Length % 0x1_0000) + [0, 0, 0, 0, TTL_OUT]
    ensures zerosum ==> buf[26] == buf[27] == 0
    ensures !zerosum ==> Word(o, buf[26], buf[27]) != 0
    ensures !zerosum ==> (Checksum(o, PseudoDatagram(buf[..])) == 0 <==>
                          Sum(Words(o, Patched(o, PseudoDatagram(buf[..]), SUM_OFFSET, 0))) < WORD32)
    ensures !zerosum && buf.Length <= 131074 ==> Checksum(o, PseudoDatagram(buf[..])) == 0
  {
    hide Words, Sum, Checksum, PseudoDatagram, OverlaidHeader;
    var ulen := Stored(BigEndian, (buf.Length - 20) % 0x1_0000);
    ghost var data := buf[UDPIPHDR..];
    FillUdpHeader(buf, e, ulen);
    ghost var filled := buf[..];
    HeaderSlices(e, ulen);
    assert filled[..UDPIPHDR] == OverlaidHeader(e, ulen) && filled[UDPIPHDR..] == data;
    assert filled[..SUM_OFFSET] == OverlaidHeader(e, ulen)[..SUM_OFFSET];
    assert filled[26..28] == [0, 0];
    if !zerosum {
      SumFitsShort(o, filled);
      StoreUdpSum(o, buf);
    }
    ghost var summed := buf[..];
    assert summed[..SUM_OFFSET] == OverlaidHeader(e, ulen)[..SUM_OFFSET] && summed[UDPIPHDR..] == data;
    Unpatched(o, filled, summed);
    NetworkOrder((buf.Length - 20) % 0x1_0000);
    FillIpHeader(lengthOrder, buf);
    RebuiltByReceiver(e, ulen, summed, buf[..]);
  }

  lemma {:induction false} NetworkOrder(w: word)
    ensures Stored(BigEndian, w) == [w / 0x100, w % 0x100] && 0x100 * (w / 0x100) + w % 0x100 == w
  {
  }

  lemma {:induction false} SumFitsShort(o: ByteOrder, buf: seq<byte>)
    ensures |buf| <= 131074 ==> Sum(Words(o, buf)) < WORD32
  {
    if |buf| <= 131074 {
      SumFits(o, buf);
    }
  }

  lemma {:induction false} Unpatched(o: ByteOrder, filled: seq<byte>, summed: seq<byte>)
    requires |filled| == |summed| >= UDPIPHDR && filled[26..28] == [0, 0]
    requires filled[..SUM_OFFSET] == summed[..SUM_OFFSET] && filled[UDPIPHDR..] == summed[UDPIPHDR..]
    ensures Patched(o, summed, SUM_OFFSET, 0) == filled
  {
    assert Stored(o, 0) == [0, 0];
    assert filled == filled[..26] + filled[26..28] + filled[28..];
  }

  lemma {:induction false} RebuiltByReceiver(e: Ends, ulen: seq<byte>, summed: seq<byte>, sent: seq<byte>)
    requires e.Valid() && |ulen| == 2 && |summed| == |sent| >= UDPIPHDR
    requires summed[..SUM_OFFSET] == OverlaidHeader(e, ulen)[..SUM_OFFSET]
    requires sent[9..] == summed[9..]
    ensures PseudoDatagram(sent) == summed
    ensures sent[9] == IPPROTO_UDP && sent[12..24] == e.src + e.dst + e.sport + e.dport
    ensures sent[24..26] == ulen
    ensures forall i :: 26 <= i < |sent| ==> sent[i] == summed[i]
  {
    hide OverlaidHeader;
    assert forall i :: 9 <= i < |sent| ==> sent[i] == sent[9..][i - 9] == summed[i];
    var h := OverlaidHeader(e, ulen);
    HeaderSlices(e, ulen);
    assert forall i :: 0 <= i < SUM_OFFSET ==> summed[i] == summed[..SUM_OFFSET][i] == h[i];
    assert sent[24..26] == h[24..26] && sent[12..24] == h[12..24];
    assert summed[..10] == h[..10] && summed[10..12] == h[10..12];
  }

  lemma {:induction false} HeaderSlices(e: Ends, ulen: seq<byte>)
    requires e.Valid() && |ulen| == 2
    ensures var h := OverlaidHeader(e, ulen);
      && h[..10] == [0, 0, 0, 0, 0, 0, 0, 0, 0] + [IPPROTO_UDP] && h[10..12] == ulen
      && h[12..24] == e.src + e.dst + e.sport + e.dport && h[24..26] == ulen && h[26..28] == [0, 0]
  {
  }
}
