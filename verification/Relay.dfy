/** The non-blocking `str_cli` of nonblock/strclinonb.c: two buffers between standard input, the
    socket and standard output, one `select` loop, half-close. The kernel reads and writes as much or as
    little as it likes. */
module Relay {
  import opened Common

  const MAXLINE: nat := 4096

  datatype ReadResult = Got(bytes: seq<byte>) | ReadBlock | Eof | ReadError
  datatype WriteResult = Wrote(n: nat) | WriteBlock | WriteError

  /** One of the two buffers with its two pointers, and all that has gone in and come out. */
  class Buffer {
    const buf: array<byte>
    var iptr: nat
    var optr: nat
    ghost var read: seq<byte>
    ghost var written: seq<byte>

    ghost predicate Valid()
      reads this, buf
    {
      && buf.Length == MAXLINE && optr <= iptr <= MAXLINE
      && (optr == iptr ==> iptr == 0)
      && read == written + buf[optr..iptr]
    }

    constructor ()
      ensures Valid() && Empty() && read == written == [] && fresh(buf)
    {
      buf := new byte[MAXLINE](_ => 0);
      iptr, optr, read, written := 0, 0, [], [];
    }

    predicate Empty()
      reads this
    {
      optr == iptr
    }

    predicate Full()
      reads this
    {
      iptr == MAXLINE
    }

    /** The bytes a read has put after `iptr`, and the pointer moved past them. */
    method Fill(bytes: seq<byte>)
      requires Valid() && 1 <= |bytes| <= MAXLINE - iptr
      modifies this, buf
      ensures Valid() && !Empty()
      ensures read == old(read) + bytes && written == old(written)
    {
      ghost var held := buf[optr..iptr];
      var i := 0;
      while i < |bytes|
        invariant 0 <= i <= |bytes|
        invariant optr == old(optr) && iptr == old(iptr) && read == old(read) && written == old(written)
        invariant buf[optr..iptr + i] == held + bytes[..i]
      {
        buf[iptr + i] := bytes[i];
        i := i + 1;
      }
      assert bytes[..i] == bytes;
      iptr := iptr + |bytes|;
      read := read + bytes;
      assert written + held + bytes == written + (held + bytes);
    }

    /** The first `n` bytes gone; an emptied buffer starts again at its beginning. */
    method Drain(n: nat)
      requires Valid() && n <= iptr - optr
      modifies this
      ensures Valid() && read == old(read) && written == old(written) + old(buf[optr..optr + n])
      ensures Empty() <==> n == old(iptr - optr)
    {
      assert buf[optr..iptr] == buf[optr..optr + n] + buf[optr + n..iptr];
      written := written + buf[optr..optr + n];
      optr := optr + n;
      if optr == iptr {
        optr, iptr := 0, 0;
      }
    }
  }

  datatype Outcome = Running | Returned | Quit

  /** The bytes a read has given. */
  function BytesOf(r: Option<ReadResult>): seq<byte> {
    if r.Some? && r.value.Got? then r.value.bytes else []
  }

  /** How many bytes a write has taken. */
  function CountOf(r: Option<WriteResult>): nat {
    if r.Some? && r.value.Wrote? then r.value.n else 0
  }

  class Client {
    const to: Buffer   // standard input to the socket
    const fr: Buffer   // the socket to standard output
    var stdineof: bool
    ghost var fins: nat

    /** Besides the buffers: the FIN has been sent exactly when standard input is at its end and all of it has
        been written to the socket. */
    ghost predicate Valid()
      reads this, to, fr, to.buf, fr.buf
    {
      && to != fr && to.buf != fr.buf && to.Valid() && fr.Valid()
      && fins == (if stdineof && to.Empty() then 1 else 0)
    }

    constructor ()
      ensures Valid() && !stdineof && fins == 0 && fresh(to) && fresh(fr) && fresh(to.buf) && fresh(fr.buf)
    {
      to := new Buffer();
      fr := new Buffer();
      stdineof, fins := false, 0;
    }

    /** Lines 30-37: what `select` is asked about. */
    predicate AsksStdin()
      reads this, to
    {
      !stdineof && !to.Full()
    }

    predicate AsksSocketRead()
      reads this, fr
    {
      !fr.Full()
    }

    /** `select` never waits on empty sets; standard input is asked for until its end, and each source as long as
        there is room. */
    lemma {:induction false} AsksSomething()
      requires Valid()
      ensures AsksStdin() <==> !stdineof && to.iptr < 4096
      ensures AsksSocketRead() <==> fr.iptr < 4096
      ensures AsksStdin() || AsksSocketRead() || !to.Empty() || !fr.Empty()
    {
    }

    /** What a read of at most `count` bytes may give. A read of 0 bytes would give 0, which the caller
        takes for end of file: it is not allowed to ask. */
    method Read(count: nat) returns (r: ReadResult)
      requires count > 0
      ensures r.Got? ==> 1 <= |r.bytes| <= count
    {
      r := *;
      if r.Got? && !(1 <= |r.bytes| <= count) {
        r := ReadBlock;
      }
    }

    method Write(count: nat) returns (r: WriteResult)
      ensures r.Wrote? ==> r.n <= count
    {
      r := *;
      if r.Wrote? && r.n > count {
        r := WriteBlock;
      }
    }

    /** Lines 42-62, `r` being what the read gave; `more` when there is something new to write. */
    method FromStdin(r: ReadResult) returns (outcome: Outcome, more: bool)
      requires Valid() && AsksStdin() && (r.Got? ==> 1 <= |r.bytes| <= MAXLINE - to.iptr)
      modifies this, to, to.buf
      ensures Valid() && to.written == old(to.written)
      ensures to.read == old(to.read) + if r.Got? then r.bytes else []
      ensures stdineof == r.Eof? && more == r.Got? && outcome == if r.ReadError? then Quit else Running
    {
      outcome, more := Running, false;
      match r
      case ReadError => outcome := Quit;
      case ReadBlock =>
      case Eof =>
        stdineof := true;
        if to.Empty() {
          fins := fins + 1;
        }
      case Got(bytes) =>
        to.Fill(bytes);
        more := true;
    }

    /** Lines 64-86: at the end of the socket the function returns at once, whatever the buffers hold. */
    method FromSocket(r: ReadResult) returns (outcome: Outcome, more: bool)
      requires Valid() && AsksSocketRead() && (r.Got? ==> 1 <= |r.bytes| <= MAXLINE - fr.iptr)
      modifies fr, fr.buf
      ensures Valid() && fr.written == old(fr.written)
      ensures fr.read == old(fr.read) + if r.Got? then r.bytes else []
      ensures more == r.Got?
      ensures outcome == match r
        case ReadError => Quit
        case Eof => (if stdineof then Returned else Quit)
        case _ => Running
    {
      outcome, more := Running, false;
      match r
      case ReadError => outcome := Quit;
      case ReadBlock =>
      case Eof => outcome := if stdineof then Returned else Quit;
      case Got(bytes) =>
        fr.Fill(bytes);
        more := true;
    }

    /** Lines 90-102, `r` being what the write gave. */
    method ToStdout(r: WriteResult) returns (outcome: Outcome)
      requires Valid() && !fr.Empty() && (r.Wrote? ==> r.n <= fr.iptr - fr.optr)
      modifies fr
      ensures Valid() && fr.read == old(fr.read)
      ensures fr.written == old(fr.written) + if r.Wrote? then old(fr.buf[fr.optr..fr.optr + r.n]) else []
      ensures outcome == if r.WriteError? then Quit else Running
    {
      outcome := Running;
      match r
      case WriteError => outcome := Quit;
      case WriteBlock =>
      case Wrote(n) => fr.Drain(n);
    }

    /** Lines 106-121: only before the FIN is there anything to write, and the FIN goes out when the last byte
        of standard input has. */
    method ToSocket(r: WriteResult) returns (outcome: Outcome)
      requires Valid() && !to.Empty() && (r.Wrote? ==> r.n <= to.iptr - to.optr)
      modifies this, to
      ensures Valid() && to.read == old(to.read) && stdineof == old(stdineof) && old(fins) == 0
      ensures to.written == old(to.written) + if r.Wrote? then old(to.buf[to.optr..to.optr + r.n]) else []
      ensures outcome == if r.WriteError? then Quit else Running
    {
      outcome := Running;
      match r
      case WriteError => outcome := Quit;
      case WriteBlock =>
      case Wrote(n) =>
        to.Drain(n);
        if to.Empty() {
          if stdineof {
            fins := fins + 1;
          }
        }
    }

    /** Histories only grow, and after the FIN the one of the socket does not. */
    twostate predicate Extends()
      reads this, to, fr
    {
      && old(to.read) <= to.read && old(to.written) <= to.written
      && old(fr.read) <= fr.read && old(fr.written) <= fr.written
      && old(fins) <= fins && (old(stdineof) ==> stdineof && to.read == old(to.read))
      && (old(fins) == 1 ==> to.written == old(to.written))
    }

    /** Lines 42-86: the reads, and what they add to what is to be written. `a` and `b` are what standard input and
        the socket gave, if they were asked: standard input when it is ready, the socket when it is, unless
        standard input failed. */
    method ReadPhase(stdin: bool, socketRead: bool)
      returns (outcome: Outcome, toSocket: bool, toStdout: bool, a: Option<ReadResult>, b: Option<ReadResult>)
      requires Valid() && (stdin ==> AsksStdin()) && (socketRead ==> AsksSocketRead())
      modifies this, to, fr, to.buf, fr.buf
      ensures Valid() && Extends() && (outcome == Returned ==> stdineof)
      ensures to.written == old(to.written) && fr.written == old(fr.written)
      ensures (a.Some? <==> stdin) && (b.Some? <==> socketRead && a != Some(ReadError))
      ensures to.read == old(to.read) + BytesOf(a) && fr.read == old(fr.read) + BytesOf(b)
      ensures toSocket == (BytesOf(a) != []) && toStdout == (BytesOf(b) != [])
      ensures stdineof == (old(stdineof) || a == Some(Eof))
      ensures outcome == if a == Some(ReadError) || b == Some(ReadError) then Quit
                         else if b == Some(Eof) then (if stdineof then Returned else Quit)
                         else Running
    {
      outcome, toSocket, toStdout, a, b := Running, false, false, None, None;
      if stdin {
        var r := Read(MAXLINE - to.iptr);
        a := Some(r);
        outcome, toSocket := FromStdin(r);
        if outcome != Running {
          return;
        }
      }
      if socketRead {
        var r := Read(MAXLINE - fr.iptr);
        b := Some(r);
        outcome, toStdout := FromSocket(r);
      }
    }

    /** Lines 89-122: the writes. `c` and `d` are what standard output and the socket took, if they were written to:
        each is when it is wanted and there is something to write, the socket unless standard output failed. */
    method WritePhase(toSocket: bool, toStdout: bool)
      returns (outcome: Outcome, c: Option<WriteResult>, d: Option<WriteResult>)
      requires Valid()
      modifies this, to, fr
      ensures Valid() && Extends() && outcome != Returned
      ensures to.read == old(to.read) && fr.read == old(fr.read) && stdineof == old(stdineof)
      ensures c.Some? <==> toStdout && old(fr.written != fr.read)
      ensures d.Some? <==> toSocket && old(to.written != to.read) && c != Some(WriteError)
      ensures |fr.written| == |old(fr.written)| + CountOf(c) && |to.written| == |old(to.written)| + CountOf(d)
      ensures outcome == if c == Some(WriteError) || d == Some(WriteError) then Quit else Running
    {
      outcome, c, d := Running, None, None;
      if toStdout && fr.iptr - fr.optr > 0 {
        var r := Write(fr.iptr - fr.optr);
        c := Some(r);
        outcome := ToStdout(r);
        if outcome != Running {
          return;
        }
      }
      if toSocket && to.iptr - to.optr > 0 {
        var r := Write(to.iptr - to.optr);
        d := Some(r);
        outcome := ToSocket(r);
      }
    }

    /** Lines 42-122, one turn of the loop: the arguments are what `select` found ready. What has just been read is
        tried at once, whether or not its target was found ready. */
    method Turn(stdin: bool, socketRead: bool, socketWrite: bool, stdout: bool)
      returns (outcome: Outcome, a: Option<ReadResult>, b: Option<ReadResult>, c: Option<WriteResult>,
               d: Option<WriteResult>)
      requires Valid() && (stdin ==> AsksStdin()) && (socketRead ==> AsksSocketRead())
      modifies this, to, fr, to.buf, fr.buf
      ensures Valid() && Extends() && (outcome == Returned ==> stdineof)
      ensures (a.Some? <==> stdin) && (b.Some? <==> socketRead && a != Some(ReadError))
      ensures to.read == old(to.read) + BytesOf(a) && fr.read == old(fr.read) + BytesOf(b)
      ensures stdineof == (old(stdineof) || a == Some(Eof))
      ensures var on := a != Some(ReadError) && b != Some(ReadError) && b != Some(Eof);
        && (c.Some? <==> on && (stdout || BytesOf(b) != []) && old(fr.written) != fr.read)
        && (d.Some? <==> on && (socketWrite || BytesOf(a) != []) && old(to.written) != to.read && c != Some(WriteError))
      ensures |fr.written| == |old(fr.written)| + CountOf(c) && |to.written| == |old(to.written)| + CountOf(d)
    {
      var toSocket, toStdout;
      c, d := None, None;
      outcome, toSocket, toStdout, a, b := ReadPhase(stdin, socketRead);
      if outcome == Running {
        outcome, c, d := WritePhase(socketWrite || toSocket, stdout || toStdout);
      }
    }

    /** `str_cli` for any number of turns, whatever `select` and the kernel do. */
    method StrCli(turns: nat) returns (outcome: Outcome)
      requires Valid()
      modifies this, to, fr, to.buf, fr.buf
      ensures Valid() && Extends()
      ensures to.written <= to.read && fr.written <= fr.read && fins <= 1
      ensures fins == 1 ==> stdineof && to.written == to.read
      ensures outcome == Returned ==> stdineof
    {
      var k := 0;
      outcome := Running;
      while k < turns && outcome == Running
        invariant Valid() && Extends() && (outcome == Returned ==> stdineof)
      {
        AsksSomething();
        var stdin, socketRead, socketWrite, stdout: bool := *, *, *, *;
        var a, b, c, d;
        outcome, a, b, c, d := Turn(stdin && AsksStdin(), socketRead && AsksSocketRead(),
                                    socketWrite && !to.Empty(), stdout && !fr.Empty());
        k := k + 1;
      }
    }
  }
}
