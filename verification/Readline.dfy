/** Reading a line at a time: `lib/readline.c` keeps a buffer between calls, `test/readline1.c`
    asks the kernel for one byte at a time. Both are proved against one specification, over a
    descriptor whose reads may be cut anywhere and interrupted anywhere. */
module Readline {
  import opened Common

  const NEWLINE: byte := 10
  const MAXLINE: nat := 4096

  // ----- The descriptor -----

  /** What a descriptor has yet to deliver. After the last item it is at end of file for good;
      an `Eof` before that is one that a later read goes past, as on a terminal. */
  datatype Item = Data(b: byte) | Eof | Interrupt | Failure

  datatype Errno = NoError | Intr | Other

  function DataRun(items: seq<Item>): (k: nat)
    ensures k <= |items| && forall i :: 0 <= i < k ==> items[i].Data?
    ensures items != [] && items[0].Data? ==> k >= 1
  {
    if items == [] || !items[0].Data? then 0 else 1 + DataRun(items[1..])
  }

  function AsItems(bs: seq<byte>): (r: seq<Item>)
    ensures |r| == |bs| && forall i :: 0 <= i < |bs| ==> r[i] == Data(bs[i])
  {
    seq(|bs|, i requires 0 <= i < |bs| => Data(bs[i]))
  }

  class Descriptor {
    var items: seq<Item>
    ghost var transferred: seq<byte>  // every byte any read has taken

    constructor (items: seq<Item>)
      ensures this.items == items && transferred == []
    {
      this.items := items;
      transferred := [];
    }

    /** `read`: a chunk of any size from 1 to `count`, or whatever else comes first. */
    method Read(buf: array<byte>, count: nat) returns (rc: int, errno: Errno)
      requires 1 <= count <= buf.Length
      modifies this, buf
      ensures -1 <= rc <= count && rc <= |old(items)|
      ensures rc > 0 ==> old(items) == AsItems(buf[..rc]) + items
      ensures rc == 0 ==> items == (if old(items) == [] then [] else old(items)[1..])
      ensures rc == 0 ==> old(items) == [] || old(items)[0] == Eof
      ensures rc < 0 ==> old(items) != [] && items == old(items)[1..]
      ensures rc < 0 ==> old(items)[0] == (if errno == Intr then Interrupt else Failure)
      ensures transferred == old(transferred) + (if rc > 0 then buf[..rc] else [])
    {
      rc, errno := 0, NoError;
      if items == [] {
        return;
      }
      match items[0]
      case Data(_) =>
        var most := DataRun(items);
        var k :| 1 <= k <= count && k <= most;
        for i := 0 to k
          invariant items == old(items) && transferred == old(transferred)
          invariant forall j :: 0 <= j < i ==> items[j] == Data(buf[j])
        {
          buf[i] := items[i].b;
        }
        rc := k;
        transferred := transferred + buf[..k];
        items := items[k..];
        assert old(items) == AsItems(buf[..rc]) + items;
      case Eof => items := items[1..];
      case Interrupt => items := items[1..]; rc, errno := -1, Intr;
      case Failure => items := items[1..]; rc, errno := -1, Other;
    }
  }

  // ----- The specification -----

  datatype End = Newline | Cut | AtEof | Failed

  datatype Line = Line(stored: seq<byte>, end: End, rest: seq<Item>) {
    /** The returned value. A line cut for lack of room returns one more than it stores. */
    function Returned(): int {
      match end
      case Newline => |stored|
      case AtEof => |stored|
      case Cut => |stored| + 1
      case Failed => -1
    }
  }

  /** The next item an application can observe: an interrupted read is tried again. */
  function Next(items: seq<Item>): (r: (Item, seq<Item>))
    ensures !r.0.Interrupt? && |r.1| <= |items| && (r.0.Data? ==> |r.1| < |items|)
  {
    if items == [] then (Eof, [])
    else if items[0] == Interrupt then Next(items[1..])
    else (items[0], items[1..])
  }

  /** The line at the head of `items`, when `room` bytes may be stored before the terminator. */
  function TakeLine(items: seq<Item>, room: nat): (l: Line)
    ensures |l.stored| <= room
    decreases room
  {
    if room == 0 then Line([], Cut, items)
    else
      var (item, rest) := Next(items);
      match item
      case Data(b) =>
        if b == NEWLINE then Line([b], Newline, rest)
        else var l := TakeLine(rest, room - 1); l.(stored := [b] + l.stored)
      case Failure => Line([], Failed, rest)
      case _ => Line([], AtEof, rest)
  }

  /** The items with interruptions left out. */
  function Seen(items: seq<Item>): seq<Item> {
    if items == [] then []
    else (if items[0] == Interrupt then [] else [items[0]]) + Seen(items[1..])
  }

  lemma {:induction false} NextIsSeen(items: seq<Item>)
    ensures var (item, rest) := Next(items);
      Seen(items) == [item] + Seen(rest) || (Seen(items) == rest == [] && item == Eof)
  {
    if items != [] && items[0] == Interrupt {
      NextIsSeen(items[1..]);
    }
  }

  /** What ended the line, as an item. */
  function Mark(end: End): seq<Item> {
    match end
    case Failed => [Failure]
    case AtEof => [Eof]
    case _ => []
  }

  /** A line loses nothing and invents nothing, save for an end of file that stays. */
  lemma {:induction false} LineIsConserved(items: seq<Item>, room: nat)
    ensures var l := TakeLine(items, room);
      || Seen(items) == AsItems(l.stored) + (Mark(l.end) + Seen(l.rest))
      || (l.end == AtEof && l.rest == [] && Seen(items) == AsItems(l.stored))
    decreases room
  {
    if room > 0 {
      NextIsSeen(items);
      var (item, rest) := Next(items);
      if item.Data? && item.b != NEWLINE {
        LineIsConserved(rest, room - 1);
        var l, m := TakeLine(items, room), TakeLine(rest, room - 1);
        assert AsItems(l.stored) == [item] + AsItems(m.stored);
      }
    }
  }

  /** A line is cut only when the room is used up, and holds a newline at its end or nowhere. */
  lemma {:induction false} LineShape(items: seq<Item>, room: nat)
    ensures var l := TakeLine(items, room);
      && (l.end == Cut ==> |l.stored| == room)
      && (l.end == Newline ==> l.stored != [] && l.stored[|l.stored| - 1] == NEWLINE)
      && (forall i :: 0 <= i < |l.stored| && l.stored[i] == NEWLINE ==> l.end == Newline && i == |l.stored| - 1)
    decreases room
  {
    if room > 0 && Next(items).0.Data? {
      LineShape(Next(items).1, room - 1);
    }
  }

  /** Bytes before the end of a line. */
  predicate NoNewline(bs: seq<byte>) {
    forall i :: 0 <= i < |bs| ==> bs[i] != 10
  }

  lemma {:induction false} FirstPending(unread: seq<byte>, items: seq<Item>)
    requires unread != []
    ensures Next(AsItems(unread) + items) == (Data(unread[0]), AsItems(unread[1..]) + items)
  {
    assert AsItems(unread)[1..] == AsItems(unread[1..]);
    assert (AsItems(unread) + items)[1..] == AsItems(unread)[1..] + items;
  }

  lemma {:induction false} LineAfter(bs: seq<byte>, tail: seq<Item>, room: nat)
    requires NoNewline(bs) && |bs| <= room
    ensures var l := TakeLine(tail, room - |bs|); TakeLine(AsItems(bs) + tail, room) == l.(stored := bs + l.stored)
    decreases |bs|
  {
    hide Next;
    if bs == [] {
      assert AsItems(bs) + tail == tail;
    } else {
      FirstPending(bs, tail);
      LineAfter(bs[1..], tail, room - 1);
      var l := TakeLine(tail, room - |bs|);
      assert [bs[0]] + (bs[1..] + l.stored) == bs + l.stored;
    }
  }

  /** The line, spelled out: the bytes up to and with a newline, or up to an end of file or a failure, as far as there
      is room for them. */
  lemma {:induction false} LineIsWhatComesFirst(bs: seq<byte>, rest: seq<Item>, room: nat)
    requires NoNewline(bs) && |bs| <= room
    ensures |bs| < room ==> TakeLine(AsItems(bs) + ([Data(10)] + rest), room) == Line(bs + [10], Newline, rest)
    ensures |bs| < room ==> TakeLine(AsItems(bs) + ([Eof] + rest), room) == Line(bs, AtEof, rest)
    ensures |bs| < room ==> TakeLine(AsItems(bs) + [], room) == Line(bs, AtEof, [])
    ensures |bs| < room ==> TakeLine(AsItems(bs) + ([Failure] + rest), room) == Line(bs, Failed, rest)
    ensures |bs| == room ==> TakeLine(AsItems(bs) + rest, room) == Line(bs, Cut, rest)
  {
    LineAfter(bs, [Data(10)] + rest, room);
    LineAfter(bs, [Eof] + rest, room);
    LineAfter(bs, [], room);
    LineAfter(bs, [Failure] + rest, room);
    LineAfter(bs, rest, room);
    assert bs + [] == bs;
  }

  /** An interrupted read is tried again. */
  lemma {:induction false} InterruptIsPassedOver(items: seq<Item>, room: nat)
    requires room > 0
    ensures TakeLine([Interrupt] + items, room) == TakeLine(items, room)
  {
    assert ([Interrupt] + items)[1..] == items;
  }

  /** The value returned: the bytes of the line at its newline or at end of file, -1 on a failure, and the room and
      one more when the line is cut. */
  lemma {:induction false} ReturnedMeans(items: seq<Item>, maxlen: nat)
    ensures var l := TakeLine(items, Room(maxlen));
      && (l.end == Newline || l.end == AtEof ==> l.Returned() == |l.stored|)
      && (l.end == Failed ==> l.Returned() == -1)
      && (l.end == Cut ==> l.Returned() == if maxlen == 0 then 1 else maxlen)
  {
    LineShape(items, Room(maxlen));
  }

  /** What a call leaves in the caller's buffer: the line, a terminator unless the read failed, and
      beyond that what was there before. */
  predicate Filled(before: seq<byte>, after: seq<byte>, l: Line) {
    && |after| == |before| > |l.stored|
    && after[..|l.stored|] == l.stored
    && (l.end != Failed ==> after[|l.stored|] == 0)
    && forall i :: |l.stored| + (if l.end == Failed then 0 else 1) <= i < |after| ==> after[i] == before[i]
  }

  function Room(maxlen: nat): nat {
    if maxlen == 0 then 0 else maxlen - 1
  }

  /** `ptr` bytes of `line` are stored and `remaining` is what the specification still asks for. */
  ghost predicate InProgress(before: seq<byte>, now: seq<byte>, ptr: nat, line: Line, remaining: Line) {
    && |now| == |before| && ptr < |now|
    && line.stored == now[..ptr] + remaining.stored
    && line.end == remaining.end && line.rest == remaining.rest
    && forall i :: ptr <= i < |now| ==> now[i] == before[i]
  }

  lemma {:induction false} StoreStep(before: seq<byte>, now: seq<byte>, ptr: nat, line: Line, items: seq<Item>,
                                     room: nat, c: byte)
    requires room > 0 && Next(items).0 == Data(c) && ptr + 1 < |now|
    requires InProgress(before, now, ptr, line, TakeLine(items, room))
    ensures c != NEWLINE ==>
      InProgress(before, now[ptr := c], ptr + 1, line, TakeLine(Next(items).1, room - 1))
    ensures c == NEWLINE ==>
      InProgress(before, now[ptr := c], ptr + 1, line, Line([], Newline, Next(items).1))
  {
  }

  lemma {:induction false} EndOfLine(before: seq<byte>, now: seq<byte>, ptr: nat, line: Line, remaining: Line)
    requires InProgress(before, now, ptr, line, remaining) && remaining.stored == []
    ensures ptr == |line.stored|
    ensures line.stored == now[..ptr]
    ensures if line.end == Failed then Filled(before, now, line) else Filled(before, now[ptr := 0], line)
  {
  }

  /** What a read of one byte reports: 1 and the byte, 0 at end of file, -1 on an error. */
  ghost predicate ReportsNext(items: seq<Item>, rc: int, c: byte, rest: seq<Item>) {
    && rest == Next(items).1
    && match Next(items).0
       case Data(b) => rc == 1 && c == b
       case Failure => rc == -1
       case _ => rc == 0
  }

  // ----- test/readline1.c -----

  /** The read of one byte at the head of the loop, tried again as long as it is interrupted. */
  method ReadAgain(d: Descriptor) returns (rc: int, c: byte)
    modifies d
    ensures ReportsNext(old(d.items), rc, c, d.items)
  {
    c := 0;
    var one := new byte[1];
    var errno: Errno := Intr;
    rc := -1;
    while rc < 0 && errno == Intr
      invariant fresh(one)
      invariant rc < 0 && errno == Intr ==> Next(d.items) == Next(old(d.items))
      invariant !(rc < 0 && errno == Intr) ==> ReportsNext(old(d.items), rc, one[0], d.items)
      decreases |d.items|, if rc < 0 && errno == Intr then 1 else 0
    {
      rc, errno := d.Read(one, 1);
    }
    c := one[0];
  }

  method SlowReadline(d: Descriptor, vptr: array<byte>, maxlen: nat) returns (n: int)
    requires vptr.Length >= 1 && vptr.Length >= maxlen
    modifies d, vptr
    ensures var l := TakeLine(old(d.items), Room(maxlen));
      n == l.Returned() && d.items == l.rest && Filled(old(vptr[..]), vptr[..], l)
    ensures var l := TakeLine(old(d.items), Room(maxlen));
      && (n < 0 <==> l.end == Failed) && |l.stored| < vptr.Length && vptr[..|l.stored|] == l.stored
      && (n >= 0 ==> vptr[|l.stored|] == 0)
  {
    ghost var line, before := TakeLine(d.items, Room(maxlen)), vptr[..];
    var ptr := 0;
    n := 1;
    while n < maxlen
      invariant 1 <= n == ptr + 1 && ptr <= Room(maxlen)
      invariant InProgress(before, vptr[..], ptr, line, TakeLine(d.items, Room(maxlen) - ptr))
    {
      ghost var now, items := vptr[..], d.items;
      var rc, c := ReadAgain(d);
      if rc == 1 {
        StoreStep(before, vptr[..], ptr, line, items, Room(maxlen) - ptr, c);
        vptr[ptr] := c;
        assert vptr[..] == now[ptr := c];
        ptr := ptr + 1;
        if c == NEWLINE {
          break;
        }
      } else {
        EndOfLine(before, now, ptr, line, TakeLine(items, Room(maxlen) - ptr));
        if rc == 0 {
          vptr[ptr] := 0;
          assert vptr[..] == now[ptr := 0];
          return n - 1;
        } else {
          return -1;
        }
      }
      n := n + 1;
    }
    ghost var now := vptr[..];
    EndOfLine(before, now, ptr, line, if n < maxlen then Line([], Newline, d.items) else TakeLine(d.items, 0));
    vptr[ptr] := 0;
    assert vptr[..] == now[ptr := 0];
  }

  // ----- lib/readline.c -----

  lemma {:induction false} MoveOne(done: seq<byte>, todo: seq<byte>)
    requires todo != []
    ensures (done + [todo[0]]) + todo[1..] == done + todo
  {
  }

  /** The static variables of `readline.c`, together with the bytes handed out so far. */
  class Buffer {
    var cnt: int
    var ptr: nat
    const buf: array<byte>
    ghost var handed: seq<byte>

    constructor ()
      ensures cnt == 0 && handed == [] && fresh(buf) && buf.Length == MAXLINE
    {
      cnt, ptr := 0, 0;
      buf := new byte[MAXLINE];
      handed := [];
    }

    /** Conservation: bytes handed out, then bytes read ahead, are the bytes taken from `d`. */
    ghost predicate Valid(d: Descriptor)
      reads this, buf, d
    {
      && buf.Length == MAXLINE
      && (cnt > 0 ==> ptr + cnt <= MAXLINE)
      && handed + Unread() == d.transferred
    }

    /** Bytes read ahead; after a failed read the count is -1 and there are none. */
    ghost function Unread(): seq<byte>
      reads this, buf
    {
      if cnt > 0 && ptr + cnt <= buf.Length then buf[ptr..ptr + cnt] else []
    }

    ghost function Pending(d: Descriptor): seq<Item>
      reads this, buf, d
    {
      AsItems(Unread()) + d.items
    }

    /** The read of `my_read`, tried again as long as it is interrupted. */
    method Refill(d: Descriptor)
      requires Valid(d) && cnt <= 0
      modifies this, buf, d
      ensures Valid(d) && handed == old(handed)
      ensures cnt > 0 ==> Next(Pending(d)) == Next(old(Pending(d)))
      ensures cnt <= 0 ==> ReportsNext(old(Pending(d)), cnt, 0, Pending(d))
    {
      assert Pending(d) == d.items;
      ghost var items := d.items;
      var errno: Errno := Intr;
      cnt := -1;
      ptr := 0;
      while cnt < 0 && errno == Intr
        invariant buf.Length == MAXLINE && ptr == 0 && -1 <= cnt <= MAXLINE && handed == old(handed)
        invariant d.transferred == handed + Unread()
        invariant cnt < 0 && errno == Intr ==> Next(d.items) == Next(items)
        invariant cnt > 0 ==> Next(Pending(d)) == Next(items)
        invariant cnt == 0 ==> Next(items) == (Eof, d.items)
        invariant cnt < 0 && errno != Intr ==> Next(items) == (Failure, d.items)
        decreases |d.items|, if cnt < 0 && errno == Intr then 1 else 0
      {
        cnt, errno := d.Read(buf, MAXLINE);
      }
      assert cnt <= 0 ==> Pending(d) == d.items;
    }

    /** The next byte of a buffer that has one. */
    method HandOut(d: Descriptor) returns (c: byte)
      requires Valid(d) && cnt > 0
      modifies this
      ensures Valid(d)
      ensures old(Unread()) != [] && c == old(Unread())[0] && Unread() == old(Unread())[1..]
      ensures handed == old(handed) + [c]
    {
      ghost var u, h := Unread(), handed;
      cnt := cnt - 1;
      c := buf[ptr];
      ptr := ptr + 1;
      handed := handed + [c];
      assert Unread() == u[1..];
      MoveOne(h, u);
    }

    /** `my_read`. */
    method MyRead(d: Descriptor) returns (rc: int, c: byte)
      requires Valid(d)
      modifies this, buf, d
      ensures Valid(d)
      ensures ReportsNext(old(Pending(d)), rc, c, Pending(d))
      ensures handed == old(handed) + (if rc == 1 then [c] else [])
    {
      if cnt <= 0 {
        Refill(d);
        if cnt <= 0 {
          return cnt, 0;
        }
      }
      FirstPending(Unread(), d.items);
      c := HandOut(d);
      rc := 1;
    }

    method Store(d: Descriptor, vptr: array<byte>, p: nat, c: byte)
      requires Valid(d) && vptr != buf && p < vptr.Length
      modifies vptr
      ensures Valid(d) && Pending(d) == old(Pending(d))
      ensures vptr[..] == old(vptr[..])[p := c]
    {
      vptr[p] := c;
    }

    /** One turn of the loop of `readline`: read a byte and, if there is one, store it. */
    method StoreNext(d: Descriptor, vptr: array<byte>, p: nat, ghost room: nat, ghost before: seq<byte>,
                     ghost line: Line)
      returns (rc: int, c: byte)
      requires Valid(d) && vptr != buf && room > 0 && p + 1 < vptr.Length
      requires InProgress(before, vptr[..], p, line, TakeLine(Pending(d), room))
      modifies this, buf, d, vptr
      ensures Valid(d) && -1 <= rc <= 1
      ensures rc == 1 && c != NEWLINE ==> InProgress(before, vptr[..], p + 1, line, TakeLine(Pending(d), room - 1))
      ensures rc == 1 && c == NEWLINE ==> InProgress(before, vptr[..], p + 1, line, Line([], Newline, Pending(d)))
      ensures rc == 0 ==> InProgress(before, vptr[..], p, line, Line([], AtEof, Pending(d)))
      ensures rc < 0 ==> InProgress(before, vptr[..], p, line, Line([], Failed, Pending(d)))
    {
      ghost var items := Pending(d);
      rc, c := MyRead(d);
      if rc == 1 {
        StoreStep(before, vptr[..], p, line, items, room, c);
        Store(d, vptr, p, c);
      }
    }

    /** `readline`, which reads ahead: its input is what was read ahead and then the descriptor. */
    method Readline(d: Descriptor, vptr: array<byte>, maxlen: nat) returns (n: int)
      requires Valid(d) && vptr != buf
      requires vptr.Length >= 1 && vptr.Length >= maxlen
      modifies this, buf, d, vptr
      ensures Valid(d)
      ensures var l := TakeLine(old(Pending(d)), Room(maxlen));
        n == l.Returned() && Pending(d) == l.rest && Filled(old(vptr[..]), vptr[..], l)
      ensures var l := TakeLine(old(Pending(d)), Room(maxlen));
        && (n < 0 <==> l.end == Failed) && |l.stored| < vptr.Length && vptr[..|l.stored|] == l.stored
        && (n >= 0 ==> vptr[|l.stored|] == 0)
    {
      ghost var line, before := TakeLine(Pending(d), Room(maxlen)), vptr[..];
      var p := 0;
      n := 1;
      while n < maxlen
        invariant Valid(d)
        invariant 1 <= n == p + 1 && p <= Room(maxlen)
        invariant InProgress(before, vptr[..], p, line, TakeLine(Pending(d), Room(maxlen) - p))
      {
        var rc, c := StoreNext(d, vptr, p, Room(maxlen) - p, before, line);
        if rc == 1 {
          p := p + 1;
          if c == NEWLINE {
            break;
          }
        } else if rc == 0 {
          EndOfLine(before, vptr[..], p, line, Line([], AtEof, Pending(d)));
          Store(d, vptr, p, 0);
          return n - 1;
        } else {
          EndOfLine(before, vptr[..], p, line, Line([], Failed, Pending(d)));
          return -1;
        }
        n := n + 1;
      }
      EndOfLine(before, vptr[..], p, line, Line([], if n < maxlen then Newline else Cut, Pending(d)));
      Store(d, vptr, p, 0);
    }
  }

  // ----- The two together -----

  /** The lines of a sequence of calls, one per `maxlen`. */
  function Session(items: seq<Item>, maxlens: seq<nat>): seq<Line>
    decreases |maxlens|
  {
    if maxlens == [] then []
    else
      var l := TakeLine(items, Room(maxlens[0]));
      [l] + Session(l.rest, maxlens[1..])
  }

  lemma {:induction false} FilledIsUnique(before: seq<byte>, a: seq<byte>, b: seq<byte>, l: Line, m: Line)
    requires Filled(before, a, l) && Filled(before, b, m) && l.stored == m.stored && l.end == m.end
    ensures a == b
  {
  }

  /** Where a descriptor is interrupted makes no difference to the next item. */
  lemma {:induction false} SameNext(a: seq<Item>, b: seq<Item>)
    requires Seen(a) == Seen(b)
    ensures Next(a).0 == Next(b).0 && Seen(Next(a).1) == Seen(Next(b).1)
  {
    hide Seen, Next;
    NextIsSeen(a);
    NextIsSeen(b);
    SeenNothing();
    var (item, rest) := Next(a);
    var (item', rest') := Next(b);
    assert ([item] + Seen(rest))[1..] == Seen(rest) && ([item'] + Seen(rest'))[1..] == Seen(rest');
  }

  lemma {:induction false} SeenNothing()
    ensures Seen([]) == []
  {
  }

  /** Nor to the next line. */
  lemma {:induction false} SameLine(a: seq<Item>, b: seq<Item>, room: nat)
    requires Seen(a) == Seen(b)
    ensures var (l, m) := (TakeLine(a, room), TakeLine(b, room));
      l.stored == m.stored && l.end == m.end && Seen(l.rest) == Seen(m.rest)
    decreases room
  {
    hide Seen, Next;
    if room > 0 {
      SameNext(a, b);
      if Next(a).0.Data? {
        SameLine(Next(a).1, Next(b).1, room - 1);
      }
    }
  }

  /** One call of each version, on inputs that may be interrupted at different places, with zeroed buffers. */
  method ReadBoth(buffer: Buffer, d: Descriptor, e: Descriptor, maxlen: nat)
    returns (fast: (int, seq<byte>), slow: (int, seq<byte>))
    requires d != e && buffer.Valid(d) && Seen(buffer.Pending(d)) == Seen(e.items)
    modifies buffer, buffer.buf, d, e
    ensures buffer.Valid(d) && Seen(buffer.Pending(d)) == Seen(e.items)
    ensures var line := TakeLine(old(e.items), Room(maxlen));
      && e.items == line.rest
      && fast == slow && fast.0 == line.Returned() && line.stored <= fast.1
  {
    hide Seen, TakeLine;
    var v := new byte[maxlen + 1](_ => 0);
    var w := new byte[maxlen + 1](_ => 0);
    ghost var zeros := v[..];
    ghost var l, m := TakeLine(buffer.Pending(d), Room(maxlen)), TakeLine(e.items, Room(maxlen));
    SameLine(buffer.Pending(d), e.items, Room(maxlen));
    assert w[..] == zeros;
    var p := buffer.Readline(d, v, maxlen);
    var q := SlowReadline(e, w, maxlen);
    FilledIsUnique(zeros, v[..], w[..], l, m);
    fast, slow := (p, v[..]), (q, w[..]);
  }

  /** Each call returned what its line says and stored the line. */
  predicate Matches(results: seq<(int, seq<byte>)>, lines: seq<Line>) {
    && |results| == |lines|
    && forall i :: 0 <= i < |lines| ==> results[i].0 == lines[i].Returned() && lines[i].stored <= results[i].1
  }

  /** A whole session, from any state in which the two versions have the same bytes, ends of file and
      failures before them: however the kernel cuts and interrupts the reads of either, at the same places
      or not, the two return the same values and leave the same buffers, call by call. */
  method SameSession(buffer: Buffer, d: Descriptor, e: Descriptor, maxlens: seq<nat>)
    returns (fast: seq<(int, seq<byte>)>, slow: seq<(int, seq<byte>)>)
    requires d != e && buffer.Valid(d) && Seen(buffer.Pending(d)) == Seen(e.items)
    modifies buffer, buffer.buf, d, e
    ensures buffer.Valid(d) && Seen(buffer.Pending(d)) == Seen(e.items)
    ensures fast == slow && Matches(fast, Session(old(e.items), maxlens))
    decreases |maxlens|
  {
    if maxlens == [] {
      return [], [];
    }
    var f, s := ReadBoth(buffer, d, e, maxlens[0]);
    fast, slow := SameSession(buffer, d, e, maxlens[1..]);
    fast, slow := [f] + fast, [s] + slow;
  }
}
