/** The connection scheduler of nonblock/web.c, with start_connect.c and write_get_cmd.c: at most `maxnconn`
    nonblocking connections at a time, until every file has been read. */
module WebScheduler {

  /** `f_flags` is only ever assigned 0, F_CONNECTING, F_READING or F_DONE. */
  datatype Stage = Unstarted | Connecting | Reading | Done

  datatype File = File(stage: Stage, fd: int)

  /** What the nonblocking `connect` gives; on any error but EINPROGRESS the program exits. */
  datatype ConnectResult = InProgress | Established | Failed

  predicate Active(f: File) {
    f.stage == Connecting || f.stage == Reading
  }

  function Rank(stage: Stage): nat {
    match stage
    case Unstarted => 0
    case Connecting => 1
    case Reading => 2
    case Done => 3
  }

  function Count(files: seq<File>, stage: Stage): nat {
    if files == [] then 0 else (if files[0].stage == stage then 1 else 0) + Count(files[1..], stage)
  }

  function One(b: bool): nat { if b then 1 else 0 }

  lemma {:induction false} CountUpdate(files: seq<File>, i: nat, f: File, stage: Stage)
    requires i < |files|
    ensures Count(files[i := f], stage) == Count(files, stage) - One(files[i].stage == stage) + One(f.stage == stage)
  {
    if i > 0 {
      CountUpdate(files[1..], i - 1, f, stage);
      assert files[i := f][1..] == files[1..][i - 1 := f];
    } else {
      assert files[i := f][1..] == files[1..];
    }
  }

  lemma {:induction false} CountNone(files: seq<File>, stage: Stage)
    ensures Count(files, stage) == 0 <==> forall i :: 0 <= i < |files| ==> files[i].stage != stage
  {
    if files != [] {
      CountNone(files[1..], stage);
      assert files == [files[0]] + files[1..];
    }
  }

  lemma {:induction false} CountTotal(files: seq<File>)
    ensures Count(files, Unstarted) + Count(files, Connecting) + Count(files, Reading) + Count(files, Done) == |files|
  {
    if files != [] {
      CountTotal(files[1..]);
    }
  }

  /** The three counters: unstarted, active and unfinished files. */
  ghost predicate Counted(files: seq<File>, nconn: int, nlefttoconn: int, nlefttoread: int) {
    && nlefttoconn == Count(files, Unstarted)
    && nconn == Count(files, Connecting) + Count(files, Reading)
    && nlefttoread == |files| - Count(files, Done)
  }

  lemma {:induction false} CountedUpdate(files: seq<File>, nconn: int, nlefttoconn: int, nlefttoread: int,
                                         i: nat, f: File)
    requires Counted(files, nconn, nlefttoconn, nlefttoread) && i < |files|
    ensures Counted(files[i := f], nconn - One(Active(files[i])) + One(Active(f)),
                    nlefttoconn - One(files[i].stage == Unstarted) + One(f.stage == Unstarted),
                    nlefttoread + One(files[i].stage == Done) - One(f.stage == Done))
  {
    CountUpdate(files, i, f, Unstarted);
    CountUpdate(files, i, f, Connecting);
    CountUpdate(files, i, f, Reading);
    CountUpdate(files, i, f, Done);
  }

  /** The descriptor sets are those of the active and of the connecting files, which have descriptors of
      their own: `owner` tells whose. */
  ghost predicate Watched(files: seq<File>, rset: set<int>, wset: set<int>, maxfd: int, owner: map<int, nat>) {
    && maxfd >= -1
    && (forall i :: 0 <= i < |files| && Active(files[i]) ==>
          files[i].fd in rset && files[i].fd in owner && owner[files[i].fd] == i)
    && (forall fd :: fd in rset ==>
          && fd in owner && owner[fd] < |files| && 0 <= fd <= maxfd
          && files[owner[fd]].fd == fd && Active(files[owner[fd]]))
    && (forall fd :: fd in wset <==> fd in rset && files[owner[fd]].stage == Connecting)
  }

  /** In terms of the files alone. */
  lemma {:induction false} WatchedMeans(files: seq<File>, rset: set<int>, wset: set<int>, maxfd: int,
                                        owner: map<int, nat>)
    requires Watched(files, rset, wset, maxfd, owner)
    ensures rset == set i | 0 <= i < |files| && Active(files[i]) :: files[i].fd
    ensures wset == set i | 0 <= i < |files| && files[i].stage == Connecting :: files[i].fd
    ensures forall i, j :: 0 <= i < j < |files| && Active(files[i]) && Active(files[j]) ==> files[i].fd != files[j].fd
  {
    var active := set i | 0 <= i < |files| && Active(files[i]) :: files[i].fd;
    var connecting := set i | 0 <= i < |files| && files[i].stage == Connecting :: files[i].fd;
    forall fd ensures fd in rset <==> fd in active {
      if fd in rset {
        assert files[owner[fd]].fd == fd;
      }
    }
    forall fd ensures fd in wset <==> fd in connecting {
      if fd in wset {
        assert files[owner[fd]].fd == fd;
      }
    }
    assert rset == active && wset == connecting;
  }

  lemma {:induction false} NothingWatched(files: seq<File>, rset: set<int>, wset: set<int>, maxfd: int,
                                          owner: map<int, nat>)
    requires Watched(files, rset, wset, maxfd, owner) && forall i :: 0 <= i < |files| ==> !Active(files[i])
    ensures rset == {} && wset == {}
  {
    forall fd ensures fd !in rset && fd !in wset {
      if fd in rset {
        assert false;
      }
    }
    assert rset == {} && wset == {};
  }

  /** A socket opened. */
  lemma {:induction false} WatchedOpen(files: seq<File>, rset: set<int>, wset: set<int>, maxfd: int,
                                       owner: map<int, nat>, i: nat, f: File, maxfd': int)
    requires Watched(files, rset, wset, maxfd, owner) && i < |files| && files[i].stage == Unstarted
    requires Active(f) && 0 <= f.fd <= maxfd' && maxfd <= maxfd' && f.fd !in rset
    ensures Watched(files[i := f], rset + {f.fd}, if f.stage == Connecting then wset + {f.fd} else wset,
                    maxfd', owner[f.fd := i])
  {
  }

  /** A connection established. */
  lemma {:induction false} WatchedEstablish(files: seq<File>, rset: set<int>, wset: set<int>, maxfd: int,
                                            owner: map<int, nat>, i: nat)
    requires Watched(files, rset, wset, maxfd, owner) && i < |files| && files[i].stage == Connecting
    ensures Watched(files[i := files[i].(stage := Reading)], rset, wset - {files[i].fd}, maxfd, owner)
    ensures files[i].fd in rset && 0 <= files[i].fd <= maxfd
  {
  }

  /** A socket closed. */
  lemma {:induction false} WatchedClose(files: seq<File>, rset: set<int>, wset: set<int>, maxfd: int,
                                        owner: map<int, nat>, i: nat)
    requires Watched(files, rset, wset, maxfd, owner) && i < |files| && files[i].stage == Reading
    ensures Watched(files[i := files[i].(stage := Done)], rset - {files[i].fd}, wset, maxfd, owner)
  {
  }

  /** One GET for every file whose connection has been established, none for the others. */
  ghost predicate Written(files: seq<File>, gets: seq<nat>) {
    && |gets| == |files|
    && forall i :: 0 <= i < |files| ==> gets[i] == One(Rank(files[i].stage) >= Rank(Reading))
  }

  /** What one pass makes of a file: `rs` and `ws` are what `select` gave, `eof` the connections at end of
      file. */
  function Next(f: File, rs: set<int>, ws: set<int>, eof: set<int>): File {
    if f.stage == Connecting && (f.fd in rs || f.fd in ws) then f.(stage := Reading)
    else if f.stage == Reading && f.fd in rs && f.fd in eof then f.(stage := Done)
    else f
  }

  /** From `f` to `g` in one pass: a connection is established when its socket has become readable or writable, a
      file is done when its socket is readable and at end of file, and nothing else changes. */
  predicate MovesOn(f: File, g: File, rs: set<int>, ws: set<int>, eof: set<int>) {
    && g.fd == f.fd
    && (f.stage == Unstarted ==> g.stage == Unstarted)
    && (f.stage == Connecting && f.fd !in rs && f.fd !in ws ==> g.stage == Connecting)
    && (f.stage == Connecting && f.fd in rs ==> g.stage == Reading)
    && (f.stage == Connecting && f.fd in ws ==> g.stage == Reading)
    && (f.stage == Reading && f.fd in rs && f.fd in eof ==> g.stage == Done)
    && (f.stage == Reading && f.fd in rs && f.fd !in eof ==> g.stage == Reading)
    && (f.stage == Reading && f.fd !in rs ==> g.stage == Reading)
    && (f.stage == Done ==> g.stage == Done)
  }

  lemma {:induction false} NextMovesOn(f: File, rs: set<int>, ws: set<int>, eof: set<int>)
    ensures MovesOn(f, Next(f, rs, ws, eof), rs, ws, eof)
  {
  }

  class Scheduler {
    const file: array<File>
    const maxnconn: int
    var nconn: int
    var nlefttoconn: int
    var nlefttoread: int
    var maxfd: int
    var rset: set<int>
    var wset: set<int>
    ghost var gets: seq<nat>
    ghost var owner: map<int, nat>

    ghost predicate Valid()
      reads this, file
    {
      && Counted(file[..], nconn, nlefttoconn, nlefttoread)
      && Watched(file[..], rset, wset, maxfd, owner)
      && Written(file[..], gets)
      && (nconn <= maxnconn || nconn == 0)
    }

    /** Every file is where it was or further on. */
    twostate predicate Forward()
      reads this, file
    {
      forall i :: 0 <= i < file.Length ==> Rank(old(file[i]).stage) <= Rank(file[i].stage)
    }

    /** Files that have been started are as they were. */
    twostate predicate StartedStay()
      reads this, file
    {
      forall i :: 0 <= i < file.Length && old(file[i]).stage != Unstarted ==> file[i] == old(file[i])
    }

    constructor (nfiles: nat, maxnconn: int)
      ensures Valid() && file.Length == nfiles && this.maxnconn == maxnconn && nlefttoread == nfiles
      ensures forall i :: 0 <= i < nfiles ==> file[i].stage == Unstarted
    {
      file := new File[nfiles](_ => File(Unstarted, 0));
      this.maxnconn := maxnconn;
      rset, wset, maxfd := {}, {}, -1;
      nlefttoread, nlefttoconn, nconn := nfiles, nfiles, 0;
      gets, owner := seq(nfiles, _ => 0), map[];
      new;
      CountNone(file[..], Connecting);
      CountNone(file[..], Reading);
      CountNone(file[..], Done);
      CountTotal(file[..]);
    }

    /** write_get_cmd.c:9-17. */
    method WriteGetCmd(i: nat)
      requires i < file.Length == |gets|
      modifies this`rset, this`maxfd, this`gets, file
      ensures file[..] == old(file[..])[i := old(file[i]).(stage := Reading)]
      ensures rset == old(rset) + {old(file[i]).fd}
      ensures maxfd == if old(file[i]).fd > old(maxfd) then old(file[i]).fd else old(maxfd)
      ensures gets == old(gets)[i := old(gets[i]) + 1]
    {
      gets := gets[i := gets[i] + 1];
      file[i] := file[i].(stage := Reading);
      rset := rset + {file[i].fd};
      if file[i].fd > maxfd {
        maxfd := file[i].fd;
      }
    }

    /** start_connect.c:11-30. `fd` is the new socket: not one of those still open. */
    method StartConnect(i: nat, fd: int, r: ConnectResult) returns (quit: bool)
      requires Watched(file[..], rset, wset, maxfd, owner) && Written(file[..], gets)
      requires i < file.Length && file[i].stage == Unstarted && 0 <= fd && fd !in rset
      modifies this`rset, this`wset, this`maxfd, this`gets, this`owner, file
      ensures quit <==> r == Failed
      ensures !quit ==> Watched(file[..], rset, wset, maxfd, owner) && Written(file[..], gets)
      ensures !quit ==> file[..] == old(file[..])[i := File(if r == InProgress then Connecting else Reading, fd)]
      ensures !quit ==> old(rset) <= rset && old(wset) <= wset
      ensures !quit ==> maxfd == if fd > old(maxfd) then fd else old(maxfd)
    {
      hide Watched;
      file[i] := file[i].(fd := fd);
      if r == Failed {
        return true;
      }
      ghost var f := File(if r == InProgress then Connecting else Reading, fd);
      WatchedOpen(old(file[..]), rset, wset, maxfd, owner, i, f, if fd > maxfd then fd else maxfd);
      owner := owner[fd := i];
      if r == InProgress {
        file[i] := file[i].(stage := Connecting);
        rset := rset + {fd};
        wset := wset + {fd};
        if fd > maxfd {
          maxfd := fd;
        }
      } else {
        WriteGetCmd(i);
      }
      assert file[..] == old(file[..])[i := f];
      return false;
    }

    /** web.c:35-37. */
    method FindUnstarted() returns (i: nat)
      ensures i <= file.Length && (i < file.Length ==> file[i].stage == Unstarted)
      ensures forall j :: 0 <= j < i ==> file[j].stage != Unstarted
    {
      i := 0;
      while i < file.Length
        invariant i <= file.Length && forall j :: 0 <= j < i ==> file[j].stage != Unstarted
      {
        if file[i].stage == Unstarted {
          return;
        }
        i := i + 1;
      }
    }

    /** One turn of the inner loop, web.c:34-42. The search never comes back empty. */
    method StartOne(fd: int, r: ConnectResult) returns (quit: bool)
      requires Valid() && nconn < maxnconn && nlefttoconn > 0 && 0 <= fd && fd !in rset
      modifies this, file
      ensures quit <==> r == Failed
      ensures !quit ==> Valid() && Forward()
      ensures !quit ==> nlefttoconn == old(nlefttoconn) - 1 && nconn == old(nconn) + 1
      ensures !quit ==> nlefttoread == old(nlefttoread) && StartedStay()
      ensures !quit ==> old(rset) <= rset && old(wset) <= wset
    {
      hide Watched, Written, Count;
      var i := FindUnstarted();
      CountNone(file[..], Unstarted);
      if i == file.Length {
        assert false;
      }
      ghost var f := File(if r == InProgress then Connecting else Reading, fd);
      CountedUpdate(file[..], nconn, nlefttoconn, nlefttoread, i, f);
      quit := StartConnect(i, fd, r);
      if quit {
        return;
      }
      nconn := nconn + 1;
      nlefttoconn := nlefttoconn - 1;
    }

    /** A descriptor for a new socket: any that is not open. */
    method Socket() returns (fd: int)
      requires Watched(file[..], rset, wset, maxfd, owner)
      ensures 0 <= fd && fd !in rset
    {
      fd := *;
      if fd < 0 || fd in rset {
        fd := maxfd + 1;
      }
    }

    /** The inner loop, web.c:33-43. */
    method StartMore() returns (quit: bool)
      requires Valid()
      modifies this, file
      ensures !quit ==> Valid() && Forward() && nlefttoread == old(nlefttoread)
      ensures !quit ==> (nconn >= maxnconn || nlefttoconn == 0) && StartedStay()
      ensures !quit ==> old(rset) <= rset && old(wset) <= wset
    {
      hide Watched, Written, Count;
      quit := false;
      while nconn < maxnconn && nlefttoconn > 0
        invariant Valid() && Forward() && nlefttoread == old(nlefttoread) && !quit && StartedStay()
        invariant old(rset) <= rset && old(wset) <= wset
        decreases nlefttoconn
      {
        var fd := Socket();
        var r: ConnectResult := *;
        quit := StartOne(fd, r);
        if quit {
          return;
        }
      }
    }

    /** The descriptors given to `select` while files remain: at least one, if and only if some connection is
        allowed at all. */
    lemma {:induction false} SelectWaits()
      requires Valid() && nlefttoread > 0 && (nconn >= maxnconn || nlefttoconn == 0)
      ensures rset != {} <==> maxnconn >= 1
    {
      CountTotal(file[..]);
      CountNone(file[..], Connecting);
      CountNone(file[..], Reading);
      if nconn > 0 {
        var i :| 0 <= i < file.Length && Active(file[i]);
        assert file[..][i].fd in rset;
      } else {
        NothingWatched(file[..], rset, wset, maxfd, owner);
      }
    }

    /** One file of the pass, web.c:50-78. */
    method Visit(i: nat, rs: set<int>, ws: set<int>, eof: set<int>)
      requires Valid() && i < file.Length
      modifies this, file
      ensures Valid() && file[..] == old(file[..])[i := Next(old(file[i]), rs, ws, eof)]
    {
      hide Watched, Count;
      var fd := file[i].fd;
      ghost var before := file[..];
      CountedUpdate(before, nconn, nlefttoconn, nlefttoread, i, Next(before[i], rs, ws, eof));
      if file[i].stage == Connecting && (fd in rs || fd in ws) {
        WatchedEstablish(before, rset, wset, maxfd, owner, i);
        wset := wset - {fd};
        WriteGetCmd(i);
        assert rset == old(rset);
      } else if file[i].stage == Reading && fd in rs {
        if fd in eof {
          WatchedClose(before, rset, wset, maxfd, owner, i);
          file[i] := file[i].(stage := Done);
          rset := rset - {fd};
          nconn := nconn - 1;
          nlefttoread := nlefttoread - 1;
          assert file[..] == before[i := before[i].(stage := Done)];
        }
      }
    }

    /** The pass over the files, web.c:49-79: each moves on exactly as its own descriptor allows. */
    method Pass(rs: set<int>, ws: set<int>, eof: set<int>)
      requires Valid()
      modifies this, file
      ensures Valid()
      ensures forall i :: 0 <= i < file.Length ==> MovesOn(old(file[i]), file[i], rs, ws, eof)
      ensures Forward()
    {
      hide Valid, Next;
      var i := 0;
      while i < file.Length
        invariant Valid() && 0 <= i <= file.Length
        invariant forall j :: 0 <= j < i ==> file[j] == Next(old(file[j]), rs, ws, eof)
        invariant file[i..] == old(file[i..])
      {
        Visit(i, rs, ws, eof);
        assert forall j :: 0 <= j < file.Length ==> file[j] == file[..][j];
        i := i + 1;
      }
      forall k | 0 <= k < file.Length ensures MovesOn(old(file[k]), file[k], rs, ws, eof) {
        NextMovesOn(old(file[k]), rs, ws, eof);
      }
    }

    /** One turn of the outer loop, lines 33-79. As many connections as possible are started, and then every file
        that was started before moves on as `select` and `read` say. `asked` is whether `select` could give this. */
    method Turn(rs: set<int>, ws: set<int>, eof: set<int>) returns (quit: bool, asked: bool)
      requires Valid() && nlefttoread > 0
      modifies this, file
      ensures !quit ==> Valid() && Forward()
      ensures !quit && asked ==> forall i :: 0 <= i < file.Length && old(file[i]).stage != Unstarted ==>
        MovesOn(old(file[i]), file[i], rs, ws, eof)
      ensures !quit && !asked ==> StartedStay() && (maxnconn >= 1 ==> rset != {})
      ensures !quit && rs <= old(rset) && ws <= old(wset) && rs + ws != {} ==> asked
    {
      hide Watched, Written, Count, MovesOn;
      asked := false;
      quit := StartMore();
      if quit {
        return;
      }
      SelectWaits();
      if rs <= rset && ws <= wset && rs + ws != {} {
        asked := true;
        Pass(rs, ws, eof);
      }
    }

    /** Lines 32-80 for any number of turns, whatever `select`, `read` and `connect` give: the counters and
        sets are right at every loop head, no file moves back, and the loop ends only when all are done. */
    method Run(turns: nat) returns (quit: bool)
      requires Valid()
      modifies this, file
      ensures !quit ==> Valid() && Forward()
      ensures !quit && nlefttoread <= 0 ==> AllDone()
    {
      hide Watched, Written, Count, MovesOn;
      quit := false;
      var k := 0;
      while nlefttoread > 0 && k < turns
        invariant Valid() && Forward() && !quit
        decreases turns - k
      {
        var rs: set<int>, ws: set<int>, eof: set<int> := *, *, *;
        var asked;
        quit, asked := Turn(rs, ws, eof);
        if quit {
          return;
        }
        k := k + 1;
      }
      if nlefttoread <= 0 {
        Finished();
      }
    }

    ghost predicate AllDone()
      reads this, file
    {
      && |gets| == file.Length && nconn == 0 && nlefttoconn == 0 && rset == {} && wset == {}
      && forall i :: 0 <= i < file.Length ==> file[i].stage == Done && gets[i] == 1
    }

    /** The loop's exit test holds exactly when every file has been read to its end. */
    lemma {:induction false} Finished()
      requires Valid()
      ensures nlefttoread <= 0 <==> AllDone()
    {
      CountTotal(file[..]);
      CountNone(file[..], Unstarted);
      CountNone(file[..], Connecting);
      CountNone(file[..], Reading);
      if nlefttoread <= 0 {
        assert forall i :: 0 <= i < file.Length ==> file[..][i].stage == Done;
        NothingWatched(file[..], rset, wset, maxfd, owner);
      } else if AllDone() {
        assert false;
      }
    }
  }

  /** Where that fails: with no connection allowed and one file to read, nothing is started and `select` is
      given empty sets. */
  method NoneAllowed() returns (s: Scheduler)
    ensures s.Valid() && s.maxnconn == 0 && s.nlefttoread == 1 && s.rset == {} && s.wset == {}
    ensures s.nconn >= s.maxnconn
  {
    s := new Scheduler(1, 0);
    NothingWatched(s.file[..], s.rset, s.wset, s.maxfd, s.owner);
  }
}
