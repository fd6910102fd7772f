/** The tracker's loop body in memory (tmtracker.c): a ready descriptor is served with the
    contexts and their buffers in one arena, while the handlers of the messages that are read
    allocate in the same arena. What is left is what `Tracker` says about the values. */
module Reader {
  import opened Bytes
  import opened Conservation
  import opened Descriptors
  import opened Framing
  import opened Memory
  import opened Net
  import opened Peers
  import opened Sockets
  import opened Tracker
  import H = Handler
  import ST = SocketTable
  import Runs
  import Scratch
  import Streams

  /** What the loop keeps beside the objects. */
  datatype Loop = Loop(readfds: set<nat>, writefds: set<nat>, maxfd: nat, attempts: nat)

  /** The objects and the loop hold what `s` says, and the scratch arena is unused. */
  ghost predicate InMemory(scratch: Arena, table: ST.Table, peers: PeerTable, d: Loop, s: State)
    reads scratch, scratch.live, table, table.arena, table.arena.live, table.arena.bs, table.ctxs, peers
  {
    && H.Ready(scratch, table, peers, d.writefds, d.maxfd, s) && s.attempts == d.attempts && s.readfds == d.readfds
    && scratch.pos == 0 && scratch.bs.Length == Scratch.SCRATCH_SIZE && H.NamesFit(s.peers)
  }

  /** The most bytes that a message makes the tracker pack. */
  const LONGEST := 65535 + H.REPLY_EXTRA

  /** What handling a message leaves alone, and how many sends it makes. */
  lemma HandledKeeps(w: World, s: State, fromaddr: nat, body: seq<byte>)
    requires body != []
    ensures var t := Handled(w, s, fromaddr, body);
            && Grew(s.out.ctxs, t.out.ctxs) && t.readfds == s.readfds
            && (t.up ==> t.attempts == s.attempts + |Reaction(s.peers, fromaddr, body).1|)
  {
    hide SendAll, Reaction, Grew, Packed;
    var sends := Packed(Reaction(s.peers, fromaddr, body).1);
    GrewSelf(s.out.ctxs);
    Streams.SendAllGrew(w, s, sends);
    SendAllIsSendList(w, s, sends);
  }

  twostate lemma ScratchKept(scratch: Arena)
    requires old(scratch.Valid()) && unchanged(scratch) && forall b :: b in scratch.live ==> unchanged(b)
    ensures scratch.Valid()
  {
  }

  /** A message is handled. */
  method Handle(scratch: Arena, table: ST.Table, peers: PeerTable, w: World, ghost s: State, d: Loop, fromaddr: nat,
                body: seq<byte>)
    returns (ok: bool, d': Loop)
    requires InMemory(scratch, table, peers, d, s) && body != [] && |body| < 65536
    modifies table, (set c <- table.ctxs :: c.writebuf), table.arena`pos, table.arena`live, table.arena.bs
    modifies scratch.bs, peers
    ensures ok ==> InMemory(scratch, table, peers, d', Handled(w, s, fromaddr, body))
    ensures ok ==> d.attempts <= d'.attempts && table.Added(d'.attempts - d.attempts)
    ensures ok || !Handled(w, s, fromaddr, body).up || ST.Crowded(table.arena.pos, table.arena.bs.Length, LONGEST)
  {
    hide Handled, Reaction, Grew, H.Starved, H.NamesFit, ST.Table.Valid, ST.Table.Added, Arena.Valid, PeerTable.Valid;
    hide ST.Crowded;
    H.ScratchApart(scratch, table);
    HandledKeeps(w, s, fromaddr, body);
    H.NamesStayFit(w, s, fromaddr, body);
    d' := d;
    var attempts, writefds, maxfd;
    ok, attempts, writefds, maxfd :=
      H.HandleMsg(scratch, table, peers, w, s, d.attempts, fromaddr, body, d.writefds, d.maxfd);
    if ok {
      ScratchKept(scratch);
      d' := d.(writefds := writefds, maxfd := maxfd, attempts := attempts);
    } else if Handled(w, s, fromaddr, body).up {
      H.OnlyCrowded(scratch, table, s.peers, fromaddr, body);
      ST.CrowdedLater(table.arena.pos, table.arena.pos, table.arena.bs.Length, |body| + H.REPLY_EXTRA, LONGEST);
    }
  }

  /** The context's unread bytes, as the value model has them. */
  lemma Unread(table: ST.Table, s: State, k: nat)
    requires table.Valid() && s.out.ctxs == table.view && k < |table.ctxs|
    ensures k < |s.out.ctxs| && table.ctxs[k] in table.ctxs && table.ctxs[k].fromaddr == s.out.ctxs[k].fromaddr
    ensures table.ctxs[k].fd == s.out.ctxs[k].fd
  {
    assert table.ctxs[k].Shows(table.view[k]);
  }

  lemma StillUnread(before: seq<Ctx>, after: seq<Ctx>, k: nat)
    requires Grew(before, after) && k < |before|
    ensures k < |after| && after[k].rx == before[k].rx
  {
    assert after[k].(wbuf := before[k].wbuf) == before[k];
  }

  lemma Means(scratch: Arena, table: ST.Table, peers: PeerTable, d: Loop, s: State)
    requires InMemory(scratch, table, peers, d, s)
    ensures table.Valid() && s.out.ctxs == table.view && |table.view| == |table.ctxs| && s.up
    ensures scratch.Valid() && scratch != table.arena && scratch.bs != table.arena.bs
    ensures forall c <- table.ctxs :: c.readbuf !in scratch.live && c.writebuf !in scratch.live
  {
  }

  lemma HasBody(rx: Rx)
    requires ReadsBody(rx)
    ensures rx.msglen <= |rx.buf| && rx.buf[..rx.msglen] != []
  {
  }

  /** A length leaves the read buffer. */
  method TakeLength(scratch: Arena, table: ST.Table, peers: PeerTable, ghost s: State, d: Loop, k: nat)
    requires InMemory(scratch, table, peers, d, s) && k < |table.ctxs|
    requires k < |s.out.ctxs| && ReadsLength(s.out.ctxs[k].rx)
    modifies table`view, table.ctxs[k], table.ctxs[k].readbuf, table.arena.bs
    ensures InMemory(scratch, table, peers, d, WithRx(s, k, AfterLength(s.out.ctxs[k].rx)))
  {
    Means(scratch, table, peers, d, s);
    assert table.ctxs[k] in table.ctxs;
    hide ST.Table.Valid, Arena.Valid, PeerTable.Valid, H.NamesFit;
    table.ReadLength(k);
    ScratchKept(scratch);
  }

  /** A message leaves the read buffer. */
  method TakeBody(scratch: Arena, table: ST.Table, peers: PeerTable, ghost s: State, d: Loop, k: nat)
    requires InMemory(scratch, table, peers, d, s) && k < |table.ctxs|
    requires k < |s.out.ctxs| && ReadsBody(s.out.ctxs[k].rx)
    modifies table`view, table.ctxs[k], table.ctxs[k].readbuf, table.arena.bs
    ensures InMemory(scratch, table, peers, d, WithRx(s, k, AfterBody(s.out.ctxs[k].rx)))
  {
    Means(scratch, table, peers, d, s);
    assert table.ctxs[k] in table.ctxs;
    hide ST.Table.Valid, Arena.Valid, PeerTable.Valid, H.NamesFit;
    table.DropBody(k);
    ScratchKept(scratch);
  }

  /** Context `k`'s next message leaves the read buffer once it has been handled. */
  method Deliver(scratch: Arena, table: ST.Table, peers: PeerTable, w: World, ghost s: State, d: Loop, k: nat,
                 msglen: nat, buf: seq<byte>)
    returns (ok: bool, d': Loop)
    requires InMemory(scratch, table, peers, d, s) && k < |table.ctxs|
    requires k < |s.out.ctxs| && s.out.ctxs[k].rx == Rx(msglen, buf) && ReadsBody(Rx(msglen, buf)) && msglen < 65536
    modifies table, (set c <- table.ctxs :: c.writebuf), table.arena`pos, table.arena`live, table.arena.bs
    modifies table.ctxs[k], table.ctxs[k].readbuf, scratch.bs, peers
    ensures var t := Handled(w, s, s.out.ctxs[k].fromaddr, buf[..msglen]);
            && (ok ==> t.up && k < |t.out.ctxs|)
            && (ok ==> InMemory(scratch, table, peers, d', WithRx(t, k, AfterBody(Rx(msglen, buf)))))
            && (ok || !t.up || ST.Crowded(table.arena.pos, table.arena.bs.Length, LONGEST))
    ensures ok ==> d.attempts <= d'.attempts && table.Added(d'.attempts - d.attempts)
  {
    hide *;
    HasBody(Rx(msglen, buf));
    Means(scratch, table, peers, d, s);
    Unread(table, s, k);
    ghost var from := s.out.ctxs[k].fromaddr;
    HandledKeeps(w, s, from, buf[..msglen]);
    ok, d' := Handle(scratch, table, peers, w, s, d, table.ctxs[k].fromaddr, buf[..msglen]);
    if ok {
      ghost var t := Handled(w, s, from, buf[..msglen]);
      Means(scratch, table, peers, d', t);
      StillUnread(s.out.ctxs, t.out.ctxs, k);
      table.AddedBehind(d'.attempts - d.attempts);
      TakeBody(scratch, table, peers, t, d', k);
    }
  }

  /** The context that messages come from stays where it is while they are handled. */
  lemma SameSender(w: World, s: State, k: nat, msgs: seq<seq<byte>>)
    requires k < |s.out.ctxs| && NonEmpty(msgs)
    ensures var h := HandledAll(w, s, s.out.ctxs[k].fromaddr, msgs);
            k < |h.out.ctxs| && h.out.ctxs[k].fromaddr == s.out.ctxs[k].fromaddr
  {
    hide HandledAll;
    var h := HandledAll(w, s, s.out.ctxs[k].fromaddr, msgs);
    Streams.HandledAllGrew(w, s, s.out.ctxs[k].fromaddr, msgs);
    assert h.out.ctxs[k].(wbuf := s.out.ctxs[k].wbuf) == s.out.ctxs[k];
  }

  /** In the middle of the receive loop over what context `k` of `s` has unread: the messages
      `done` have been handled, which led to `h`, and `rx` is still unread. */
  ghost predicate Midway(w: World, s: State, k: nat, h: State, done: seq<seq<byte>>, rx: Rx) {
    && k < |s.out.ctxs| && k < |h.out.ctxs| && h.up && NonEmpty(done) && rx.msglen < 65536
    && h == HandledAll(w, s, s.out.ctxs[k].fromaddr, done)
    && Drain(s.out.ctxs[k].rx) == (var d := Drain(rx); d.(msgs := done + d.msgs))
  }

  lemma MidwayStart(w: World, s: State, k: nat)
    requires k < |s.out.ctxs| && s.up && s.out.ctxs[k].rx.msglen < 65536
    ensures Midway(w, s, k, s, [], s.out.ctxs[k].rx) && WithRx(s, k, s.out.ctxs[k].rx) == s
  {
    hide Drain, WithRx;
    StartDraining(w, s, k);
  }

  lemma MidwayLength(w: World, s: State, k: nat, h: State, done: seq<seq<byte>>, rx: Rx)
    requires Midway(w, s, k, h, done, rx) && ReadsLength(rx)
    ensures Midway(w, s, k, h, done, AfterLength(rx))
    ensures var u := WithRx(h, k, rx);
            u.out.ctxs[k].rx == rx && WithRx(u, k, AfterLength(rx)) == WithRx(h, k, AfterLength(rx))
  {
    hide Drain, HandledAll;
    DrainStep(rx);
    WithRxTwice(h, k, rx, AfterLength(rx));
  }

  lemma MidwayBody(w: World, s: State, k: nat, h: State, done: seq<seq<byte>>, rx: Rx) returns (t: State)
    requires Midway(w, s, k, h, done, rx) && ReadsBody(rx)
    ensures var u, body := WithRx(h, k, rx), rx.buf[..rx.msglen];
            && u.out.ctxs[k].rx == rx && body != [] && rx.msglen < 65536
            && (var v := Handled(w, u, u.out.ctxs[k].fromaddr, body);
                && v.up == t.up
                && (t.up ==> Midway(w, s, k, t, done + [body], AfterBody(rx)) && k < |v.out.ctxs| == |t.out.ctxs|
                             && WithRx(v, k, AfterBody(rx)) == WithRx(t, k, AfterBody(rx)))
                && (!t.up ==> !Drained(w, s, k).up))
  {
    hide Drain, HandledAll, Handled;
    DrainStep(rx);
    var body, from, d := rx.buf[..rx.msglen], s.out.ctxs[k].fromaddr, Drain(AfterBody(rx));
    DrainNonEmpty(AfterBody(rx));
    SameSender(w, s, k, done);
    t := MoreHandled(w, s, h, k, rx, from, done, body, d.msgs);
    assert done + ([body] + d.msgs) == (done + [body]) + d.msgs;
  }

  lemma MidwayEnd(w: World, s: State, k: nat, h: State, done: seq<seq<byte>>, rx: Rx)
    requires Midway(w, s, k, h, done, rx) && !ReadsLength(rx) && !ReadsBody(rx)
    ensures WithRx(h, k, rx) == Drained(w, s, k)
    ensures Drain(s.out.ctxs[k].rx).ended == (rx.msglen == 0 && |rx.buf| >= 2)
  {
    hide HandledAll;
    DrainStep(rx);
    assert done + [] == done;
  }

  /** What the table has unread is what the value model says. */
  lemma ShowsRx(table: ST.Table, h: State, k: nat, rx: Rx)
    requires k < |h.out.ctxs| && WithRx(h, k, rx).out.ctxs == table.view
    ensures k < |table.view| && table.view[k].rx == rx
  {
  }

  /** The receive loop over what context `k` has unread, in which handlers add contexts and
      queue bytes: every whole message is handled. `ended` reports a zero length. */
  method Deframe(scratch: Arena, table: ST.Table, peers: PeerTable, w: World, ghost s: State, d: Loop, k: nat)
    returns (ok: bool, ended: bool, d': Loop)
    requires InMemory(scratch, table, peers, d, s) && k < |table.ctxs|
    requires k < |s.out.ctxs| && s.out.ctxs[k].rx.msglen < 65536
    modifies table, (set c <- table.ctxs :: c.writebuf), table.arena`pos, table.arena`live, table.arena.bs
    modifies table.ctxs[k], table.ctxs[k].readbuf, scratch.bs, peers
    ensures ok ==> InMemory(scratch, table, peers, d', Drained(w, s, k)) && ended == Drain(s.out.ctxs[k].rx).ended
    ensures ok ==> d.attempts <= d'.attempts && table.Added(d'.attempts - d.attempts)
    ensures ok || !Drained(w, s, k).up || ST.Crowded(table.arena.pos, table.arena.bs.Length, LONGEST)
  {
    hide InMemory, Midway, Drain, Drained, Handled, HandledAll, WithRx, Value, ST.Table.Valid, ST.Crowded, Arena.Valid;
    Means(scratch, table, peers, d, s);
    MidwayStart(w, s, k);
    ghost var h, done, rx := s, [], s.out.ctxs[k].rx;
    ok, ended, d' := true, false, d;
    while true
      invariant ok && !ended && Midway(w, s, k, h, done, rx) && k < |h.out.ctxs|
      invariant InMemory(scratch, table, peers, d', WithRx(h, k, rx))
      invariant d.attempts <= d'.attempts && table.Added(d'.attempts - d.attempts)
      decreases |rx.buf|
    {
      Means(scratch, table, peers, d', WithRx(h, k, rx));
      ShowsRx(table, h, k, rx);
      var msglen, buf := table.Unread(k);
      if msglen == 0 {
        if |buf| < 2 {
          break;
        }
        if Value(buf[..2]) == 0 {
          ended := true;
          break;
        }
        MidwayLength(w, s, k, h, done, rx);
        TakeLength(scratch, table, peers, WithRx(h, k, rx), d', k);
        rx := AfterLength(rx);
      } else {
        if |buf| < msglen {
          break;
        }
        ghost var t := MidwayBody(w, s, k, h, done, rx);
        ok, d' := Deliver(scratch, table, peers, w, WithRx(h, k, rx), d', k, msglen, buf);
        if !ok {
          return;
        }
        h, done, rx := t, done + [rx.buf[..rx.msglen]], AfterBody(rx);
      }
    }
    MidwayEnd(w, s, k, h, done, rx);
  }

  /** Message lengths are 16 bits wide. */
  predicate ShortLengths(ctxs: seq<Ctx>) {
    forall k :: 0 <= k < |ctxs| ==> ctxs[k].rx.msglen < 65536
  }

  function Bigger(a: nat, b: nat): nat {
    if a > b then a else b
  }

  /** What has arrived joins the unread bytes of context `k`. */
  method Arrive(scratch: Arena, table: ST.Table, peers: PeerTable, ghost s: State, d: Loop, k: nat, io: seq<RecvEvent>)
    returns (ok: bool, z: Status)
    requires InMemory(scratch, table, peers, d, s) && k < |table.ctxs| && k < |s.out.ctxs|
    modifies table`view, table.ctxs[k].readbuf, table.arena`pos, table.arena.bs
    ensures var rx := s.out.ctxs[k].rx;
            ok ==> z == Received(io).1
                   && InMemory(scratch, table, peers, d, WithRx(s, k, rx.(buf := rx.buf + Received(io).0)))
    ensures !ok ==> ST.Crowded(table.arena.pos, table.arena.bs.Length, |Received(io).0|)
  {
    hide ST.Table.Valid, Arena.Valid, PeerTable.Valid, H.NamesFit, ST.Crowded, Received;
    Means(scratch, table, peers, d, s);
    assert table.ctxs[k] in table.ctxs;
    ghost var pos := table.arena.pos;
    ok, z := table.Receive(k, io);
    if ok {
      ScratchKept(scratch);
    } else {
      ST.CrowdedLater(pos, table.arena.pos, table.arena.bs.Length, |Received(io).0|, |Received(io).0|);
    }
  }

  /** The connection of context `k` ended. */
  method HangUp(scratch: Arena, table: ST.Table, peers: PeerTable, ghost s: State, d: Loop, k: nat, fd: nat)
    returns (d': Loop)
    requires InMemory(scratch, table, peers, d, s) && k < |table.ctxs| && k < |s.out.ctxs| && s.out.ctxs[k].fd == fd
    modifies table, table.ctxs[k], table.arena`pos, table.arena`live
    ensures InMemory(scratch, table, peers, d', Ended(s, k)) && table.OnlyNew()
  {
    hide ST.Table.Valid, Arena.Valid, PeerTable.Valid, H.NamesFit;
    Means(scratch, table, peers, d, s);
    d' := d.(readfds := d.readfds - {fd});
    assert table.ctxs[k] in table.ctxs;
    var empty := table.NothingQueued(k);
    table.SetShutRd(k);
    if empty {
      SameRemoved(s.out.ctxs, k, s.out.ctxs[k].(shutRd := true));
      table.CloseAndRemove(k);
    }
    ScratchKept(scratch);
  }

  lemma SameRemoved(ctxs: seq<Ctx>, k: nat, c: Ctx)
    requires k < |ctxs|
    ensures Remove(ctxs[k := c], k) == Remove(ctxs, k)
  {
  }

  lemma FoundAt(ctxs: seq<Ctx>, fd: nat)
    requires FindFd(ctxs, fd) >= 0 && ShortLengths(ctxs)
    ensures var k := FindFd(ctxs, fd); ctxs[k].fd == fd && ctxs[k].rx.msglen < 65536
  {
  }

  /** A connection has bytes or has ended: its bytes are read into the arena, every message that
      is whole is handled from there, and the connection goes if it ended. */
  method ReadReady(scratch: Arena, table: ST.Table, peers: PeerTable, w: World, ghost s: State, d: Loop, fd: nat,
                   io: seq<RecvEvent>)
    returns (ok: bool, d': Loop)
    requires InMemory(scratch, table, peers, d, s) && ShortLengths(s.out.ctxs)
    modifies table, (set c <- table.ctxs :: c.writebuf), table.arena`pos, table.arena`live, table.arena.bs
    modifies (set c <- table.ctxs), (set c <- table.ctxs :: c.readbuf), scratch.bs, peers
    ensures ok ==> InMemory(scratch, table, peers, d', ReadFrom(w, s, fd, io)) && table.OnlyNew()
    ensures ok || !ReadFrom(w, s, fd, io).up
            || ST.Crowded(table.arena.pos, table.arena.bs.Length, Bigger(LONGEST, |Received(io).0|))
  {
    hide InMemory, Drain, Drained, WithRx, ReadFrom, Received, ST.Table.Valid, ST.Table.Added, ST.Crowded, Arena.Valid;
    hide FindFd, ShortLengths, Ended;
    Means(scratch, table, peers, d, s);
    ok, d' := true, d;
    var k := table.FindByFd(fd);
    if k == -1 {
      Runs.NotFound(w, s, fd, io);
      return;
    }
    Runs.ReadSteps(w, s, fd, io);
    FoundAt(s.out.ctxs, fd);
    ghost var rx := s.out.ctxs[k].rx.(buf := s.out.ctxs[k].rx.buf + Received(io).0);
    ghost var u := WithRx(s, k, rx);
    assert table.ctxs[k] in table.ctxs;
    var z;
    ok, z := Arrive(scratch, table, peers, s, d, k, io);
    if ok {
      Means(scratch, table, peers, d, u);
      label Draining:
      var ended;
      ok, ended, d' := Deframe(scratch, table, peers, w, u, d, k);
      if ok {
        ghost var t := Drained(w, u, k);
        table.AddedBehind@Draining(d'.attempts - d.attempts);
        Means(scratch, table, peers, d', t);
        if ended || z == Finished {
          d' := HangUp(scratch, table, peers, t, d', k, fd);
        }
      } else if Drained(w, u, k).up {
        More(table, LONGEST, Bigger(LONGEST, |Received(io).0|));
      }
    } else {
      More(table, |Received(io).0|, Bigger(LONGEST, |Received(io).0|));
    }
  }

  lemma More(table: ST.Table, m: nat, n: nat)
    requires ST.Crowded(table.arena.pos, table.arena.bs.Length, m) && m <= n
    ensures ST.Crowded(table.arena.pos, table.arena.bs.Length, n)
  {
  }

  /** What is queued for context `k` is sent as far as the socket takes it; an error drops the rest. */
  method Flush(scratch: Arena, table: ST.Table, peers: PeerTable, ghost s: State, d: Loop, k: nat, fd: nat,
               io: seq<SendEvent>)
    returns (d': Loop)
    requires InMemory(scratch, table, peers, d, s) && k < |table.ctxs| && k < |s.out.ctxs| && s.out.ctxs[k].fd == fd
    modifies table`view, table.ctxs[k].writebuf, table.arena.bs
    ensures var c := s.out.ctxs[k];
            var (n, z) := SentCount(|c.wbuf|, io);
            var ctxs := s.out.ctxs[k := c.(wbuf := if z == Failed then [] else c.wbuf[n..])];
            InMemory(scratch, table, peers, d', s.(out := WatchedOut(s.out, ctxs, fd, z)))
  {
    hide ST.Table.Valid, Arena.Valid, PeerTable.Valid, H.NamesFit, SentCount;
    Means(scratch, table, peers, d, s);
    assert table.ctxs[k] in table.ctxs;
    var z, taken, writefds, maxfd := table.Flush(k, io, d.writefds, d.maxfd);
    if z == Finished {
      writefds := writefds - {fd};
    }
    if z == Failed {
      writefds := writefds - {fd};
      table.ClearWrite(k);
    }
    d' := d.(writefds := writefds, maxfd := maxfd);
    ScratchKept(scratch);
  }

  /** Watched for writing exactly while bytes are left. */
  function WatchedOut(t: Outbox, ctxs: seq<Ctx>, fd: nat, z: Status): Outbox {
    if z == Pending then Outbox(ctxs, t.writefds + {fd}, if fd > t.maxfd then fd else t.maxfd)
    else Outbox(ctxs, t.writefds - {fd}, t.maxfd)
  }

  /** A connection that was shut for reading goes once nothing is queued. */
  method Close(scratch: Arena, table: ST.Table, peers: PeerTable, ghost s: State, d: Loop, k: nat)
    requires InMemory(scratch, table, peers, d, s) && k < |table.ctxs| && k < |s.out.ctxs|
    modifies table, table.arena`pos, table.arena`live
    ensures var c := s.out.ctxs[k];
            var ctxs := if c.shutRd && c.wbuf == [] then Remove(s.out.ctxs, k) else s.out.ctxs;
            InMemory(scratch, table, peers, d, s.(out := s.out.(ctxs := ctxs)))
    ensures forall c <- table.ctxs :: c in old(table.ctxs)
  {
    hide ST.Table.Valid, Arena.Valid, PeerTable.Valid, H.NamesFit;
    Means(scratch, table, peers, d, s);
    var empty := table.NothingQueued(k);
    var shut := table.IsShut(k);
    if shut && empty {
      table.CloseAndRemove(k);
    }
    ScratchKept(scratch);
  }

  /** The account of what was sent is no part of the program. */
  lemma WithoutLog(scratch: Arena, table: ST.Table, peers: PeerTable, d: Loop, s: State, log: Log)
    requires InMemory(scratch, table, peers, d, s)
    ensures InMemory(scratch, table, peers, d, s.(log := log))
  {
  }

  /** What writing comes to, from the steps it is made of. */
  lemma WriteSteps(s: State, fd: nat, io: seq<SendEvent>)
    requires FindFd(s.out.ctxs, fd) >= 0
    ensures var k := FindFd(s.out.ctxs, fd);
            var c := s.out.ctxs[k];
            var (n, z) := SentCount(|c.wbuf|, io);
            var flushed := s.out.ctxs[k := c.(wbuf := if z == Failed then [] else c.wbuf[n..])];
            var u := s.(out := WatchedOut(s.out, flushed, fd, z));
            var ctxs := if flushed[k].shutRd && flushed[k].wbuf == [] then Remove(flushed, k) else flushed;
            && c.fd == fd && k < |u.out.ctxs| && u.out.ctxs == flushed
            && WriteTo(s, fd, io) == u.(out := u.out.(ctxs := ctxs)).(log := AfterFlush(s.log, fd, c.wbuf[..n], z))
  {
    hide SentCount, AfterFlush, FindFd;
    var k := FindFd(s.out.ctxs, fd);
    Streams.FoundFd(s.out.ctxs, fd);
    var c := s.out.ctxs[k];
    var (n, z) := SentCount(|c.wbuf|, io);
    SameRemoved(s.out.ctxs, k, c.(wbuf := if z == Failed then [] else c.wbuf[n..]));
  }

  /** An outgoing connection takes bytes again. */
  method WriteReady(scratch: Arena, table: ST.Table, peers: PeerTable, ghost s: State, d: Loop, fd: nat,
                    io: seq<SendEvent>)
    returns (d': Loop)
    requires InMemory(scratch, table, peers, d, s)
    modifies table, (set c <- table.ctxs :: c.writebuf), table.arena`pos, table.arena`live, table.arena.bs
    ensures InMemory(scratch, table, peers, d', WriteTo(s, fd, io)) && forall c <- table.ctxs :: c in old(table.ctxs)
  {
    hide InMemory, WriteTo, SentCount, AfterFlush, WatchedOut, ST.Table.Valid, Arena.Valid, FindFd, Remove;
    Means(scratch, table, peers, d, s);
    d' := d;
    var k := table.FindByFd(fd);
    if k == -1 {
      NotFoundOut(s, fd, io);
      return;
    }
    WriteSteps(s, fd, io);
    assert table.ctxs[k] in table.ctxs;
    ghost var c := s.out.ctxs[k];
    ghost var n, z := SentCount(|c.wbuf|, io).0, SentCount(|c.wbuf|, io).1;
    ghost var flushed := s.out.ctxs[k := c.(wbuf := if z == Failed then [] else c.wbuf[n..])];
    ghost var u := s.(out := WatchedOut(s.out, flushed, fd, z));
    d' := Flush(scratch, table, peers, s, d, k, fd, io);
    Close(scratch, table, peers, u, d', k);
    ghost var ctxs := if flushed[k].shutRd && flushed[k].wbuf == [] then Remove(flushed, k) else flushed;
    WithoutLog(scratch, table, peers, d', u.(out := u.out.(ctxs := ctxs)), AfterFlush(s.log, fd, c.wbuf[..n], z));
  }

  lemma NotFoundOut(s: State, fd: nat, io: seq<SendEvent>)
    requires FindFd(s.out.ctxs, fd) == -1
    ensures WriteTo(s, fd, io) == s
  {
  }

  /** A new connection, unless there is none or it is not IPv4. */
  method Accept(scratch: Arena, table: ST.Table, peers: PeerTable, w: World, ghost s: State, d: Loop, a: Accepted)
    returns (ok: bool, d': Loop)
    requires InMemory(scratch, table, peers, d, s)
    modifies table, table.arena`pos, table.arena`live
    ensures ok ==> InMemory(scratch, table, peers, d', Joined(w, s, a)) && table.OnlyNew()
    ensures ok || ST.Crowded(table.arena.pos, table.arena.bs.Length, LONGEST)
  {
    hide ST.Table.Valid, Arena.Valid, PeerTable.Valid, H.NamesFit, ST.Crowded, FindFd, Fds;
    Means(scratch, table, peers, d, s);
    ok, d' := true, d;
    if !a.ok || a.fd == w.listenfd {
      return;
    }
    InUse(s.out.ctxs, a.fd);
    var k := table.FindByFd(a.fd);
    if k != -1 || !a.ipv4 {
      return;
    }
    ghost var pos, space := table.arena.pos, table.SlotSpace();
    table.SlotsInArena();
    ok := table.NewCtx(a.fd, a.fromaddr, 0, 64, 1);
    if !ok {
      ST.TailCrowded(pos, space, table.arena.bs.Length, LONGEST);
      ST.CrowdedLater(pos, table.arena.pos, table.arena.bs.Length, LONGEST, LONGEST);
      return;
    }
    ScratchKept(scratch);
    d' := d.(readfds := d.readfds + {a.fd}, maxfd := if a.fd > d.maxfd then a.fd else d.maxfd);
  }

  lemma InUse(ctxs: seq<Ctx>, fd: nat)
    ensures fd in Fds(ctxs) <==> FindFd(ctxs, fd) != -1
  {
    if FindFd(ctxs, fd) != -1 {
      assert ctxs[FindFd(ctxs, fd)] in ctxs;
    }
  }

  /** One descriptor of the scan, in memory. */
  method ServeFd(scratch: Arena, table: ST.Table, peers: PeerTable, w: World, ghost s: State, d: Loop, r: Ready, i: nat)
    returns (ok: bool, d': Loop)
    requires InMemory(scratch, table, peers, d, s) && ShortLengths(s.out.ctxs)
    modifies table, (set c <- table.ctxs :: c.writebuf), table.arena`pos, table.arena`live, table.arena.bs
    modifies (set c <- table.ctxs), (set c <- table.ctxs :: c.readbuf), scratch.bs, peers
    ensures ok ==> InMemory(scratch, table, peers, d', Serve(w, s, r, i)) && table.OnlyNew()
    ensures ok || i in r.read
    ensures ok || !Serve(w, s, r, i).up
            || ST.Crowded(table.arena.pos, table.arena.bs.Length, Bigger(LONGEST, |Received(r.recv(i)).0|))
  {
    hide InMemory, ReadFrom, WriteTo, Joined, Received, ST.Table.Valid, ST.Crowded, Arena.Valid, ShortLengths;
    ok, d' := true, d;
    if i in r.read {
      if i == w.listenfd {
        ok, d' := Accept(scratch, table, peers, w, s, d, r.accepted);
        if !ok {
          More(table, LONGEST, Bigger(LONGEST, |Received(r.recv(i)).0|));
        }
      } else {
        ok, d' := ReadReady(scratch, table, peers, w, s, d, i, r.recv(i));
      }
    }
    if ok {
      ghost var t := if i !in r.read then s
                     else if i == w.listenfd then Joined(w, s, r.accepted) else ReadFrom(w, s, i, r.recv(i));
      Means(scratch, table, peers, d', t);
      if i in r.write {
        d' := WriteReady(scratch, table, peers, t, d', i, r.send(i));
      }
    }
  }

  /** Message lengths have 16 bits, and the names in the table 16 bytes. */
  ghost predicate Fits(s: State) {
    ShortLengths(s.out.ctxs) && H.NamesFit(s.peers)
  }

  lemma {:induction false} DrainShort(rx: Rx)
    requires rx.msglen < 65536
    ensures Drain(rx).rx.msglen < 65536
    decreases |rx.buf|
  {
    DrainStep(rx);
    if ReadsLength(rx) {
      DrainShort(AfterLength(rx));
    } else if ReadsBody(rx) {
      DrainShort(AfterBody(rx));
    }
  }

  lemma {:induction false} SendAllShort(w: World, s: State, sends: seq<Packet>)
    requires ShortLengths(s.out.ctxs)
    ensures ShortLengths(SendAll(w, s, sends).out.ctxs)
    decreases |sends|
  {
    hide SentCount, FindTo, Answer, AfterSend;
    if sends != [] {
      SendAllShort(w, s, sends[..|sends| - 1]);
    }
  }

  lemma {:induction false} HandledAllFits(w: World, s: State, fromaddr: nat, msgs: seq<seq<byte>>)
    requires Fits(s) && NonEmpty(msgs)
    ensures Fits(HandledAll(w, s, fromaddr, msgs))
    decreases |msgs|
  {
    hide SendAll, Reaction, Packed, H.NamesFit, ShortLengths;
    if msgs != [] {
      var t, body := HandledAll(w, s, fromaddr, msgs[..|msgs| - 1]), msgs[|msgs| - 1];
      HandledAllFits(w, s, fromaddr, msgs[..|msgs| - 1]);
      SendAllShort(w, t, Packed(Reaction(t.peers, fromaddr, body).1));
      H.NamesStayFit(w, t, fromaddr, body);
    }
  }

  lemma ReadFits(w: World, s: State, fd: nat, io: seq<RecvEvent>)
    requires Fits(s)
    ensures Fits(ReadFrom(w, s, fd, io))
  {
    hide HandledAll, Drain, Received, FindFd, H.NamesFit;
    if FindFd(s.out.ctxs, fd) == -1 {
      Runs.NotFound(w, s, fd, io);
    } else {
      Runs.ReadSteps(w, s, fd, io);
      var k := FindFd(s.out.ctxs, fd);
      var c := s.out.ctxs[k];
      var rx := c.rx.(buf := c.rx.buf + Received(io).0);
      DrainShort(rx);
      DrainNonEmpty(rx);
      HandledAllFits(w, WithRx(s, k, rx), c.fromaddr, Drain(rx).msgs);
      DrainedFits(w, WithRx(s, k, rx), k);
      EndedFits(Drained(w, WithRx(s, k, rx), k), k);
    }
  }

  lemma DrainedFits(w: World, s: State, k: nat)
    requires k < |s.out.ctxs| && Fits(s)
    ensures Fits(Drained(w, s, k))
  {
    hide HandledAll, Drain, H.NamesFit;
    var c := s.out.ctxs[k];
    DrainShort(c.rx);
    DrainNonEmpty(c.rx);
    HandledAllFits(w, s, c.fromaddr, Drain(c.rx).msgs);
  }

  lemma EndedFits(s: State, k: nat)
    requires k < |s.out.ctxs| && Fits(s)
    ensures Fits(Ended(s, k))
  {
    hide H.NamesFit;
  }

  lemma WriteFits(s: State, fd: nat, io: seq<SendEvent>)
    requires Fits(s)
    ensures Fits(WriteTo(s, fd, io))
  {
    hide SentCount, FindFd, AfterFlush, H.NamesFit;
  }

  lemma JoinFits(w: World, s: State, a: Accepted)
    requires Fits(s)
    ensures Fits(Joined(w, s, a))
  {
    hide Fds, H.NamesFit;
  }

  lemma ServeFits(w: World, s: State, r: Ready, i: nat)
    requires Fits(s)
    ensures Fits(Serve(w, s, r, i))
  {
    hide ReadFrom, WriteTo, Joined, Fits;
    ReadFits(w, s, i, r.recv(i));
    JoinFits(w, s, r.accepted);
    var t := if i !in r.read then s
             else if i == w.listenfd then Joined(w, s, r.accepted) else ReadFrom(w, s, i, r.recv(i));
    WriteFits(t, i, r.send(i));
  }

  /** In every state that a run of the loop can reach this holds. */
  lemma {:induction false} RunFits(w: World, s: State, steps: seq<Streams.Step>)
    requires Fits(s)
    ensures Fits(Streams.Run(w, s, steps))
    decreases |steps|
  {
    hide Serve, Fits;
    if steps != [] {
      var (r, i) := steps[|steps| - 1];
      RunFits(w, s, steps[..|steps| - 1]);
      ServeFits(w, Streams.Run(w, s, steps[..|steps| - 1]), r, i);
    }
  }

  lemma {:induction false} SendAllMaxfd(w: World, s: State, sends: seq<Packet>)
    ensures s.out.maxfd <= SendAll(w, s, sends).out.maxfd
    decreases |sends|
  {
    hide SentCount, FindTo, Answer, AfterSend;
    if sends != [] {
      SendAllMaxfd(w, s, sends[..|sends| - 1]);
    }
  }

  lemma {:induction false} HandledAllMaxfd(w: World, s: State, fromaddr: nat, msgs: seq<seq<byte>>)
    requires NonEmpty(msgs)
    ensures s.out.maxfd <= HandledAll(w, s, fromaddr, msgs).out.maxfd
    decreases |msgs|
  {
    hide SendAll, Reaction, Packed;
    if msgs != [] {
      var t, body := HandledAll(w, s, fromaddr, msgs[..|msgs| - 1]), msgs[|msgs| - 1];
      HandledAllMaxfd(w, s, fromaddr, msgs[..|msgs| - 1]);
      SendAllMaxfd(w, t, Packed(Reaction(t.peers, fromaddr, body).1));
    }
  }

  /** The bound of the scan only rises. */
  lemma ServeMaxfd(w: World, s: State, r: Ready, i: nat)
    ensures s.out.maxfd <= Serve(w, s, r, i).out.maxfd
  {
    hide HandledAll, Drain, Received, FindFd, Fds, SentCount, AfterFlush;
    var k, io := FindFd(s.out.ctxs, i), r.recv(i);
    if k != -1 {
      var c := s.out.ctxs[k];
      var rx := c.rx.(buf := c.rx.buf + Received(io).0);
      DrainNonEmpty(rx);
      HandledAllMaxfd(w, WithRx(s, k, rx), c.fromaddr, Drain(rx).msgs);
    }
  }

  lemma HaveFits(scratch: Arena, table: ST.Table, peers: PeerTable, d: Loop, s: State)
    requires InMemory(scratch, table, peers, d, s)
    ensures Fits(s) <==> ShortLengths(s.out.ctxs)
    ensures s.out.maxfd == d.maxfd
  {
    hide ShortLengths;
  }

  /** One descriptor of the scan, if it is ready; `bound` is what the highest one was at first. */
  method ScanFd(scratch: Arena, table: ST.Table, peers: PeerTable, w: World, ghost s: State, ghost t: State, d: Loop,
                r: Ready, i: nat, ghost bound: nat, ghost most: nat)
    returns (ok: bool, d': Loop)
    requires InMemory(scratch, table, peers, d, t) && Fits(t) && bound <= d.maxfd
    requires t == ServeAll(w, s, r, Ascending(r.read + r.write, i)) && forall f <- r.read + r.write :: f <= bound
    requires LONGEST <= most && forall f <- r.read :: |Received(r.recv(f)).0| <= most
    modifies table, (set c <- table.ctxs :: c.writebuf), table.arena`pos, table.arena`live, table.arena.bs
    modifies (set c <- table.ctxs), (set c <- table.ctxs :: c.readbuf), scratch.bs, peers
    ensures var u := ServeAll(w, s, r, Ascending(r.read + r.write, i + 1));
            ok ==> InMemory(scratch, table, peers, d', u) && Fits(u) && table.OnlyNew() && bound <= d'.maxfd
    ensures !(i in r.read || i in r.write) ==> ok && d' == d
    ensures var u := ServeAll(w, s, r, Ascending(r.read + r.write, bound + 1));
            ok || !u.up || ST.Crowded(table.arena.pos, table.arena.bs.Length, most)
  {
    hide InMemory, Fits, ShortLengths, Serve, ServeAll, Ascending, Received, ST.Table.Valid, ST.Crowded, Arena.Valid;
    ServeNext(w, s, r, r.read + r.write, i);
    ok, d' := true, d;
    Means(scratch, table, peers, d, t);
    if i in r.read || i in r.write {
      ghost var u := Serve(w, t, r, i);
      HaveFits(scratch, table, peers, d, t);
      ServeFits(w, t, r, i);
      ServeMaxfd(w, t, r, i);
      ok, d' := ServeFd(scratch, table, peers, w, t, d, r, i);
      if ok {
        HaveFits(scratch, table, peers, d', u);
      } else if u.up {
        More(table, Bigger(LONGEST, |Received(r.recv(i)).0|), most);
      } else {
        ServeDown(w, s, r, r.read + r.write, i + 1, bound + 1);
      }
    }
  }

  /** One pass of the select loop, in memory: all ready descriptors are served in increasing
      order, each once, although accepting and sending may raise the bound of the scan while
      it goes on. `ok` is false where the program aborts: for one of the messages, or because
      the contexts' arena has become crowded. */
  method Scan(scratch: Arena, table: ST.Table, peers: PeerTable, w: World, ghost s: State, d: Loop, r: Ready,
              ghost most: nat)
    returns (ok: bool, d': Loop)
    requires InMemory(scratch, table, peers, d, s) && Fits(s) && forall f <- r.read + r.write :: f <= d.maxfd
    requires LONGEST <= most && forall f <- r.read :: |Received(r.recv(f)).0| <= most
    modifies table, (set c <- table.ctxs :: c.writebuf), table.arena`pos, table.arena`live, table.arena.bs
    modifies (set c <- table.ctxs), (set c <- table.ctxs :: c.readbuf), scratch.bs, peers
    ensures var t := Runs.Pass(w, s, r);
            && (ok ==> InMemory(scratch, table, peers, d', t) && Fits(t))
            && (ok || !t.up || ST.Crowded(table.arena.pos, table.arena.bs.Length, most))
  {
    hide InMemory, Fits, Serve, ServeAll, Ascending, Received, ST.Table.Valid, ST.Crowded, Arena.Valid;
    ghost var fds := r.read + r.write;
    ok, d' := true, d;
    var i := 0;
    HaveFits(scratch, table, peers, d, s);
    ServeStart(w, s, r, fds);
    while i <= d'.maxfd
      invariant ok && d.maxfd <= d'.maxfd && table.OnlyNew()
      invariant var t := ServeAll(w, s, r, Ascending(fds, i)); InMemory(scratch, table, peers, d', t) && Fits(t)
      decreases Waiting(r, i), d'.maxfd + 1 - i
    {
      WaitingNext(r, i);
      ghost var t := ServeAll(w, s, r, Ascending(fds, i));
      ok, d' := ScanFd(scratch, table, peers, w, s, t, d', r, i, d.maxfd, most);
      if !ok {
        return;
      }
      i := i + 1;
    }
    AscendingEnds(fds, d.maxfd + 1, i);
  }
}
