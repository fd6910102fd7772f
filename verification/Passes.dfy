/** What a pass of the tracker's loop does for the descriptors that are reported: queues are
    flushed, connections are accepted and closed. */
module Passes {
  import opened Bytes
  import opened Conservation
  import opened Descriptors
  import opened Framing
  import opened Net
  import opened Runs
  import opened Sockets
  import opened Streams
  import opened Tracker
  import HostAddr

  /** A connection that the tracker opened, with its context in the table. */
  predicate Outgoing(s: State, f: nat) {
    FindFd(s.out.ctxs, f) >= 0 && s.out.ctxs[FindFd(s.out.ctxs, f)].toaddr != 0
  }

  /** A descriptor that is watched and reported for writing is flushed: its socket gets the
      front of the queue, as much as it takes, and the rest stays queued, unless the socket
      fails. It stays watched exactly if something is left to send. */
  lemma ServeFlushes(w: World, s: State, r: Ready, i: nat)
    requires Sound(w.listenfd, s.readfds, s.out) && s.up
    requires i in r.write && i in s.out.writefds && (i in r.read ==> i in s.readfds)
    ensures FindFd(s.out.ctxs, i) >= 0
    ensures var k, t := FindFd(s.out.ctxs, i), Serve(w, s, r, i);
            var q := s.out.ctxs[k].wbuf;
            var (n, z) := SentCount(|q|, r.send(i));
            && Wire(t.log, i) == Wire(s.log, i) + q[..n]
            && Queued(t.out.ctxs, i) == (if z == Failed then [] else q[n..])
            && (i in t.out.writefds <==> z == Pending)
            && (i in t.log.failed <==> i in s.log.failed || z == Failed)
            && t.out.ctxs == s.out.ctxs[k := s.out.ctxs[k].(wbuf := Queued(t.out.ctxs, i))]
            && t.readfds == s.readfds && t.peers == s.peers && t.up
  {
    hide SentCount, FindFd, Sound;
    ReadyIsFound(w.listenfd, s.readfds, s.out, i);
    var k := FindFd(s.out.ctxs, i);
    FoundFd(s.out.ctxs, i);
    SoundQuiet(w.listenfd, s.readfds, s.out, k);
    var c := s.out.ctxs[k];
    var (n, z) := SentCount(|c.wbuf|, r.send(i));
    UpdateFinds(s.out.ctxs, k, c.(wbuf := if z == Failed then [] else c.wbuf[n..]), i);
  }

  /** What others do to connection `f`: it stays, its socket gets nothing, its queue may grow,
      and it is watched as before. */
  ghost predicate Aside(s: State, t: State, f: nat) {
    Outgoing(s, f) ==>
      && Outgoing(t, f) && Wire(t.log, f) == Wire(s.log, f) && (f in t.log.failed <==> f in s.log.failed)
      && Queued(s.out.ctxs, f) <= Queued(t.out.ctxs, f) && (f in t.out.writefds <==> f in s.out.writefds)
  }

  lemma AsideTwice(s: State, t: State, u: State, f: nat)
    requires Aside(s, t, f) && Aside(t, u, f)
    ensures Aside(s, u, f)
  {
  }

  lemma AsideGrew(s: State, t: State, f: nat)
    requires Outgoing(s, f) && Grew(s.out.ctxs, t.out.ctxs)
    ensures Outgoing(t, f) && Queued(s.out.ctxs, f) <= Queued(t.out.ctxs, f)
  {
    hide FindFd;
    GrewQueue(s.out.ctxs, t.out.ctxs, f);
    var k := FindFd(s.out.ctxs, f);
    assert t.out.ctxs[k].(wbuf := s.out.ctxs[k].wbuf) == s.out.ctxs[k];
  }

  lemma SendOneAside(w: World, s: State, toaddr: nat, msg: seq<byte>, f: nat)
    ensures Aside(s, SendOne(w, s, toaddr, msg), f)
  {
    hide SentCount, FindFd, FindTo, Grew;
    var dial := Answer(w, s.out.ctxs, s.attempts);
    if Outgoing(s, f) {
      SendToGrew(s.out, toaddr, msg, dial);
      AsideGrew(s, SendOne(w, s, toaddr, msg), f);
    }
  }

  lemma {:induction false} SendAllAside(w: World, s: State, sends: seq<Packet>, f: nat)
    ensures Aside(s, SendAll(w, s, sends), f)
    decreases |sends|
  {
    hide SendOne;
    if sends != [] {
      hide Aside;
      var init := sends[..|sends| - 1];
      var (toaddr, msg) := sends[|sends| - 1];
      SendAllAside(w, s, init, f);
      SendOneAside(w, SendAll(w, s, init), toaddr, msg, f);
      AsideTwice(s, SendAll(w, s, init), SendAll(w, s, sends), f);
    }
  }

  lemma AsideSelf(s: State, t: State, f: nat)
    requires t.out == s.out && t.log == s.log
    ensures Aside(s, t, f)
  {
  }

  lemma {:induction false} HandledAllAside(w: World, s: State, fromaddr: nat, msgs: seq<seq<byte>>, f: nat)
    requires NonEmpty(msgs)
    ensures Aside(s, HandledAll(w, s, fromaddr, msgs), f)
    decreases |msgs|
  {
    hide SendAll, Reaction, Packed, Aside;
    if msgs == [] {
      AsideSelf(s, s, f);
    } else {
      var t, body := HandledAll(w, s, fromaddr, msgs[..|msgs| - 1]), msgs[|msgs| - 1];
      HandledAllAside(w, s, fromaddr, msgs[..|msgs| - 1], f);
      var u := SendAll(w, t, Packed(Reaction(t.peers, fromaddr, body).1));
      SendAllAside(w, t, Packed(Reaction(t.peers, fromaddr, body).1), f);
      AsideSelf(t, t.(up := false), f);
      AsideSelf(u, u.(up := false), f);
      AsideSelf(u, u.(peers := Reaction(t.peers, fromaddr, body).0), f);
      var v := HandledAll(w, s, fromaddr, msgs);
      assert v == t || v == t.(up := false) || v == u.(up := false)
          || v == u.(peers := Reaction(t.peers, fromaddr, body).0);
      if v == t {
      } else if v == t.(up := false) {
        AsideTwice(s, t, v, f);
      } else {
        AsideTwice(t, u, v, f);
        AsideTwice(s, t, v, f);
      }
    }
  }

  lemma WithRxAside(s: State, k: nat, rx: Rx, f: nat)
    requires k < |s.out.ctxs|
    ensures Aside(s, WithRx(s, k, rx), f)
  {
    hide FindFd;
    UpdateFinds(s.out.ctxs, k, s.out.ctxs[k].(rx := rx), f);
  }

  lemma EndedAside(s: State, k: nat, f: nat)
    requires k < |s.out.ctxs| && s.out.ctxs[k].fd != f
    ensures Aside(s, Ended(s, k), f)
  {
    hide FindFd;
    UpdateFinds(s.out.ctxs, k, s.out.ctxs[k].(shutRd := true), f);
    RemoveFinds(s.out.ctxs, k, f);
  }

  lemma DrainedAside(w: World, s: State, k: nat, f: nat)
    requires k < |s.out.ctxs|
    ensures Aside(s, Drained(w, s, k), f)
  {
    hide Aside, HandledAll, Drain, WithRx;
    var c := s.out.ctxs[k];
    DrainNonEmpty(c.rx);
    var h := HandledAll(w, s, c.fromaddr, Drain(c.rx).msgs);
    HandledAllGrows(w, s, k, c.fromaddr, Drain(c.rx).msgs);
    HandledAllAside(w, s, c.fromaddr, Drain(c.rx).msgs, f);
    WithRxAside(h, k, Drain(c.rx).rx, f);
    AsideTwice(s, h, Drained(w, s, k), f);
  }

  lemma ReadAside(w: World, s: State, i: nat, io: seq<RecvEvent>, f: nat)
    requires i != f
    ensures Aside(s, ReadFrom(w, s, i, io), f)
  {
    hide Aside, Drained, Drain, WithRx, Ended, ReadFrom, Received, FindFd;
    var k := FindFd(s.out.ctxs, i);
    if k == -1 {
      NotFound(w, s, i, io);
      AsideSelf(s, s, f);
    } else {
      ReadSteps(w, s, i, io);
      var rx := s.out.ctxs[k].rx.(buf := s.out.ctxs[k].rx.buf + Received(io).0);
      var u := WithRx(s, k, rx);
      var t := Drained(w, u, k);
      WithRxAside(s, k, rx, f);
      DrainedAside(w, u, k, f);
      AsideTwice(s, u, t, f);
      EndedAside(t, k, f);
      AsideTwice(s, t, Ended(t, k), f);
    }
  }

  lemma WriteAside(s: State, i: nat, io: seq<SendEvent>, f: nat)
    requires i != f
    ensures Aside(s, WriteTo(s, i, io), f)
  {
    hide SentCount, FindFd;
    var k := FindFd(s.out.ctxs, i);
    if k != -1 {
      FoundFd(s.out.ctxs, i);
      var c := s.out.ctxs[k];
      var (n, z) := SentCount(|c.wbuf|, io);
      UpdateFinds(s.out.ctxs, k, c.(wbuf := if z == Failed then [] else c.wbuf[n..]), f);
      RemoveFinds(s.out.ctxs, k, f);
    }
  }

  lemma JoinAside(w: World, s: State, a: Accepted, f: nat)
    ensures Aside(s, Joined(w, s, a), f)
  {
    hide FindFd, Fds;
    AddFinds(s.out.ctxs, NewCtx(a.fd, a.fromaddr, 0), f);
  }

  /** Serving one descriptor leaves every other connection's socket alone. */
  lemma ServeAside(w: World, s: State, r: Ready, i: nat, f: nat)
    requires i != f
    ensures Aside(s, Serve(w, s, r, i), f)
  {
    hide Aside, ReadFrom, WriteTo, Joined;
    AsideSelf(s, s, f);
    ReadAside(w, s, i, r.recv(i), f);
    JoinAside(w, s, r.accepted, f);
    var t := if i !in r.read then s
             else if i == w.listenfd then Joined(w, s, r.accepted) else ReadFrom(w, s, i, r.recv(i));
    WriteAside(t, i, r.send(i), f);
    AsideTwice(s, t, WriteTo(t, i, r.send(i)), f);
  }

  /** What the socket of connection `f` got from the queue, flush by flush. */
  function Flushed(w: World, s: State, steps: seq<Step>, f: nat): seq<byte>
    decreases |steps|
  {
    if steps == [] then []
    else
      var t := Run(w, s, steps[..|steps| - 1]);
      var (r, i) := steps[|steps| - 1];
      Flushed(w, s, steps[..|steps| - 1], f)
      + if t.up && i == f && f in r.write then
          var q := Queued(t.out.ctxs, f);
          q[..SentCount(|q|, r.send(f)).0]
        else []
  }

  /** A step that serves an outgoing connection only writes. */
  lemma OwnStep(w: World, s: State, r: Ready, f: nat)
    requires Proper(w, s) && Honest(s, r, f) && Outgoing(s, f)
    ensures f !in r.read && f != w.listenfd
  {
    hide Conserved, FromSomewhere;
    var k := FindFd(s.out.ctxs, f);
    FoundFd(s.out.ctxs, f);
    if f in s.readfds {
      ListeningIsNone(w, s, k);
      ReadyIsFound(w.listenfd, s.readfds, s.out, f);
    }
    ListeningIsNone(w, s, k);
  }

  lemma ListeningIsNone(w: World, s: State, k: nat)
    requires Proper(w, s) && k < |s.out.ctxs|
    ensures s.out.ctxs[k].fd != w.listenfd
  {
    assert s.out.ctxs[k] in s.out.ctxs;
  }

  lemma OwnServe(w: World, s: State, r: Ready, f: nat)
    requires Proper(w, s) && Honest(s, r, f) && Outgoing(s, f) && s.up
    ensures var q, t := Queued(s.out.ctxs, f), Serve(w, s, r, f);
            && Outgoing(t, f)
            && (f in r.write ==> Wire(t.log, f) == Wire(s.log, f) + q[..SentCount(|q|, r.send(f)).0])
            && (f !in r.write ==> t == s)
  {
    hide Sound, SentCount, FindFd, WriteTo;
    OwnStep(w, s, r, f);
    if f in r.write {
      FoundFd(s.out.ctxs, f);
      ServeFlushes(w, s, r, f);
      var k := FindFd(s.out.ctxs, f);
      UpdateFinds(s.out.ctxs, k, s.out.ctxs[k].(wbuf := Queued(Serve(w, s, r, f).out.ctxs, f)), f);
    }
  }

  /** Over every run: what the socket of a connection has got is what it had got at the start
      and what the flushes took from its queue, in order. The connection stays in the table. */
  lemma {:induction false} RunFlushes(w: World, s: State, steps: seq<Step>, f: nat)
    requires Proper(w, s) && AllHonest(w, s, steps) && Outgoing(s, f)
    ensures Outgoing(Run(w, s, steps), f)
    ensures Wire(Run(w, s, steps).log, f) == Wire(s.log, f) + Flushed(w, s, steps, f)
    decreases |steps|
  {
    hide Proper, Serve, Honest, Outgoing, SentCount, Queued;
    if steps == [] {
      assert Wire(s.log, f) + [] == Wire(s.log, f);
    } else {
      var init := steps[..|steps| - 1];
      var (r, i) := steps[|steps| - 1];
      RunFlushes(w, s, init, f);
      RunProper(w, s, init);
      var t, got := Run(w, s, init), Flushed(w, s, init, f);
      assert got + [] == got;
      if t.up {
        if i == f {
          OwnServe(w, t, r, f);
          if f in r.write {
            var q := Queued(t.out.ctxs, f);
            assert (Wire(s.log, f) + got) + q[..SentCount(|q|, r.send(f)).0]
                == Wire(s.log, f) + (got + q[..SentCount(|q|, r.send(f)).0]);
          }
        } else {
          ServeAside(w, t, r, i, f);
          AsideMeans(t, Serve(w, t, r, i), f);
        }
      }
    }
  }

  lemma AsideMeans(s: State, t: State, f: nat)
    requires Aside(s, t, f) && Outgoing(s, f)
    ensures Outgoing(t, f) && Wire(t.log, f) == Wire(s.log, f)
    ensures Queued(s.out.ctxs, f) <= Queued(t.out.ctxs, f) && (f in t.out.writefds <==> f in s.out.writefds)
  {
  }

  /** The state in a pass when the turn of descriptor `i` comes. */
  function AtTurn(w: World, s: State, r: Ready, i: nat): State {
    ServeAll(w, s, r, Ascending(r.read + r.write, i))
  }

  /** What select reported when the pass began. */
  predicate Announced(s: State, r: Ready) {
    && r.read <= s.readfds && r.write <= s.out.writefds
    && (r.accepted.ipv4 ==> HostAddr.Addr(r.accepted.fromaddr) != 0)
  }

  lemma TurnHonest(w: World, s: State, r: Ready, i: nat)
    requires Proper(w, s) && Announced(s, r)
    ensures var t := AtTurn(w, s, r, i);
            Proper(w, t) && (t.up && i in r.read + r.write ==> Honest(t, r, i))
  {
    hide Proper, Run, ServeAll, Ascending, AllHonest, HostAddr.Addr;
    var order := Ascending(r.read + r.write, i);
    AscendingLists(r.read + r.write, i);
    ScanIsRun(w, s, r, order);
    StepsHonest(w, s, r, order);
    RunProper(w, s, Steps(r, order));
  }

  /** Between two turns of a pass, without that of `f`. */
  lemma {:induction false} TurnsAside(w: World, s: State, r: Ready, m: nat, n: nat, f: nat)
    requires m <= n && !(m <= f < n)
    ensures Aside(AtTurn(w, s, r, m), AtTurn(w, s, r, n), f)
    decreases n
  {
    hide Aside, Serve, ServeAll, Ascending;
    AsideSelf(AtTurn(w, s, r, m), AtTurn(w, s, r, m), f);
    if m < n {
      TurnsAside(w, s, r, m, n - 1, f);
      ServeNext(w, s, r, r.read + r.write, n - 1);
      ServeAside(w, AtTurn(w, s, r, n - 1), r, n - 1, f);
      AsideTwice(AtTurn(w, s, r, m), AtTurn(w, s, r, n - 1), AtTurn(w, s, r, n), f);
    }
  }

  lemma WatchedIsOutgoing(w: World, s: State, i: nat)
    requires Proper(w, s) && i in s.out.writefds
    ensures Outgoing(s, i) && i <= s.out.maxfd
  {
    hide Conserved, FromSomewhere;
    OutgoingIsNoCaller(w.listenfd, s.readfds, s.out, i);
    ReadyIsFound(w.listenfd, s.readfds, s.out, i);
  }

  lemma PassIsTurns(w: World, s: State, r: Ready)
    ensures Pass(w, s, r) == AtTurn(w, s, r, s.out.maxfd + 1)
    ensures AtTurn(w, s, r, 0) == s
  {
  }

  /** The pass ran through, so it had not ended when the turn of `i` came. */
  lemma UpAtTurn(w: World, s: State, r: Ready, i: nat)
    requires Pass(w, s, r).up && i <= s.out.maxfd
    ensures AtTurn(w, s, r, i).up
  {
    hide Serve, ServeAll, Ascending;
    PassIsTurns(w, s, r);
    if !AtTurn(w, s, r, i).up {
      ServeDown(w, s, r, r.read + r.write, i, s.out.maxfd + 1);
    }
  }

  /** Over one pass, every descriptor that is reported for writing is flushed exactly once: its
      socket gets, beside what it had, the front of what is queued when its turn comes, as much
      as it takes; the rest stays queued, perhaps with more behind it. It is watched afterwards
      exactly if something was left. */
  lemma PassFlushes(w: World, s: State, r: Ready, i: nat)
    requires Proper(w, s) && Announced(s, r) && i in r.write && Pass(w, s, r).up
    ensures var q, t := Queued(AtTurn(w, s, r, i).out.ctxs, i), Pass(w, s, r);
            var (n, z) := SentCount(|q|, r.send(i));
            && Queued(s.out.ctxs, i) <= q
            && Wire(t.log, i) == Wire(s.log, i) + q[..n]
            && (if z == Failed then [] else q[n..]) <= Queued(t.out.ctxs, i)
            && (i in t.out.writefds <==> z == Pending)
  {
    hide Proper, Serve, Pass, AtTurn, Outgoing, SentCount, Queued, Aside, HostAddr.Addr, Sound;
    WatchedIsOutgoing(w, s, i);
    PassIsTurns(w, s, r);
    UpAtTurn(w, s, r, i);
    var u, v, t := AtTurn(w, s, r, i), AtTurn(w, s, r, i + 1), Pass(w, s, r);
    TurnsAside(w, s, r, 0, i, i);
    AsideMeans(s, u, i);
    TurnHonest(w, s, r, i);
    ItsTurn(w, s, r, i);
    SoundOf(w, u);
    ServeFlushes(w, u, r, i);
    OwnServe(w, u, r, i);
    QueuedIs(u, i);
    TurnsAside(w, s, r, i + 1, s.out.maxfd + 1, i);
    AsideMeans(v, t, i);
  }

  lemma ItsTurn(w: World, s: State, r: Ready, i: nat)
    requires AtTurn(w, s, r, i).up && i in r.read + r.write
    ensures AtTurn(w, s, r, i + 1) == Serve(w, AtTurn(w, s, r, i), r, i)
  {
    hide Serve, ServeAll, Ascending;
    ServeNext(w, s, r, r.read + r.write, i);
  }

  lemma SoundOf(w: World, s: State)
    requires Proper(w, s)
    ensures Sound(w.listenfd, s.readfds, s.out)
  {
  }

  lemma QueuedIs(s: State, f: nat)
    requires FindFd(s.out.ctxs, f) >= 0
    ensures Queued(s.out.ctxs, f) == s.out.ctxs[FindFd(s.out.ctxs, f)].wbuf
  {
  }

  /** The listening descriptor is reported: an IPv4 connection on a descriptor that is not in
      use is in the table, at the end, with the address it came from, nothing read and nothing
      queued, and is watched for reading; anything else changes nothing. */
  lemma ServeAccepts(w: World, s: State, r: Ready)
    requires Proper(w, s) && Honest(s, r, w.listenfd) && w.listenfd in r.read && s.up
    ensures var t, a, n := Serve(w, s, r, w.listenfd), r.accepted, |s.out.ctxs|;
            if a.ok && a.ipv4 && a.fd != w.listenfd && (forall k :: 0 <= k < n ==> s.out.ctxs[k].fd != a.fd) then
              && |t.out.ctxs| == n + 1 && (forall k :: 0 <= k < n ==> t.out.ctxs[k] == s.out.ctxs[k])
              && t.out.ctxs[n] == Ctx(a.fd, a.fromaddr, 0, Rx(0, []), [], false)
              && FindFd(t.out.ctxs, a.fd) == n
              && t.readfds == s.readfds + {a.fd} && t.out.writefds == s.out.writefds
              && t.out.maxfd == (if a.fd > s.out.maxfd then a.fd else s.out.maxfd)
              && t.peers == s.peers && t.log == s.log && t.attempts == s.attempts && t.up
            else
              t == s
  {
    NotBoth(w, s, r, w.listenfd);
    hide Proper;
    var a := r.accepted;
    if forall k :: 0 <= k < |s.out.ctxs| ==> s.out.ctxs[k].fd != a.fd {
      AddFinds(s.out.ctxs, NewCtx(a.fd, a.fromaddr, 0), a.fd);
    } else {
      var k :| 0 <= k < |s.out.ctxs| && s.out.ctxs[k].fd == a.fd;
      assert s.out.ctxs[k] in s.out.ctxs;
    }
  }

  /** A connection that is read from goes exactly if it ended: with the end of the file, or a
      message of length 0. Otherwise it is watched still, and has unread what is left over. */
  lemma ReadHangsUp(w: World, s: State, f: nat, io: seq<RecvEvent>)
    requires Proper(w, s) && f in s.readfds && f != w.listenfd && ReadFrom(w, s, f, io).up
    ensures var d, t := Feed(RxOf(s, f), Received(io).0), ReadFrom(w, s, f, io);
            var ended := d.ended || Received(io).1 == Finished;
            && (f in t.readfds <==> !ended)
            && (FindFd(t.out.ctxs, f) == -1 <==> ended)
            && (!ended ==> RxOf(t, f) == d.rx)
  {
    hide HandledAll, Drain, Received, FindFd, Proper, HostAddr.Addr;
    Caller(w, s, f);
    var k := FindFd(s.out.ctxs, f);
    var c := s.out.ctxs[k];
    var rx := c.rx.(buf := c.rx.buf + Received(io).0);
    var u := WithRx(s, k, rx);
    var t := Drained(w, u, k);
    ReadSteps(w, s, f, io);
    WithRxProper(w, s, k, rx);
    DrainedProper(w, u, k);
    DrainedWatches(w, u, k);
    SoundOf(w, t);
    SoundDistinct(w.listenfd, t.readfds, t.out);
    SoundQuiet(w.listenfd, t.readfds, t.out, k);
    Alone(t, k, f);
    DrainedRx(w, u, k);
  }

  lemma DrainedRx(w: World, s: State, k: nat)
    requires k < |s.out.ctxs|
    ensures k < |Drained(w, s, k).out.ctxs| && Drained(w, s, k).out.ctxs[k].rx == Drain(s.out.ctxs[k].rx).rx
  {
    hide HandledAll, Drain;
  }

  /** No other context has its descriptor. */
  lemma Alone(s: State, k: nat, f: nat)
    requires Distinct(s.out.ctxs) && k < |s.out.ctxs| && s.out.ctxs[k].fd == f
    ensures FindFd(s.out.ctxs, f) == k && FindFd(Remove(s.out.ctxs, k), f) == -1
  {
    var r := Remove(s.out.ctxs, k);
    assert forall j :: 0 <= j < |r| ==> r[j] == s.out.ctxs[if j < k then j else j + 1];
  }

  /** A connection that ended has its context as long as bytes are queued on it, and no longer:
      it goes at once if there are none, and otherwise with the flush that sends the last of
      them or fails. No other context goes. */
  lemma GoesWhenFlushed(s: State, k: nat, io: seq<SendEvent>)
    requires Distinct(s.out.ctxs) && k < |s.out.ctxs|
    ensures var c, t := s.out.ctxs[k], Ended(s, k);
            var (n, z) := SentCount(|c.wbuf|, io);
            var gone, u := s.out.ctxs[..k] + s.out.ctxs[k + 1..], WriteTo(t, c.fd, io);
            && t.readfds == s.readfds - {c.fd}
            && (c.wbuf == [] ==> t.out.ctxs == gone && FindFd(t.out.ctxs, c.fd) == -1)
            && (c.wbuf != [] ==>
                  && FindFd(t.out.ctxs, c.fd) == k && Queued(t.out.ctxs, c.fd) == c.wbuf
                  && (z != Pending ==> u.out.ctxs == gone && FindFd(u.out.ctxs, c.fd) == -1)
                  && (z == Pending ==>
                        && FindFd(u.out.ctxs, c.fd) == k && Queued(u.out.ctxs, c.fd) == c.wbuf[n..]
                        && |u.out.ctxs| == |s.out.ctxs|
                        && forall j :: 0 <= j < |s.out.ctxs| && j != k ==> u.out.ctxs[j] == s.out.ctxs[j]))
  {
    hide FindFd, SentCount, Distinct;
    var c, t := s.out.ctxs[k], Ended(s, k);
    Alone(s, k, c.fd);
    if c.wbuf != [] {
      MarkedDistinct(s.out.ctxs, k, c.(shutRd := true));
      Alone(t, k, c.fd);
      var (n, z) := SentCount(|c.wbuf|, io);
      if z == Pending {
        MarkedDistinct(t.out.ctxs, k, t.out.ctxs[k].(wbuf := c.wbuf[n..]));
        Alone(WriteTo(t, c.fd, io), k, c.fd);
      }
    }
  }

  lemma MarkedDistinct(ctxs: seq<Ctx>, k: nat, c: Ctx)
    requires Distinct(ctxs) && k < |ctxs| && c.fd == ctxs[k].fd && c.toaddr == ctxs[k].toaddr
    ensures Distinct(ctxs[k := c])
  {
  }

  /** Where connection `f` came from. */
  function CallerOf(s: State, f: nat): nat {
    var k := FindFd(s.out.ctxs, f);
    if k == -1 then 0 else s.out.ctxs[k].fromaddr
  }

  /** Connection `f` is still in the table, from where it was, and watched if it was. */
  ghost predicate SameCaller(s: State, t: State, f: nat) {
    FindFd(s.out.ctxs, f) >= 0 ==>
      && FindFd(t.out.ctxs, f) >= 0 && CallerOf(t, f) == CallerOf(s, f) && (f in s.readfds ==> f in t.readfds)
  }

  lemma SameCallerTwice(s: State, t: State, u: State, f: nat)
    requires SameCaller(s, t, f) && SameCaller(t, u, f)
    ensures SameCaller(s, u, f)
  {
  }

  lemma GrewFrom(before: seq<Ctx>, after: seq<Ctx>, f: nat)
    requires Grew(before, after) && FindFd(before, f) >= 0
    ensures FindFd(after, f) == FindFd(before, f)
    ensures after[FindFd(after, f)].fromaddr == before[FindFd(before, f)].fromaddr
  {
    hide FindFd;
    GrewFinds(before, after, f);
    var k := FindFd(before, f);
    assert after[k].(wbuf := before[k].wbuf) == before[k];
  }

  lemma WithRxCaller(s: State, k: nat, rx: Rx, f: nat)
    requires k < |s.out.ctxs|
    ensures SameCaller(s, WithRx(s, k, rx), f)
  {
    hide FindFd;
    UpdateFinds(s.out.ctxs, k, s.out.ctxs[k].(rx := rx), f);
  }

  lemma DrainedCaller(w: World, s: State, k: nat, f: nat)
    requires k < |s.out.ctxs|
    ensures SameCaller(s, Drained(w, s, k), f)
  {
    hide HandledAll, Drain, WithRx, FindFd, Grew;
    var c := s.out.ctxs[k];
    DrainNonEmpty(c.rx);
    HandledAllGrows(w, s, k, c.fromaddr, Drain(c.rx).msgs);
    HandledAllGrew(w, s, c.fromaddr, Drain(c.rx).msgs);
    var h := HandledAll(w, s, c.fromaddr, Drain(c.rx).msgs);
    if FindFd(s.out.ctxs, f) >= 0 {
      GrewFrom(s.out.ctxs, h.out.ctxs, f);
    }
    WithRxCaller(h, k, Drain(c.rx).rx, f);
  }

  lemma EndedCaller(s: State, k: nat, f: nat)
    requires k < |s.out.ctxs| && s.out.ctxs[k].fd != f
    ensures SameCaller(s, Ended(s, k), f)
  {
    hide FindFd;
    UpdateFinds(s.out.ctxs, k, s.out.ctxs[k].(shutRd := true), f);
    RemoveFinds(s.out.ctxs, k, f);
  }

  /** Reading from any connection, as long as it is not one that ends itself. */
  lemma ReadCaller(w: World, s: State, i: nat, io: seq<RecvEvent>, f: nat)
    requires i != f || f in ReadFrom(w, s, i, io).readfds
    ensures SameCaller(s, ReadFrom(w, s, i, io), f)
  {
    hide SameCaller, Drained, Drain, WithRx, Received, FindFd;
    var k := FindFd(s.out.ctxs, i);
    if k == -1 {
      NotFound(w, s, i, io);
      SameCallerSelf(s, f);
    } else {
      ReadSteps(w, s, i, io);
      var rx := s.out.ctxs[k].rx.(buf := s.out.ctxs[k].rx.buf + Received(io).0);
      var u := WithRx(s, k, rx);
      var t := Drained(w, u, k);
      WithRxCaller(s, k, rx, f);
      DrainedCaller(w, u, k, f);
      SameCallerTwice(s, u, t, f);
      if i != f {
        EndedCaller(t, k, f);
        SameCallerTwice(s, t, Ended(t, k), f);
      }
    }
  }

  lemma SameCallerSelf(s: State, f: nat)
    ensures SameCaller(s, s, f)
  {
  }

  lemma WriteCaller(s: State, i: nat, io: seq<SendEvent>, f: nat)
    requires i != f
    ensures SameCaller(s, WriteTo(s, i, io), f)
  {
    hide SentCount, FindFd;
    var k := FindFd(s.out.ctxs, i);
    if k != -1 {
      FoundFd(s.out.ctxs, i);
      var c := s.out.ctxs[k];
      var (n, z) := SentCount(|c.wbuf|, io);
      UpdateFinds(s.out.ctxs, k, c.(wbuf := if z == Failed then [] else c.wbuf[n..]), f);
      RemoveFinds(s.out.ctxs, k, f);
    }
  }

  lemma JoinCaller(w: World, s: State, a: Accepted, f: nat)
    ensures SameCaller(s, Joined(w, s, a), f)
  {
    hide FindFd, Fds;
    AddFinds(s.out.ctxs, NewCtx(a.fd, a.fromaddr, 0), f);
  }

  lemma ServeCaller(w: World, s: State, r: Ready, i: nat, f: nat)
    requires i == f ==> f !in r.write && f != w.listenfd && f in Serve(w, s, r, i).readfds
    ensures SameCaller(s, Serve(w, s, r, i), f)
  {
    hide SameCaller, ReadFrom, WriteTo, Joined;
    SameCallerSelf(s, f);
    if i == f {
      if f in r.read {
        ReadCaller(w, s, i, r.recv(i), f);
      }
    } else {
      ReadCaller(w, s, i, r.recv(i), f);
      JoinCaller(w, s, r.accepted, f);
      var t := if i !in r.read then s
               else if i == w.listenfd then Joined(w, s, r.accepted) else ReadFrom(w, s, i, r.recv(i));
      WriteCaller(t, i, r.send(i), f);
      SameCallerTwice(s, t, WriteTo(t, i, r.send(i)), f);
    }
  }

  /** As long as a connection is watched it is the one that was accepted. */
  lemma {:induction false} RunCaller(w: World, s: State, steps: seq<Step>, f: nat)
    requires Holds(s, f, Rx(0, [])) && f != w.listenfd && Watched(w, s, steps, f)
    ensures var t := Run(w, s, steps);
            f in t.readfds ==> FindFd(t.out.ctxs, f) >= 0 && CallerOf(t, f) == CallerOf(s, f)
    decreases |steps|
  {
    hide Serve, CallerOf, FindFd;
    if steps != [] {
      var init := steps[..|steps| - 1];
      var (r, i) := steps[|steps| - 1];
      RunCaller(w, s, init, f);
      var t := Run(w, s, init);
      if f in Serve(w, t, r, i).readfds {
        ServeCaller(w, t, r, i, f);
      }
    }
  }

  /** From the accepted connection to the handled messages: whatever is served in between, the
      messages are those of the stream that arrived since the connection was accepted, and each
      read handles its messages as coming from the address that the connection came from. */
  lemma AcceptedStream(w: World, s: State, r: Ready, steps: seq<Step>, io: seq<RecvEvent>)
    requires Proper(w, s) && Honest(s, r, w.listenfd) && w.listenfd in r.read && s.up
    requires r.accepted.ok && r.accepted.ipv4 && r.accepted.fd != w.listenfd
    requires forall k :: 0 <= k < |s.out.ctxs| ==> s.out.ctxs[k].fd != r.accepted.fd
    requires Watched(w, Serve(w, s, r, w.listenfd), steps, r.accepted.fd)
    ensures var f, t := r.accepted.fd, Serve(w, s, r, w.listenfd);
            var u, d := Run(w, t, steps), Deframe(Concat(Chunks(w, steps, f)));
            && Streams.Messages(w, t, steps, f) == d.msgs
            && (u.up && f in u.readfds ==>
                  && !d.ended && RxOf(u, f) == d.rx && NonEmpty(Feed(d.rx, Received(io).0).msgs)
                  && (var h := HandledAll(w, u, r.accepted.fromaddr, Feed(d.rx, Received(io).0).msgs);
                      var v := ReadFrom(w, u, f, io);
                      v.up == h.up && v.peers == h.peers && v.attempts == h.attempts))
  {
    hide Proper, Honest, Serve, Watched, Run, Deframe, Concat, Chunks;
    hide Streams.Messages, Drain, Received, HandledAll, ReadFrom;
    var f, t := r.accepted.fd, Serve(w, s, r, w.listenfd);
    ServeAccepts(w, s, r);
    StreamOfConnection(w, t, steps, f);
    RunCaller(w, t, steps, f);
    var u := Run(w, t, steps);
    if u.up && f in u.readfds {
      ReadHandles(w, u, f, io);
    }
  }
}
