/** What every step of the tracker's loop keeps, over whole runs of it. */
module Runs {
  import opened Bytes
  import opened Conservation
  import opened Descriptors
  import opened Framing
  import opened Net
  import opened Peers
  import opened Protocol
  import opened Sockets
  import opened Streams
  import opened Tracker
  import Format
  import HostAddr
  import Messages

  /** The tables fit together, and the account of sent bytes balances on every descriptor. */
  ghost predicate Proper(w: World, s: State) {
    && Sound(w.listenfd, s.readfds, s.out) && Conserved(s.out.ctxs, s.log)
    && Reachable(s.peers) && FromSomewhere(s.out.ctxs)
  }

  lemma StartProper(w: World)
    ensures Proper(w, State({w.listenfd}, Outbox([], {}, w.listenfd), [], 0, Log(map[], map[], {}), true))
  {
  }

  predicate ForSomebody(sends: seq<Packet>) {
    forall i :: 0 <= i < |sends| ==> sends[i].0 != 0
  }

  lemma SendOneProper(w: World, s: State, toaddr: nat, msg: seq<byte>)
    requires Proper(w, s) && toaddr != 0
    ensures Proper(w, SendOne(w, s, toaddr, msg))
  {
    hide Sound, Conserved, SentCount, SendTo, AfterSend, Fds, FromSomewhere, Reachable, Answer;
    var dial := Answer(w, s.out.ctxs, s.attempts);
    AnswerFresh(w, s.out, s.attempts);
    SoundDistinct(w.listenfd, s.readfds, s.out);
    SendKeeps(w.listenfd, s.readfds, s.out, toaddr, msg, dial);
    SendConserves(w.listenfd, s.out, s.log, toaddr, msg, dial);
    SendKeepsCallers(s.out, toaddr, msg, dial);
  }

  lemma {:induction false} SendAllProper(w: World, s: State, sends: seq<Packet>)
    requires Proper(w, s) && ForSomebody(sends)
    ensures Proper(w, SendAll(w, s, sends))
    decreases |sends|
  {
    hide SendOne, Proper;
    if sends != [] {
      SendAllProper(w, s, sends[..|sends| - 1]);
      SendOneProper(w, SendAll(w, s, sends[..|sends| - 1]), sends[|sends| - 1].0, sends[|sends| - 1].1);
    }
  }

  predicate SomebodySent(sends: seq<Send>) {
    forall i :: 0 <= i < |sends| ==> sends[i].0 != 0
  }

  lemma {:induction false} BroadcastForSomebody(peers: seq<Peer>, n: Messages.News)
    requires Reachable(peers)
    ensures SomebodySent(Broadcast(peers, n))
  {
    if peers != [] {
      BroadcastForSomebody(peers[..|peers| - 1], n);
    }
  }

  lemma {:induction false} ReplayForSomebody(peers: seq<Peer>, toaddr: nat)
    requires toaddr != 0
    ensures SomebodySent(Replay(peers, toaddr))
  {
    if peers != [] {
      ReplayForSomebody(peers[..|peers| - 1], toaddr);
    }
  }

  /** Whatever a message says, what is sent for it is for somebody, and everybody in the table
      listens somewhere. */
  lemma ReactionProper(peers: seq<Peer>, fromaddr: nat, body: seq<byte>)
    requires Reachable(peers) && HostAddr.Addr(fromaddr) != 0 && body != []
    ensures Reachable(Reaction(peers, fromaddr, body).0)
    ensures ForSomebody(Packed(Reaction(peers, fromaddr, body).1))
  {
    hide KnockOf, Broadcast, Replay, FindFrom, Reachable, Leave, Create, Format.CString, HostAddr.Addr;
    var u := KnockOf(body);
    var toaddr := HostAddr.WithPort(fromaddr, Number16(u.outs[3]));
    var alias, hostname := Format.TextOf(u.outs[1]), Format.TextOf(u.outs[2]);
    HostAddr.ListenAddress(fromaddr, Number16(u.outs[3]));
    NotNowhere(toaddr);
    JoinReachable(peers, alias, hostname, fromaddr, toaddr);
    BroadcastForSomebody(peers, Messages.Online(alias, hostname, fromaddr, toaddr));
    ReplayForSomebody(peers, toaddr);
    LeaveReachable(peers, fromaddr);
    BroadcastForSomebody(Leave(peers, fromaddr), Messages.Offline(fromaddr));
  }

  lemma NotNowhere(a: nat)
    requires HostAddr.Addr(a) != 0
    ensures a != 0
  {
  }

  lemma HandledProper(w: World, s: State, fromaddr: nat, body: seq<byte>)
    requires Proper(w, s) && HostAddr.Addr(fromaddr) != 0 && body != []
    ensures Proper(w, Handled(w, s, fromaddr, body))
  {
    hide SendAll, Reaction, Packed, Sound, Conserved, FromSomewhere, Reachable, HostAddr.Addr;
    ReactionProper(s.peers, fromaddr, body);
    SendAllProper(w, s, Packed(Reaction(s.peers, fromaddr, body).1));
  }

  lemma {:induction false} HandledAllProper(w: World, s: State, fromaddr: nat, msgs: seq<seq<byte>>)
    requires Proper(w, s) && HostAddr.Addr(fromaddr) != 0 && NonEmpty(msgs)
    ensures Proper(w, HandledAll(w, s, fromaddr, msgs))
    decreases |msgs|
  {
    hide Handled, Proper, HostAddr.Addr;
    if msgs != [] {
      HandledAllProper(w, s, fromaddr, msgs[..|msgs| - 1]);
      HandledProper(w, HandledAll(w, s, fromaddr, msgs[..|msgs| - 1]), fromaddr, msgs[|msgs| - 1]);
    }
  }

  lemma WithRxProper(w: World, s: State, k: nat, rx: Rx)
    requires Proper(w, s) && k < |s.out.ctxs|
    ensures Proper(w, WithRx(s, k, rx))
  {
    hide Sound, Conserved, Reachable;
    SoundQuiet(w.listenfd, s.readfds, s.out, k);
    UpdateKeeps(w.listenfd, s.readfds, s.out, k, s.out.ctxs[k].(rx := rx));
    RxConserves(s.out.ctxs, s.log, k, rx);
  }

  lemma EndedProper(w: World, s: State, k: nat)
    requires Proper(w, s) && k < |s.out.ctxs| && s.out.ctxs[k].toaddr == 0
    ensures Proper(w, Ended(s, k))
  {
    hide Sound, Conserved, Reachable, FromSomewhere, Distinct, Remove;
    SoundQuiet(w.listenfd, s.readfds, s.out, k);
    SoundDistinct(w.listenfd, s.readfds, s.out);
    CloseKeeps(w.listenfd, s.readfds, s.out, k);
    RemoveConserves(s.out.ctxs, s.log, k);
    StillSomewhere(s.out.ctxs, k);
  }

  /** What a read comes to, from the steps it is made of. */
  lemma ReadSteps(w: World, s: State, fd: nat, io: seq<RecvEvent>)
    requires FindFd(s.out.ctxs, fd) >= 0
    ensures var k := FindFd(s.out.ctxs, fd);
            var rx := s.out.ctxs[k].rx.(buf := s.out.ctxs[k].rx.buf + Received(io).0);
            var u := WithRx(s, k, rx);
            var t := Drained(w, u, k);
            && u.out.ctxs[k] == s.out.ctxs[k].(rx := rx)
            && k < |t.out.ctxs| && t.out.ctxs[k].fd == fd && t.out.ctxs[k].toaddr == s.out.ctxs[k].toaddr
            && ReadFrom(w, s, fd, io).up == t.up
            && ReadFrom(w, s, fd, io)
               == if t.up && (Drain(rx).ended || Received(io).1 == Finished) then Ended(t, k) else t
  {
    hide HandledAll, Drain, FindFd;
    var k := FindFd(s.out.ctxs, fd);
    var c := s.out.ctxs[k];
    var rx := c.rx.(buf := c.rx.buf + Received(io).0);
    var u := WithRx(s, k, rx);
    DrainNonEmpty(rx);
    HandledAllGrew(w, u, c.fromaddr, Drain(rx).msgs);
    var h := HandledAll(w, u, c.fromaddr, Drain(rx).msgs);
    assert h.out.ctxs[k].(wbuf := u.out.ctxs[k].wbuf) == u.out.ctxs[k];
    FoundFd(s.out.ctxs, fd);
  }

  lemma NotFound(w: World, s: State, fd: nat, io: seq<RecvEvent>)
    requires FindFd(s.out.ctxs, fd) == -1
    ensures ReadFrom(w, s, fd, io) == s
  {
  }

  lemma DrainedProper(w: World, s: State, k: nat)
    requires Proper(w, s) && k < |s.out.ctxs| && HostAddr.Addr(s.out.ctxs[k].fromaddr) != 0
    ensures Proper(w, Drained(w, s, k))
  {
    hide Proper, HandledAll, Drain, WithRx, HostAddr.Addr;
    var c := s.out.ctxs[k];
    DrainNonEmpty(c.rx);
    HandledAllGrows(w, s, k, c.fromaddr, Drain(c.rx).msgs);
    HandledAllProper(w, s, c.fromaddr, Drain(c.rx).msgs);
    WithRxProper(w, HandledAll(w, s, c.fromaddr, Drain(c.rx).msgs), k, Drain(c.rx).rx);
  }

  lemma Caller(w: World, s: State, fd: nat)
    requires Proper(w, s) && fd in s.readfds && fd != w.listenfd
    ensures var k := FindFd(s.out.ctxs, fd);
            k >= 0 && s.out.ctxs[k].toaddr == 0 && HostAddr.Addr(s.out.ctxs[k].fromaddr) != 0
  {
    ReadyIsFound(w.listenfd, s.readfds, s.out, fd);
  }

  lemma ReadProper(w: World, s: State, fd: nat, io: seq<RecvEvent>)
    requires Proper(w, s) && fd in s.readfds && fd != w.listenfd
    ensures Proper(w, ReadFrom(w, s, fd, io))
  {
    hide Proper, ReadFrom, Drained, WithRx, Ended, Drain, Received, FindFd, HostAddr.Addr;
    Caller(w, s, fd);
    var k := FindFd(s.out.ctxs, fd);
    var rx := s.out.ctxs[k].rx.(buf := s.out.ctxs[k].rx.buf + Received(io).0);
    ReadSteps(w, s, fd, io);
    WithRxProper(w, s, k, rx);
    DrainedProper(w, WithRx(s, k, rx), k);
    if Drained(w, WithRx(s, k, rx), k).up && (Drain(rx).ended || Received(io).1 == Finished) {
      EndedProper(w, Drained(w, WithRx(s, k, rx), k), k);
    }
  }

  lemma WriteProper(w: World, s: State, fd: nat, io: seq<SendEvent>)
    requires Proper(w, s) && fd in s.out.writefds
    ensures Proper(w, WriteTo(s, fd, io))
  {
    hide Sound, Conserved, Reachable, SentCount, FindFd, AfterFlush;
    ReadyIsFound(w.listenfd, s.readfds, s.out, fd);
    var k := FindFd(s.out.ctxs, fd);
    FoundFd(s.out.ctxs, fd);
    var c := s.out.ctxs[k];
    var (n, z) := SentCount(|c.wbuf|, io);
    SoundQuiet(w.listenfd, s.readfds, s.out, k);
    SoundBound(w.listenfd, s.readfds, s.out);
    SoundDistinct(w.listenfd, s.readfds, s.out);
    OutgoingIsNoCaller(w.listenfd, s.readfds, s.out, fd);
    FlushKeeps(w.listenfd, s.readfds, s.out, k, if z == Failed then [] else c.wbuf[n..], z);
    FlushConserves(s.out.ctxs, s.log, k, io);
    assert s.out.writefds + {fd} == s.out.writefds;
  }

  lemma OutgoingIsNoCaller(listenfd: nat, readfds: set<nat>, t: Outbox, fd: nat)
    requires Sound(listenfd, readfds, t) && fd in t.writefds
    ensures FindFd(t.ctxs, fd) >= 0 && t.ctxs[FindFd(t.ctxs, fd)].toaddr != 0
  {
    ReadyIsFound(listenfd, readfds, t, fd);
  }

  lemma JoinProper(w: World, s: State, a: Accepted)
    requires Proper(w, s) && (a.ipv4 ==> HostAddr.Addr(a.fromaddr) != 0)
    ensures Proper(w, Joined(w, s, a))
  {
    hide Sound, Conserved, Reachable, Fds, HostAddr.Addr;
    if a.ok && a.ipv4 && a.fd != w.listenfd && a.fd !in Fds(s.out.ctxs) {
      AcceptKeeps(w.listenfd, s.readfds, s.out, a.fd, a.fromaddr);
      AcceptConserves(s.out.ctxs, s.log, a.fd, a.fromaddr);
    }
  }

  /** A descriptor is reported only for what it is watched for, and connections come from
      somewhere. */
  predicate Honest(s: State, r: Ready, i: nat) {
    && (i in r.read ==> i in s.readfds) && (i in r.write ==> i in s.out.writefds)
    && (r.accepted.ipv4 ==> HostAddr.Addr(r.accepted.fromaddr) != 0)
  }

  /** A descriptor that was served for reading is watched for writing if it was before. */
  lemma ServeProper(w: World, s: State, r: Ready, i: nat)
    requires Proper(w, s) && Honest(s, r, i)
    ensures Proper(w, Serve(w, s, r, i))
  {
    hide Proper, ReadFrom, WriteTo, Joined, HostAddr.Addr;
    NotBoth(w, s, r, i);
    if i in r.read {
      if i == w.listenfd {
        JoinProper(w, s, r.accepted);
      } else {
        ReadProper(w, s, i, r.recv(i));
      }
    } else if i in r.write {
      WriteProper(w, s, i, r.send(i));
    }
  }

  lemma NotBoth(w: World, s: State, r: Ready, i: nat)
    requires Proper(w, s) && Honest(s, r, i)
    ensures !(i in r.read && i in r.write)
  {
    if i in r.read && i in r.write {
      OutgoingIsNoCaller(w.listenfd, s.readfds, s.out, i);
      ReadyIsFound(w.listenfd, s.readfds, s.out, i);
    }
  }

  /** Every step is honest where it is taken. */
  predicate AllHonest(w: World, s: State, steps: seq<Step>)
    decreases |steps|
  {
    steps == []
    || (var init := steps[..|steps| - 1];
        var (r, i) := steps[|steps| - 1];
        AllHonest(w, s, init) && (Run(w, s, init).up ==> Honest(Run(w, s, init), r, i)))
  }

  /** The loop's invariant holds after every run: every descriptor that is watched has its one
      context, and what was handed to a connection is what its socket took and what is queued. */
  lemma {:induction false} RunProper(w: World, s: State, steps: seq<Step>)
    requires Proper(w, s) && AllHonest(w, s, steps)
    ensures Proper(w, Run(w, s, steps))
    decreases |steps|
  {
    hide Proper, Serve, Honest;
    if steps != [] {
      var init := steps[..|steps| - 1];
      var (r, i) := steps[|steps| - 1];
      RunProper(w, s, init);
      if Run(w, s, init).up {
        ServeProper(w, Run(w, s, init), r, i);
      }
    }
  }

  lemma SendOneWatches(w: World, s: State, toaddr: nat, msg: seq<byte>)
    requires Proper(w, s) && toaddr != 0
    ensures s.out.writefds <= SendOne(w, s, toaddr, msg).out.writefds
  {
    hide Sound, Conserved, SentCount, SendTo, AfterSend, Fds, FromSomewhere, Reachable, Answer;
    AnswerFresh(w, s.out, s.attempts);
    SendKeeps(w.listenfd, s.readfds, s.out, toaddr, msg, Answer(w, s.out.ctxs, s.attempts));
  }

  lemma {:induction false} SendAllWatches(w: World, s: State, sends: seq<Packet>)
    requires Proper(w, s) && ForSomebody(sends)
    ensures s.out.writefds <= SendAll(w, s, sends).out.writefds
    decreases |sends|
  {
    hide SendOne, Proper;
    if sends != [] {
      var init := sends[..|sends| - 1];
      SendAllWatches(w, s, init);
      SendAllProper(w, s, init);
      SendOneWatches(w, SendAll(w, s, init), sends[|sends| - 1].0, sends[|sends| - 1].1);
    }
  }

  lemma {:induction false} HandledAllWatches(w: World, s: State, fromaddr: nat, msgs: seq<seq<byte>>)
    requires Proper(w, s) && HostAddr.Addr(fromaddr) != 0 && NonEmpty(msgs)
    ensures var t := HandledAll(w, s, fromaddr, msgs);
            t.readfds == s.readfds && s.out.writefds <= t.out.writefds
    decreases |msgs|
  {
    hide SendAll, Reaction, Packed, Proper, HostAddr.Addr, Reachable;
    if msgs != [] {
      var init, body := msgs[..|msgs| - 1], msgs[|msgs| - 1];
      var t := HandledAll(w, s, fromaddr, init);
      HandledAllWatches(w, s, fromaddr, init);
      HandledAllProper(w, s, fromaddr, init);
      AllReachable(w, t);
      ReactionProper(t.peers, fromaddr, body);
      SendAllWatches(w, t, Packed(Reaction(t.peers, fromaddr, body).1));
      SendAllGrew(w, t, Packed(Reaction(t.peers, fromaddr, body).1));
    }
  }

  lemma AllReachable(w: World, s: State)
    requires Proper(w, s)
    ensures Reachable(s.peers)
  {
  }

  lemma DrainedWatches(w: World, s: State, k: nat)
    requires Proper(w, s) && k < |s.out.ctxs| && HostAddr.Addr(s.out.ctxs[k].fromaddr) != 0
    ensures Drained(w, s, k).readfds == s.readfds && s.out.writefds <= Drained(w, s, k).out.writefds
  {
    hide Proper, HandledAll, Drain, HostAddr.Addr;
    DrainNonEmpty(s.out.ctxs[k].rx);
    HandledAllWatches(w, s, s.out.ctxs[k].fromaddr, Drain(s.out.ctxs[k].rx).msgs);
  }

  /** Serving a descriptor unwatches no other. */
  lemma ServeWatches(w: World, s: State, r: Ready, i: nat)
    requires Proper(w, s) && Honest(s, r, i)
    ensures var t := Serve(w, s, r, i);
            s.readfds - {i} <= t.readfds && s.out.writefds - {i} <= t.out.writefds
  {
    hide Proper, Drained, Drain, Received, FindFd, Fds, SentCount, AfterFlush, HostAddr.Addr, ReadFrom;
    NotBoth(w, s, r, i);
    if i in r.read && i != w.listenfd {
      Caller(w, s, i);
      var k, io := FindFd(s.out.ctxs, i), r.recv(i);
      ReadSteps(w, s, i, io);
      var rx := s.out.ctxs[k].rx.(buf := s.out.ctxs[k].rx.buf + Received(io).0);
      WithRxProper(w, s, k, rx);
      DrainedWatches(w, WithRx(s, k, rx), k);
    }
  }

  /** The steps of a pass. */
  function Steps(r: Ready, order: seq<nat>): (steps: seq<Step>)
    ensures |steps| == |order|
  {
    seq(|order|, i requires 0 <= i < |order| => (r, order[i]))
  }

  lemma {:induction false} StepsHonest(w: World, s: State, r: Ready, order: seq<nat>)
    requires Proper(w, s) && r.read <= s.readfds && r.write <= s.out.writefds
    requires r.accepted.ipv4 ==> HostAddr.Addr(r.accepted.fromaddr) != 0
    requires forall j, k :: 0 <= j < k < |order| ==> order[j] != order[k]
    ensures AllHonest(w, s, Steps(r, order))
    ensures var t := Run(w, s, Steps(r, order));
            t.up ==> forall f :: f !in order ==>
              && (f in s.readfds ==> f in t.readfds) && (f in s.out.writefds ==> f in t.out.writefds)
    decreases |order|
  {
    hide Proper, Serve, HostAddr.Addr;
    if order != [] {
      var init, i := order[..|order| - 1], order[|order| - 1];
      var steps := Steps(r, order);
      assert steps[..|steps| - 1] == Steps(r, init) && steps[|steps| - 1] == (r, i);
      StepsHonest(w, s, r, init);
      var t := Run(w, s, Steps(r, init));
      RunProper(w, s, Steps(r, init));
      assert i !in init;
      if t.up {
        ServeWatches(w, t, r, i);
      }
      forall f | f !in order
        ensures f !in init && f != i
      {
        assert forall j :: 0 <= j < |init| ==> order[j] == init[j];
      }
    }
  }

  /** What select reported has been served: one pass of the loop. */
  function Pass(w: World, s: State, r: Ready): State {
    ServeAll(w, s, r, Ascending(r.read + r.write, s.out.maxfd + 1))
  }

  /** A pass whose report is about watched descriptors is a run of honest steps: what is
      reported at its start is still watched when its turn comes. */
  lemma PassIsRun(w: World, s: State, r: Ready)
    requires Proper(w, s) && r.read <= s.readfds && r.write <= s.out.writefds
    requires r.accepted.ipv4 ==> HostAddr.Addr(r.accepted.fromaddr) != 0
    ensures var steps := Steps(r, Ascending(r.read + r.write, s.out.maxfd + 1));
            Pass(w, s, r) == Run(w, s, steps) && AllHonest(w, s, steps) && Proper(w, Pass(w, s, r))
  {
    hide Proper, Run, ServeAll, Ascending, HostAddr.Addr;
    var order := Ascending(r.read + r.write, s.out.maxfd + 1);
    AscendingLists(r.read + r.write, s.out.maxfd + 1);
    ScanIsRun(w, s, r, order);
    StepsHonest(w, s, r, order);
    RunProper(w, s, Steps(r, order));
  }

  /** After any number of passes. */
  function Loop(w: World, s: State, reports: seq<Ready>): State
    decreases |reports|
  {
    if reports == [] then s
    else
      var t := Loop(w, s, reports[..|reports| - 1]);
      if t.up then Pass(w, t, reports[|reports| - 1]) else t
  }

  /** Select reports what is watched when it is called. */
  predicate Select(w: World, s: State, reports: seq<Ready>)
    decreases |reports|
  {
    reports == []
    || (var init, r := reports[..|reports| - 1], reports[|reports| - 1];
        var t := Loop(w, s, init);
        && Select(w, s, init)
        && (t.up ==> r.read <= t.readfds && r.write <= t.out.writefds)
        && (r.accepted.ipv4 ==> HostAddr.Addr(r.accepted.fromaddr) != 0))
  }

  lemma {:induction false} RunSum(w: World, s: State, a: seq<Step>, b: seq<Step>)
    ensures Run(w, s, a + b) == if Run(w, s, a).up then Run(w, Run(w, s, a), b) else Run(w, s, a)
    ensures AllHonest(w, s, a) && Run(w, s, a).up && AllHonest(w, Run(w, s, a), b) ==> AllHonest(w, s, a + b)
    decreases |b|
  {
    hide Serve, Honest;
    if b == [] {
      assert a + b == a;
    } else {
      RunSum(w, s, a, b[..|b| - 1]);
      assert (a + b)[..|a + b| - 1] == a + b[..|b| - 1];
    }
  }

  /** The select loop, pass by pass, is a run of honest steps. */
  lemma {:induction false} LoopIsRun(w: World, s: State, reports: seq<Ready>) returns (steps: seq<Step>)
    requires Proper(w, s) && Select(w, s, reports)
    ensures Loop(w, s, reports) == Run(w, s, steps) && AllHonest(w, s, steps)
    decreases |reports|
  {
    hide Proper, Pass, HostAddr.Addr, Honest, Serve;
    steps := [];
    if reports != [] {
      var init, r := reports[..|reports| - 1], reports[|reports| - 1];
      steps := LoopIsRun(w, s, init);
      var t := Loop(w, s, init);
      if t.up {
        RunProper(w, s, steps);
        PassIsRun(w, t, r);
        var more := Steps(r, Ascending(r.read + r.write, t.out.maxfd + 1));
        RunSum(w, s, steps, more);
        steps := steps + more;
      }
    }
  }
}
