/** A connection of the tracker over a whole run of its select loop: whatever else is
    served in between, its messages are those of the byte stream that has arrived on it. */
module Streams {
  import opened Bytes
  import opened Net
  import opened Framing
  import opened Sockets
  import opened Conservation
  import opened Descriptors
  import opened Tracker

  /** What select reported, and the descriptor that is served. */
  type Step = (Ready, nat)

  function Run(w: World, s: State, steps: seq<Step>): State
    decreases |steps|
  {
    if steps == [] then s
    else
      var t := Run(w, s, steps[..|steps| - 1]);
      var (r, i) := steps[|steps| - 1];
      if t.up then Serve(w, t, r, i) else t
  }

  /** A scan is such a run. */
  lemma {:induction false} ScanIsRun(w: World, s: State, r: Ready, order: seq<nat>)
    ensures ServeAll(w, s, r, order) == Run(w, s, seq(|order|, i requires 0 <= i < |order| => (r, order[i])))
    decreases |order|
  {
    hide Serve;
    var steps := seq(|order|, i requires 0 <= i < |order| => (r, order[i]));
    if order != [] {
      var init := order[..|order| - 1];
      ScanIsRun(w, s, r, init);
      assert steps[..|steps| - 1] == seq(|init|, i requires 0 <= i < |init| => (r, init[i]));
    }
  }

  /** What connection `f` has unread. */
  function RxOf(s: State, f: nat): Rx {
    var k := FindFd(s.out.ctxs, f);
    if k == -1 then Rx(0, []) else s.out.ctxs[k].rx
  }

  predicate Reads(w: World, step: Step, f: nat) {
    step.1 == f && f in step.0.read && f != w.listenfd
  }

  /** What has arrived on `f`, receive by receive. */
  function Chunks(w: World, steps: seq<Step>, f: nat): seq<seq<byte>>
    decreases |steps|
  {
    if steps == [] then []
    else
      var got, step := Chunks(w, steps[..|steps| - 1], f), steps[|steps| - 1];
      if Reads(w, step, f) then got + [Received(step.0.recv(f)).0] else got
  }

  /** The messages from `f` that were handled. */
  function Messages(w: World, s: State, steps: seq<Step>, f: nat): seq<seq<byte>>
    decreases |steps|
  {
    if steps == [] then []
    else
      var init, step := steps[..|steps| - 1], steps[|steps| - 1];
      Messages(w, s, init, f)
      + if Reads(w, step, f) then Feed(RxOf(Run(w, s, init), f), Received(step.0.recv(f)).0).msgs else []
  }

  lemma {:induction false} HandledAllWithRx(w: World, s: State, k: nat, rx: Rx, fromaddr: nat, msgs: seq<seq<byte>>)
    requires k < |s.out.ctxs| && NonEmpty(msgs)
    ensures k < |HandledAll(w, s, fromaddr, msgs).out.ctxs|
    ensures HandledAll(w, WithRx(s, k, rx), fromaddr, msgs) == WithRx(HandledAll(w, s, fromaddr, msgs), k, rx)
    decreases |msgs|
  {
    hide Handled, WithRx;
    if msgs != [] {
      var init := msgs[..|msgs| - 1];
      HandledAllWithRx(w, s, k, rx, fromaddr, init);
      HandledWithRx(w, HandledAll(w, s, fromaddr, init), k, rx, fromaddr, msgs[|msgs| - 1]);
    }
  }

  /** Reading from `f` handles the messages that feeding its unread bytes gives, and no
      others: the peers, and the contexts up to what `f` has unread, are as after those. */
  lemma ReadHandles(w: World, s: State, f: nat, io: seq<RecvEvent>)
    requires FindFd(s.out.ctxs, f) >= 0
    ensures var k, bs, z, t := FindFd(s.out.ctxs, f), Received(io).0, Received(io).1, ReadFrom(w, s, f, io);
            var d := Feed(RxOf(s, f), bs);
            && NonEmpty(d.msgs)
            && (var h := HandledAll(w, s, s.out.ctxs[k].fromaddr, d.msgs);
                && t.up == h.up && t.peers == h.peers && t.attempts == h.attempts
                && k < |h.out.ctxs|
                && (!(h.up && (d.ended || z == Finished)) ==> t == WithRx(h, k, d.rx)))
  {
    hide HandledAll, Drain, Received;
    var k, bs, z := FindFd(s.out.ctxs, f), Received(io).0, Received(io).1;
    var rx := RxOf(s, f).(buf := RxOf(s, f).buf + bs);
    var c, d := s.out.ctxs[k], Drain(rx);
    DrainNonEmpty(rx);
    HandledAllWithRx(w, s, k, rx, c.fromaddr, d.msgs);
    WithRxTwice(HandledAll(w, s, c.fromaddr, d.msgs), k, rx, d.rx);
  }

  lemma SendToGrew(t: Outbox, toaddr: nat, msg: seq<byte>, dial: Dial)
    ensures Grew(t.ctxs, SendTo(t, toaddr, msg, dial).0.ctxs)
  {
    hide SentCount;
  }

  lemma {:induction false} SendAllGrew(w: World, s: State, sends: seq<Packet>)
    ensures Grew(s.out.ctxs, SendAll(w, s, sends).out.ctxs) && SendAll(w, s, sends).readfds == s.readfds
    decreases |sends|
  {
    hide SendTo, Answer, Grew, AfterSend;
    if sends == [] {
      GrewSelf(s.out.ctxs);
    } else {
      var t := SendAll(w, s, sends[..|sends| - 1]);
      var (toaddr, msg) := sends[|sends| - 1];
      SendAllGrew(w, s, sends[..|sends| - 1]);
      SendToGrew(t.out, toaddr, msg, Answer(w, t.out.ctxs, t.attempts));
      GrewTwice(s.out.ctxs, t.out.ctxs, SendAll(w, s, sends).out.ctxs);
    }
  }

  /** Handling messages moves no context, and changes nothing that was read. */
  lemma {:induction false} HandledAllGrew(w: World, s: State, fromaddr: nat, msgs: seq<seq<byte>>)
    requires NonEmpty(msgs)
    ensures Grew(s.out.ctxs, HandledAll(w, s, fromaddr, msgs).out.ctxs)
            && HandledAll(w, s, fromaddr, msgs).readfds == s.readfds
    decreases |msgs|
  {
    hide SendAll, Reaction, Packed, Grew;
    if msgs == [] {
      GrewSelf(s.out.ctxs);
    } else {
      var t, body := HandledAll(w, s, fromaddr, msgs[..|msgs| - 1]), msgs[|msgs| - 1];
      HandledAllGrew(w, s, fromaddr, msgs[..|msgs| - 1]);
      SendAllGrew(w, t, Packed(Reaction(t.peers, fromaddr, body).1));
      GrewSelf(t.out.ctxs);
      GrewTwice(s.out.ctxs, t.out.ctxs, HandledAll(w, s, fromaddr, msgs).out.ctxs);
    }
  }

  lemma GrewFinds(before: seq<Ctx>, after: seq<Ctx>, f: nat)
    requires Grew(before, after) && FindFd(before, f) >= 0
    ensures FindFd(after, f) == FindFd(before, f) && after[FindFd(after, f)].rx == before[FindFd(before, f)].rx
  {
    var k := FindFd(before, f);
    assert forall j :: 0 <= j <= k ==> after[j].fd == before[j].fd;
    assert after[k].(wbuf := before[k].wbuf) == before[k];
  }

  /** Connection `f` is in the table, watched, and has `rx` unread. */
  predicate Holds(s: State, f: nat, rx: Rx) {
    FindFd(s.out.ctxs, f) >= 0 && f in s.readfds && RxOf(s, f) == rx
  }

  /** Reading from another connection. */
  lemma ReadKeepsOther(w: World, s: State, i: nat, io: seq<RecvEvent>, f: nat)
    requires i != f && Holds(s, f, RxOf(s, f))
    ensures Holds(ReadFrom(w, s, i, io), f, RxOf(s, f))
  {
    hide HandledAll, Drain, Received, FindFd, Grew;
    var k := FindFd(s.out.ctxs, i);
    if k != -1 {
      ReadHandles(w, s, i, io);
      var bs, z, t := Received(io).0, Received(io).1, ReadFrom(w, s, i, io);
      var c := s.out.ctxs[k];
      var d := Feed(c.rx, bs);
      var h := HandledAll(w, s, c.fromaddr, d.msgs);
      HandledAllGrew(w, s, c.fromaddr, d.msgs);
      GrewFinds(s.out.ctxs, h.out.ctxs, f);
      GrewFinds(s.out.ctxs, h.out.ctxs, i);
      var u := WithRx(h, k, d.rx);
      UpdateFinds(h.out.ctxs, k, h.out.ctxs[k].(rx := d.rx), f);
      if h.up && (d.ended || z == Finished) {
        ReadEnds(w, s, i, io);
        UpdateFinds(u.out.ctxs, k, u.out.ctxs[k].(shutRd := true), f);
        RemoveFinds(u.out.ctxs, k, f);
      }
    }
  }

  lemma ReadEnds(w: World, s: State, i: nat, io: seq<RecvEvent>)
    requires FindFd(s.out.ctxs, i) >= 0
    ensures var k, bs, z := FindFd(s.out.ctxs, i), Received(io).0, Received(io).1;
            var c := s.out.ctxs[k];
            var d := Feed(c.rx, bs);
            && NonEmpty(d.msgs)
            && (var h := HandledAll(w, s, c.fromaddr, d.msgs);
                && k < |h.out.ctxs|
                && (h.up && (d.ended || z == Finished) ==> ReadFrom(w, s, i, io) == Ended(WithRx(h, k, d.rx), k)))
  {
    hide HandledAll, Drain, Received, Ended;
    var k, bs, z := FindFd(s.out.ctxs, i), Received(io).0, Received(io).1;
    var c := s.out.ctxs[k];
    var rx := c.rx.(buf := c.rx.buf + bs);
    var d := Drain(rx);
    DrainNonEmpty(rx);
    HandledAllWithRx(w, s, k, rx, c.fromaddr, d.msgs);
    WithRxTwice(HandledAll(w, s, c.fromaddr, d.msgs), k, rx, d.rx);
  }

  lemma WriteKeepsOther(s: State, i: nat, io: seq<SendEvent>, f: nat)
    requires i != f && Holds(s, f, RxOf(s, f))
    ensures Holds(WriteTo(s, i, io), f, RxOf(s, f))
  {
    hide SentCount, FindFd;
    var k := FindFd(s.out.ctxs, i);
    if k != -1 {
      var c := s.out.ctxs[k];
      var (n, z) := SentCount(|c.wbuf|, io);
      UpdateFinds(s.out.ctxs, k, c.(wbuf := if z == Failed then [] else c.wbuf[n..]), f);
      RemoveFinds(s.out.ctxs, k, f);
    }
  }

  lemma JoinKeepsOther(w: World, s: State, a: Accepted, f: nat)
    requires Holds(s, f, RxOf(s, f))
    ensures Holds(Joined(w, s, a), f, RxOf(s, f))
  {
    hide FindFd, Fds;
    var ctxs := s.out.ctxs + [NewCtx(a.fd, a.fromaddr, 0)];
    GrewFinds(s.out.ctxs, ctxs, f);
  }

  /** Serving another descriptor leaves a connection as it is. */
  lemma ServeKeepsOther(w: World, s: State, r: Ready, i: nat, f: nat)
    requires i != f && Holds(s, f, RxOf(s, f))
    ensures Holds(Serve(w, s, r, i), f, RxOf(s, f))
  {
    hide ReadFrom, WriteTo, Joined, FindFd;
    ReadKeepsOther(w, s, i, r.recv(i), f);
    JoinKeepsOther(w, s, r.accepted, f);
    var t := if i !in r.read then s
             else if i == w.listenfd then Joined(w, s, r.accepted)
             else ReadFrom(w, s, i, r.recv(i));
    WriteKeepsOther(t, i, r.send(i), f);
  }

  /** As long as a connection is watched it has unread what feeding leaves over, and was not ended. */
  lemma ReadOwn(w: World, s: State, f: nat, io: seq<RecvEvent>)
    requires Holds(s, f, RxOf(s, f)) && f in ReadFrom(w, s, f, io).readfds && ReadFrom(w, s, f, io).up
    ensures var d := Feed(RxOf(s, f), Received(io).0);
            !d.ended && Holds(ReadFrom(w, s, f, io), f, d.rx)
  {
    hide HandledAll, Drain, Received, FindFd, Grew;
    var k, bs, z := FindFd(s.out.ctxs, f), Received(io).0, Received(io).1;
    var c := s.out.ctxs[k];
    var d := Feed(c.rx, bs);
    ReadHandles(w, s, f, io);
    ReadEnds(w, s, f, io);
    var h := HandledAll(w, s, c.fromaddr, d.msgs);
    HandledAllGrew(w, s, c.fromaddr, d.msgs);
    GrewFinds(s.out.ctxs, h.out.ctxs, f);
    UpdateFinds(h.out.ctxs, k, h.out.ctxs[k].(rx := d.rx), f);
    FoundFd(h.out.ctxs, f);
  }

  lemma FoundFd(ctxs: seq<Ctx>, f: nat)
    requires FindFd(ctxs, f) >= 0
    ensures ctxs[FindFd(ctxs, f)].fd == f
  {
  }

  /** Connection `f` is watched all the time before the last step, and never reported as
      ready for writing. */
  predicate Watched(w: World, s: State, steps: seq<Step>, f: nat)
    decreases |steps|
  {
    steps == []
    || (var init := steps[..|steps| - 1];
        var (r, i) := steps[|steps| - 1];
        Watched(w, s, init, f) && f in Run(w, s, init).readfds && Run(w, s, init).up && (i == f ==> f !in r.write))
  }

  /** From when a connection was accepted until it is closed, and also with the bytes that
      come with its end: the messages handled are those of the whole stream that arrived,
      however it was cut up and whatever was served in between. */
  lemma {:induction false} StreamOfConnection(w: World, s: State, steps: seq<Step>, f: nat)
    requires Holds(s, f, Rx(0, [])) && f != w.listenfd && Watched(w, s, steps, f)
    ensures var d, t := Deframe(Concat(Chunks(w, steps, f))), Run(w, s, steps);
            && Messages(w, s, steps, f) == d.msgs
            && (t.up && f in t.readfds ==> !d.ended && Holds(t, f, d.rx))
    decreases |steps|
  {
    hide Serve, ReadFrom, WriteTo, Joined, Holds, Drain, Received, RxOf;
    MessagesFed(w, s, steps, f);
    ChunkIndependence(Chunks(w, steps, f));
  }

  lemma {:induction false} MessagesFed(w: World, s: State, steps: seq<Step>, f: nat)
    requires Holds(s, f, Rx(0, [])) && f != w.listenfd && Watched(w, s, steps, f)
    ensures var d, t := FeedAll(Chunks(w, steps, f)), Run(w, s, steps);
            && Messages(w, s, steps, f) == d.msgs
            && (t.up && f in t.readfds ==> !d.ended && Holds(t, f, d.rx))
    decreases |steps|
  {
    hide Serve, ReadFrom, Holds, Drain, Received, RxOf, Feed;
    if steps != [] {
      var init := steps[..|steps| - 1];
      var (r, i) := steps[|steps| - 1];
      MessagesFed(w, s, init, f);
      var u, d := Run(w, s, init), FeedAll(Chunks(w, init, f));
      HoldsRx(u, f, d.rx);
      if i == f {
        ServeOwn(w, u, r, f);
        if f in r.read {
          var bs := Received(r.recv(f)).0;
          var chunks := Chunks(w, steps, f);
          assert chunks[..|chunks| - 1] == Chunks(w, init, f) && chunks[|chunks| - 1] == bs;
          if Serve(w, u, r, f).up && f in Serve(w, u, r, f).readfds {
            ReadOwn(w, u, f, r.recv(f));
          }
        }
      } else {
        ServeKeepsOther(w, u, r, i, f);
      }
      assert Messages(w, s, init, f) + [] == Messages(w, s, init, f);
    }
  }

  lemma HoldsRx(s: State, f: nat, rx: Rx)
    requires Holds(s, f, rx)
    ensures RxOf(s, f) == rx
  {
  }

  lemma ServeOwn(w: World, s: State, r: Ready, f: nat)
    requires f != w.listenfd && f !in r.write
    ensures Serve(w, s, r, f) == if f in r.read then ReadFrom(w, s, f, r.recv(f)) else s
  {
  }

  /** The connection on descriptor `f` is watched neither for reading nor for writing, and has
      `wbuf` queued, perhaps with more behind it. */
  predicate Idle(s: State, f: nat, wbuf: seq<byte>) {
    var k := FindFd(s.out.ctxs, f);
    k >= 0 && f !in s.readfds && f !in s.out.writefds && wbuf <= s.out.ctxs[k].wbuf
  }

  lemma GrewQueue(before: seq<Ctx>, after: seq<Ctx>, f: nat)
    requires Grew(before, after) && FindFd(before, f) >= 0
    ensures FindFd(after, f) == FindFd(before, f) && before[FindFd(before, f)].wbuf <= after[FindFd(after, f)].wbuf
  {
    GrewFinds(before, after, f);
  }

  lemma SendOneIdle(w: World, s: State, toaddr: nat, msg: seq<byte>, f: nat, wbuf: seq<byte>)
    requires Idle(s, f, wbuf)
    ensures Idle(SendOne(w, s, toaddr, msg), f, wbuf)
  {
    hide SentCount, FindFd, FindTo, Grew;
    var dial := Answer(w, s.out.ctxs, s.attempts);
    SendToGrew(s.out, toaddr, msg, dial);
    GrewQueue(s.out.ctxs, SendTo(s.out, toaddr, msg, dial).0.ctxs, f);
  }

  lemma {:induction false} SendAllIdle(w: World, s: State, sends: seq<Packet>, f: nat, wbuf: seq<byte>)
    requires Idle(s, f, wbuf)
    ensures Idle(SendAll(w, s, sends), f, wbuf)
    decreases |sends|
  {
    hide SendOne, Idle;
    if sends != [] {
      var (toaddr, msg) := sends[|sends| - 1];
      SendAllIdle(w, s, sends[..|sends| - 1], f, wbuf);
      SendOneIdle(w, SendAll(w, s, sends[..|sends| - 1]), toaddr, msg, f, wbuf);
    }
  }

  lemma {:induction false} HandledAllIdle(w: World, s: State, fromaddr: nat, msgs: seq<seq<byte>>, f: nat,
                                          wbuf: seq<byte>)
    requires Idle(s, f, wbuf) && NonEmpty(msgs)
    ensures Idle(HandledAll(w, s, fromaddr, msgs), f, wbuf)
    decreases |msgs|
  {
    hide SendAll, Reaction, Packed, FindFd;
    if msgs != [] {
      var t, body := HandledAll(w, s, fromaddr, msgs[..|msgs| - 1]), msgs[|msgs| - 1];
      HandledAllIdle(w, s, fromaddr, msgs[..|msgs| - 1], f, wbuf);
      SendAllIdle(w, t, Packed(Reaction(t.peers, fromaddr, body).1), f, wbuf);
    }
  }

  lemma UpdateIdle(s: State, k: nat, c: Ctx, f: nat, wbuf: seq<byte>)
    requires Idle(s, f, wbuf) && k < |s.out.ctxs| && c.fd == s.out.ctxs[k].fd
    requires c.fd == f ==> s.out.ctxs[k].wbuf <= c.wbuf
    ensures var ctxs := s.out.ctxs[k := c];
            FindFd(ctxs, f) >= 0 && wbuf <= ctxs[FindFd(ctxs, f)].wbuf
  {
    hide FindFd;
    UpdateFinds(s.out.ctxs, k, c, f);
  }

  lemma RemoveIdle(s: State, k: nat, f: nat, wbuf: seq<byte>)
    requires Idle(s, f, wbuf) && k < |s.out.ctxs| && s.out.ctxs[k].fd != f
    ensures var ctxs := Remove(s.out.ctxs, k);
            FindFd(ctxs, f) >= 0 && wbuf <= ctxs[FindFd(ctxs, f)].wbuf
  {
    hide FindFd;
    RemoveFinds(s.out.ctxs, k, f);
  }

  lemma ReadIdle(w: World, s: State, i: nat, io: seq<RecvEvent>, f: nat, wbuf: seq<byte>)
    requires i != f && Idle(s, f, wbuf)
    ensures Idle(ReadFrom(w, s, i, io), f, wbuf)
  {
    hide HandledAll, Drain, Received, FindFd, Grew;
    var k := FindFd(s.out.ctxs, i);
    if k != -1 {
      ReadHandles(w, s, i, io);
      ReadEnds(w, s, i, io);
      var c, z := s.out.ctxs[k], Received(io).1;
      var d := Feed(c.rx, Received(io).0);
      var h := HandledAll(w, s, c.fromaddr, d.msgs);
      HandledAllIdle(w, s, c.fromaddr, d.msgs, f, wbuf);
      HandledAllGrew(w, s, c.fromaddr, d.msgs);
      GrewFinds(s.out.ctxs, h.out.ctxs, i);
      FoundFd(h.out.ctxs, i);
      UpdateIdle(h, k, h.out.ctxs[k].(rx := d.rx), f, wbuf);
      var u := WithRx(h, k, d.rx);
      UpdateIdle(u, k, u.out.ctxs[k].(shutRd := true), f, wbuf);
      RemoveIdle(u, k, f, wbuf);
    }
  }

  lemma WriteIdle(s: State, i: nat, io: seq<SendEvent>, f: nat, wbuf: seq<byte>)
    requires i != f && Idle(s, f, wbuf)
    ensures Idle(WriteTo(s, i, io), f, wbuf)
  {
    hide SentCount, FindFd, AfterFlush;
    var k := FindFd(s.out.ctxs, i);
    if k != -1 {
      FoundFd(s.out.ctxs, i);
      var c := s.out.ctxs[k];
      var (n, z) := SentCount(|c.wbuf|, io);
      UpdateIdle(s, k, c.(wbuf := if z == Failed then [] else c.wbuf[n..]), f, wbuf);
      RemoveIdle(s, k, f, wbuf);
    }
  }

  lemma JoinIdle(w: World, s: State, a: Accepted, f: nat, wbuf: seq<byte>)
    requires Idle(s, f, wbuf)
    ensures Idle(Joined(w, s, a), f, wbuf)
  {
    hide FindFd, Fds;
    FoundFd(s.out.ctxs, f);
    assert f in Fds(s.out.ctxs) by {
      assert s.out.ctxs[FindFd(s.out.ctxs, f)] in s.out.ctxs;
      InFds(s.out.ctxs, f);
    }
    AddFinds(s.out.ctxs, NewCtx(a.fd, a.fromaddr, 0), f);
  }

  lemma InFds(ctxs: seq<Ctx>, f: nat)
    requires FindFd(ctxs, f) >= 0
    ensures f in Fds(ctxs)
  {
    assert ctxs[FindFd(ctxs, f)] in ctxs;
  }

  lemma ServeIdle(w: World, s: State, r: Ready, i: nat, f: nat, wbuf: seq<byte>)
    requires Idle(s, f, wbuf) && (i == f ==> f !in r.read && f !in r.write)
    ensures Idle(Serve(w, s, r, i), f, wbuf)
  {
    hide ReadFrom, WriteTo, Joined, Idle;
    if i != f {
      ReadIdle(w, s, i, r.recv(i), f, wbuf);
      JoinIdle(w, s, r.accepted, f, wbuf);
      var t := if i !in r.read then s
               else if i == w.listenfd then Joined(w, s, r.accepted)
               else ReadFrom(w, s, i, r.recv(i));
      WriteIdle(t, i, r.send(i), f, wbuf);
    }
  }

  /** Descriptor `f` is only reported, and served, when it is watched. */
  predicate Reported(w: World, s: State, steps: seq<Step>, f: nat)
    decreases |steps|
  {
    steps == []
    || (var init := steps[..|steps| - 1];
        var (r, i) := steps[|steps| - 1];
        && Reported(w, s, init, f)
        && (i == f && f in r.read ==> f in Run(w, s, init).readfds)
        && (i == f && f in r.write ==> f in Run(w, s, init).out.writefds))
  }

  /** A connection that is not watched keeps its queue for the rest of any run. */
  lemma {:induction false} IdleForever(w: World, s: State, steps: seq<Step>, f: nat, wbuf: seq<byte>)
    requires Idle(s, f, wbuf) && Reported(w, s, steps, f)
    ensures Idle(Run(w, s, steps), f, wbuf)
    decreases |steps|
  {
    hide Serve;
    if steps != [] {
      var init := steps[..|steps| - 1];
      var (r, i) := steps[|steps| - 1];
      IdleForever(w, s, init, f, wbuf);
      ServeIdle(w, Run(w, s, init), r, i, f, wbuf);
    }
  }

  /** So a message for a destination whose queue has drained is never sent, whatever happens. */
  lemma NeverSent(w: World, s: State, toaddr: nat, msg: seq<byte>, steps: seq<Step>)
    requires Sound(w.listenfd, s.readfds, s.out) && toaddr != 0 && FindTo(s.out.ctxs, toaddr) >= 0
    requires s.out.ctxs[FindTo(s.out.ctxs, toaddr)].fd !in s.out.writefds
    requires Reported(w, SendOne(w, s, toaddr, msg), steps, s.out.ctxs[FindTo(s.out.ctxs, toaddr)].fd)
    ensures var c := s.out.ctxs[FindTo(s.out.ctxs, toaddr)];
            Idle(Run(w, SendOne(w, s, toaddr, msg), steps), c.fd, c.wbuf + msg)
  {
    hide Run, Quiet, Serve, Reported, SentCount, FindFd, FindTo;
    var i := FindTo(s.out.ctxs, toaddr);
    var c := s.out.ctxs[i];
    assert c in s.out.ctxs;
    var k := Position(s.out.ctxs, c.fd);
    UpdateFinds(s.out.ctxs, i, c.(wbuf := c.wbuf + msg), c.fd);
    NotReading(w.listenfd, s.readfds, s.out, i);
    IdleForever(w, SendOne(w, s, toaddr, msg), steps, c.fd, c.wbuf + msg);
  }

  /** The loop reaches such a state by itself: when a connection has nothing more to send, or
      failed, its context stays in the table and is not watched any longer. */
  lemma DrainedStays(w: World, s: State, fd: nat, io: seq<SendEvent>)
    requires Sound(w.listenfd, s.readfds, s.out) && fd in s.out.writefds
    ensures FindFd(s.out.ctxs, fd) >= 0
    ensures var k, t := FindFd(s.out.ctxs, fd), WriteTo(s, fd, io);
            var c := s.out.ctxs[k];
            && c.toaddr != 0 && Sound(w.listenfd, t.readfds, t.out)
            && FindTo(t.out.ctxs, c.toaddr) == k < |t.out.ctxs| && t.out.ctxs[k].fd == fd
            && (SentCount(|c.wbuf|, io).1 != Pending <==> fd !in t.out.writefds)
  {
    hide SentCount, FindFd, FindTo, AfterFlush, Sound;
    ReadyIsFound(w.listenfd, s.readfds, s.out, fd);
    var k := FindFd(s.out.ctxs, fd);
    FoundFd(s.out.ctxs, fd);
    var c := s.out.ctxs[k];
    var (n, z) := SentCount(|c.wbuf|, io);
    var rest := if z == Failed then [] else c.wbuf[n..];
    SoundQuiet(w.listenfd, s.readfds, s.out, k);
    OnlyFor(w.listenfd, s.readfds, s.out, k);
    SameDestination(s.out.ctxs, k, c.(wbuf := rest), c.toaddr);
    SoundBound(w.listenfd, s.readfds, s.out);
    FlushKeeps(w.listenfd, s.readfds, s.out, k, rest, z);
    assert s.out.writefds + {fd} == s.out.writefds;
  }

  lemma OnlyFor(listenfd: nat, readfds: set<nat>, t: Outbox, k: nat)
    requires Sound(listenfd, readfds, t) && k < |t.ctxs| && t.ctxs[k].toaddr != 0
    ensures FindTo(t.ctxs, t.ctxs[k].toaddr) == k
  {
  }

  lemma NotReading(listenfd: nat, readfds: set<nat>, t: Outbox, i: nat)
    requires Sound(listenfd, readfds, t) && i < |t.ctxs| && t.ctxs[i].toaddr != 0
    ensures t.ctxs[i].fd !in readfds
  {
    assert t.ctxs[i] in t.ctxs;
  }
}
