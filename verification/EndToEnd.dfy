/** From `send_msg_to_hostaddr` on one side of a connection to `handle_msg` on the other. */
module EndToEnd {
  import opened Bytes
  import opened Net
  import opened Framing
  import opened Sockets
  import opened Conservation
  import opened Pack

  /** A message that reaches the other side whole: not empty, and its frame has a length
      of 16 bits. */
  predicate Passable(m: seq<byte>) {
    0 < |m| < 65534
  }

  /** The messages as they are handed to the sender, each behind its length. */
  function Framed(bodies: seq<seq<byte>>): (r: seq<seq<byte>>)
    ensures |r| == |bodies|
  {
    seq(|bodies|, i requires 0 <= i < |bodies| => Passed(LengthPatched(bodies[i])))
  }

  lemma {:induction false} ConcatFramed(bodies: seq<seq<byte>>)
    requires forall m <- bodies :: Passable(m)
    ensures Concat(Framed(bodies)) == FrameAll(bodies)
  {
    hide Frame, LengthPatched, Passed, Concat, FrameAll;
    if bodies == [] {
      assert Framed(bodies) == [];
      ConcatNothing();
      FrameAllNothing();
    } else {
      var init, m := bodies[..|bodies| - 1], bodies[|bodies| - 1];
      assert bodies == init + [m] && m in bodies;
      ConcatFramed(init);
      assert Framed(bodies) == Framed(init) + [Passed(LengthPatched(m))];
      ConcatOne(Framed(init), Passed(LengthPatched(m)));
      FrameAllAppend(init, [m]);
      PassedIsFrame(m);
      FrameAllOne(m);
    }
  }

  lemma FrameAllNothing()
    ensures FrameAll([]) == []
  {
  }

  lemma FrameAllOne(m: seq<byte>)
    ensures FrameAll([m]) == Frame(m)
  {
    hide Frame;
    assert FrameAll([m]) == Frame(m) + FrameAll([]);
  }

  /** A connection of the tracker, in any state it can reach, and a receiver that has got
      some part of what the socket took, cut up in any way: the messages the receiver has
      handed on are the first ones the tracker was handed for it, in order, and they are
      all of them exactly when nothing is left on the way. */
  lemma TrackerToPeer(ctxs: seq<Ctx>, log: Log, fd: nat, bodies: seq<seq<byte>>, chunks: seq<seq<byte>>)
    requires Conserved(ctxs, log) && fd in log.handed && fd !in log.failed
    requires log.handed[fd] == Framed(bodies) && forall m <- bodies :: Passable(m)
    requires fd in log.wire ==> Concat(chunks) <= log.wire[fd]
    ensures fd in log.wire
    ensures var d := FeedAll(chunks);
            && d.msgs <= bodies && !d.ended
            && (d.msgs == bodies <==> Concat(chunks) == log.wire[fd] && Queued(ctxs, fd) == [])
            && (d.msgs == bodies ==> d.rx == Rx(0, []))
  {
    hide Concat, FrameAll, Drain, Framed, Queued;
    assert Balanced(ctxs, log, fd);
    var got, wire, wbuf := Concat(chunks), log.wire[fd], Queued(ctxs, fd);
    ConcatFramed(bodies);
    assert FrameAll(bodies) == got + (wire[|got|..] + wbuf);
    ChunkIndependence(chunks);
    PrefixDelivered(bodies, got, wire[|got|..] + wbuf);
  }

  /** One connection with both its ends. `got` is all that has been received. */
  datatype Link = Link(sent: seq<seq<byte>>, wbuf: seq<byte>, wire: seq<byte>, got: seq<byte>,
                       rx: Rx, delivered: seq<seq<byte>>, ended: bool)

  /** The sender hands over a message, or flushes; the receiver reads what the network
      chooses to deliver, in the pieces its events say. */
  datatype Step = Submit(m: seq<byte>) | Flush(send: seq<SendEvent>) | Read(recv: seq<RecvEvent>)

  /** Messages can pass, sockets report no error, and only what is on the wire arrives. */
  predicate Enabled(l: Link, s: Step) {
    match s
    case Submit(m) => Passable(m)
    case Flush(io) => SentCount(|l.wbuf|, io).1 != Failed
    case Read(io) => Received(io).0 <= l.wire && Received(io).1 == Pending
  }

  function Next(l: Link, s: Step): Link {
    match s
    case Submit(m) => l.(sent := l.sent + [m], wbuf := l.wbuf + Passed(LengthPatched(m)))
    case Flush(io) =>
      var n := SentCount(|l.wbuf|, io).0;
      l.(wbuf := l.wbuf[n..], wire := l.wire + l.wbuf[..n])
    case Read(io) =>
      var bs := Received(io).0;
      if l.ended || |bs| > |l.wire| then l
      else
        var d := Feed(l.rx, bs);
        l.(wire := l.wire[|bs|..], got := l.got + bs, rx := d.rx, delivered := l.delivered + d.msgs, ended := d.ended)
  }

  const START := Link([], [], [], [], Rx(0, []), [], false)

  /** The connection after a schedule, of which steps that are not enabled do nothing. */
  function Run(steps: seq<Step>): Link {
    if steps == [] then START
    else
      var l, s := Run(steps[..|steps| - 1]), steps[|steps| - 1];
      if Enabled(l, s) then Next(l, s) else l
  }

  ghost predicate Consistent(l: Link) {
    && (forall m <- l.sent :: Passable(m))
    && FrameAll(l.sent) == l.got + (l.wire + l.wbuf)
    && Deframe(l.got) == Deframed(l.delivered, l.rx, l.ended)
    && !l.ended
  }

  lemma NextConsistent(l: Link, s: Step)
    requires Consistent(l) && Enabled(l, s)
    ensures Consistent(Next(l, s))
  {
    hide Drain, SentCount, Received, LengthPatched, Passed, Frame;
    match s
    case Submit(m) =>
      FrameAllAppend(l.sent, [m]);
      PassedIsFrame(m);
      FrameAllOne(m);
      assert (l.got + (l.wire + l.wbuf)) + Frame(m) == l.got + (l.wire + (l.wbuf + Frame(m)));
    case Flush(io) =>
      var n := SentCount(|l.wbuf|, io).0;
      assert l.wire + l.wbuf == (l.wire + l.wbuf[..n]) + l.wbuf[n..];
    case Read(io) =>
      var bs := Received(io).0;
      DrainMore(Rx(0, l.got), bs);
      assert l.wire == bs + l.wire[|bs|..];
      assert l.got + (l.wire + l.wbuf) == (l.got + bs) + (l.wire[|bs|..] + l.wbuf);
      PrefixDelivered(l.sent, l.got + bs, l.wire[|bs|..] + l.wbuf);
  }

  lemma {:induction false} RunConsistent(steps: seq<Step>)
    ensures Consistent(Run(steps))
  {
    if steps != [] {
      RunConsistent(steps[..|steps| - 1]);
      var l, s := Run(steps[..|steps| - 1]), steps[|steps| - 1];
      if Enabled(l, s) {
        NextConsistent(l, s);
      }
    }
  }

  /** Whatever the schedule, the messages handed on are a prefix of those sent, and they
      are all of them exactly when the queue and the wire are empty; then nothing is
      left in the read buffer either. */
  lemma Delivery(steps: seq<Step>)
    ensures var l := Run(steps);
            && l.delivered <= l.sent && !l.ended
            && (l.delivered == l.sent <==> l.wbuf == [] && l.wire == [])
            && (l.delivered == l.sent ==> l.rx == Rx(0, []))
  {
    var l := Run(steps);
    RunConsistent(steps);
    PrefixDelivered(l.sent, l.got, l.wire + l.wbuf);
  }

  lemma RunNext(steps: seq<Step>, s: Step)
    ensures var l := Run(steps); Run(steps + [s]) == if Enabled(l, s) then Next(l, s) else l
  {
    hide Enabled, Next;
    assert (steps + [s])[..|steps|] == steps;
  }

  /** Whatever has been sent can still arrive: a socket that takes the whole queue, and a
      network that brings what is on the wire, deliver every message sent so far. */
  lemma CanArrive(steps: seq<Step>) returns (more: seq<Step>)
    ensures Run(steps + more).delivered == Run(steps + more).sent == Run(steps).sent
    ensures forall i :: 0 <= i < |more| ==> !more[i].Submit?
  {
    hide Run, Drain;
    var l := Run(steps);
    var flush := Flush([Took(|l.wbuf| + 1)]);
    RunConsistent(steps);
    RunNext(steps, flush);
    TakesAll(|l.wbuf|);
    var l1 := Run(steps + [flush]);
    assert l1.wbuf == [] && l1.sent == l.sent;
    RunConsistent(steps + [flush]);
    var read := if l1.wire == [] then Read([]) else Read([Got(l1.wire)]);
    RunNext(steps + [flush], read);
    BringsAll(l1.wire);
    more := [flush] + [read];
    assert steps + more == (steps + [flush]) + [read];
    Delivery(steps + more);
  }

  lemma TakesAll(n: nat)
    ensures SentCount(n, [Took(n + 1)]) == (n, Finished)
  {
  }

  lemma BringsAll(bs: seq<byte>)
    ensures Received(if bs == [] then [] else [Got(bs)]) == (bs, Pending)
  {
    assert bs + [] == bs;
  }
}
