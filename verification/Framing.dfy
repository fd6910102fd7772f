/** Cutting a byte stream into messages: what the receive loops of the tracker
    (tmtracker.c) and of the client (tm.c) do to a stream, as functions. */
module Framing {
  import opened Bytes
  import opened Pack

  /** A connection's `msglen` (0 while a length is expected) and unread bytes. */
  datatype Rx = Rx(msglen: nat, buf: seq<byte>)

  /** The messages handed on, what is left, and whether a zero length ended the stream. */
  datatype Deframed = Deframed(msgs: seq<seq<byte>>, rx: Rx, ended: bool)

  /** Runs the loop body until more bytes are needed or the stream ends. */
  function Drain(rx: Rx): (d: Deframed)
    decreases |rx.buf|
  {
    if rx.msglen == 0 then
      if |rx.buf| < 2 then Deframed([], rx, false)
      else
        var n := Value(rx.buf[..2]);
        if n == 0 then Deframed([], rx, true) else Drain(Rx(n, rx.buf[2..]))
    else if |rx.buf| >= rx.msglen then
      var d := Drain(Rx(0, rx.buf[rx.msglen..]));
      d.(msgs := [rx.buf[..rx.msglen]] + d.msgs)
    else Deframed([], rx, false)
  }

  predicate NonEmpty(msgs: seq<seq<byte>>) {
    forall i :: 0 <= i < |msgs| ==> msgs[i] != []
  }

  lemma {:induction false} DrainNonEmpty(rx: Rx)
    ensures NonEmpty(Drain(rx).msgs)
    decreases |rx.buf|
  {
    DrainStep(rx);
    hide Drain;
    if ReadsLength(rx) {
      DrainNonEmpty(AfterLength(rx));
    } else if ReadsBody(rx) {
      DrainNonEmpty(AfterBody(rx));
    }
  }

  /** One receive: the new bytes join the unread ones. */
  function Feed(rx: Rx, bs: seq<byte>): Deframed {
    Drain(rx.(buf := rx.buf + bs))
  }

  /** The whole stream at once. */
  function Deframe(stream: seq<byte>): Deframed {
    Drain(Rx(0, stream))
  }

  /** Chunk by chunk; nothing is received after the end. */
  function FeedAll(chunks: seq<seq<byte>>): (d: Deframed) {
    if chunks == [] then Deframed([], Rx(0, []), false)
    else
      var d := FeedAll(chunks[..|chunks| - 1]);
      if d.ended then d
      else
        var e := Feed(d.rx, chunks[|chunks| - 1]);
        e.(msgs := d.msgs + e.msgs)
  }

  function Concat(chunks: seq<seq<byte>>): seq<byte> {
    if chunks == [] then [] else Concat(chunks[..|chunks| - 1]) + chunks[|chunks| - 1]
  }

  /** The loop body reads a length. */
  predicate ReadsLength(rx: Rx) {
    rx.msglen == 0 && |rx.buf| >= 2 && Value(rx.buf[..2]) != 0
  }

  /** The loop body hands a message on. */
  predicate ReadsBody(rx: Rx) {
    rx.msglen != 0 && |rx.buf| >= rx.msglen
  }

  function AfterLength(rx: Rx): Rx
    requires ReadsLength(rx)
  {
    Rx(Value(rx.buf[..2]), rx.buf[2..])
  }

  function AfterBody(rx: Rx): Rx
    requires ReadsBody(rx)
  {
    Rx(0, rx.buf[rx.msglen..])
  }

  lemma DrainStep(rx: Rx)
    ensures ReadsLength(rx) ==> Drain(rx) == Drain(AfterLength(rx))
    ensures ReadsBody(rx) ==> var d := Drain(AfterBody(rx)); Drain(rx) == d.(msgs := [rx.buf[..rx.msglen]] + d.msgs)
    ensures !ReadsLength(rx) && !ReadsBody(rx) ==> Drain(rx) == Deframed([], rx, rx.msglen == 0 && |rx.buf| >= 2)
  {
  }

  /** With more bytes behind, the loop body does the same. */
  lemma StepWithMore(rx: Rx, bs: seq<byte>)
    ensures var more := rx.(buf := rx.buf + bs);
            && (ReadsLength(rx) ==>
                  ReadsLength(more) && AfterLength(more) == Rx(AfterLength(rx).msglen, AfterLength(rx).buf + bs))
            && (ReadsBody(rx) ==> ReadsBody(more) && AfterBody(more) == Rx(0, AfterBody(rx).buf + bs)
                                  && more.buf[..rx.msglen] == rx.buf[..rx.msglen])
            && (rx.msglen == 0 && |rx.buf| >= 2 && !ReadsLength(rx) ==> !ReadsLength(more) && !ReadsBody(more))
  {
    if rx.msglen == 0 && |rx.buf| >= 2 {
      assert (rx.buf + bs)[..2] == rx.buf[..2];
    }
  }

  /** Draining a longer buffer continues where draining the shorter one stopped. */
  lemma {:induction false} DrainMore(rx: Rx, bs: seq<byte>)
    ensures var d, e := Drain(rx), Feed(rx, bs);
            if d.ended then e.ended && e.msgs == d.msgs
            else e == (var f := Feed(d.rx, bs); f.(msgs := d.msgs + f.msgs))
    decreases |rx.buf|
  {
    var more := rx.(buf := rx.buf + bs);
    DrainStep(rx);
    DrainStep(more);
    hide Drain, Value;
    StepWithMore(rx, bs);
    if ReadsLength(rx) {
      DrainMore(AfterLength(rx), bs);
    } else if ReadsBody(rx) {
      DrainMore(AfterBody(rx), bs);
      assert more.buf[..rx.msglen] == rx.buf[..rx.msglen];
      var d := Drain(AfterBody(rx));
      if !d.ended {
        var f := Feed(d.rx, bs);
        assert [rx.buf[..rx.msglen]] + (d.msgs + f.msgs) == ([rx.buf[..rx.msglen]] + d.msgs) + f.msgs;
      }
    } else {
      assert forall f: Deframed :: f.(msgs := [] + f.msgs) == f;
    }
  }

  /** The messages and the verdict do not depend on how the stream is cut into
      chunks; while it is open, neither do the length and the bytes left over. */
  lemma {:induction false} ChunkIndependence(chunks: seq<seq<byte>>)
    ensures var d, whole := FeedAll(chunks), Deframe(Concat(chunks));
            && d.msgs == whole.msgs && d.ended == whole.ended
            && (!d.ended ==> d.rx == whole.rx)
  {
    if chunks != [] {
      var init := chunks[..|chunks| - 1];
      ChunkIndependence(init);
      DrainMore(Rx(0, Concat(init)), chunks[|chunks| - 1]);
    }
  }

  /** A message that can be framed: not empty, and its length fits in 16 bits. */
  predicate Sendable(m: seq<byte>) {
    0 < |m| < 65536
  }

  function FrameAll(msgs: seq<seq<byte>>): seq<byte> {
    if msgs == [] then [] else Frame(msgs[0]) + FrameAll(msgs[1..])
  }

  lemma {:induction false} FrameAllAppend(a: seq<seq<byte>>, b: seq<seq<byte>>)
    ensures FrameAll(a + b) == FrameAll(a) + FrameAll(b)
  {
    hide Frame;
    if a == [] {
      assert a + b == b;
    } else {
      FrameAllAppend(a[1..], b);
      assert (a + b)[1..] == a[1..] + b;
      assert Frame(a[0]) + (FrameAll(a[1..]) + FrameAll(b)) == (Frame(a[0]) + FrameAll(a[1..])) + FrameAll(b);
    }
  }

  lemma FrameHeader(m: seq<byte>, rest: seq<byte>)
    requires |m| < 65536
    ensures var s := Frame(m) + rest;
            |s| >= 2 && Value(s[..2]) == |m| && s[2..] == m + rest
  {
    hide BigEndian, Value;
    ValueInFront(|m|, m + rest);
    assert Frame(m) + rest == BigEndian(|m|, 2) + (m + rest);
  }

  /** What an open connection is still holding, as it was on the wire. */
  function Held(rx: Rx): seq<byte> {
    if rx.msglen == 0 then rx.buf else BigEndian(rx.msglen, 2) + rx.buf
  }

  /** Bytes in which no whole message is left: the stream is open in the middle of a
      length or of a body, or it ended at a zero length. */
  predicate Incomplete(tail: seq<byte>, ended: bool) {
    if ended then |tail| >= 2 && Value(tail[..2]) == 0
    else |tail| < 2 || (Value(tail[..2]) != 0 && |tail| < 2 + Value(tail[..2]))
  }

  /** Deframing inverts framing, in front of any incomplete rest: for every list of
      messages that can be framed exactly these come out. */
  lemma {:induction false} DeframeOfFrames(msgs: seq<seq<byte>>, tail: seq<byte>, ended: bool)
    requires (forall m <- msgs :: Sendable(m)) && Incomplete(tail, ended)
    ensures var d := Deframe(FrameAll(msgs) + tail);
            d.msgs == msgs && d.ended == ended && Held(d.rx) == tail
  {
    if msgs == [] {
      assert FrameAll(msgs) + tail == tail;
      DrainIncomplete(tail, ended);
    } else {
      var m, rest := msgs[0], FrameAll(msgs[1..]) + tail;
      assert m in msgs;
      DeframeOfFrames(msgs[1..], tail, ended);
      assert FrameAll(msgs) + tail == Frame(m) + rest;
      DrainFrame(m, rest);
    }
  }

  lemma DrainIncomplete(tail: seq<byte>, ended: bool)
    requires Incomplete(tail, ended)
    ensures var d := Deframe(tail);
            d.msgs == [] && d.ended == ended && Held(d.rx) == tail
  {
    DrainStep(Rx(0, tail));
    if |tail| >= 2 {
      BigEndianOfValue(tail[..2]);
      assert tail == tail[..2] + tail[2..];
      if !ended {
        DrainStep(AfterLength(Rx(0, tail)));
      }
    }
  }

  lemma DrainFrame(m: seq<byte>, rest: seq<byte>)
    requires Sendable(m)
    ensures var d := Deframe(rest);
            Deframe(Frame(m) + rest) == d.(msgs := [m] + d.msgs)
  {
    FrameHeader(m, rest);
    var s := Rx(0, Frame(m) + rest);
    DrainStep(s);
    DrainStep(AfterLength(s));
    assert (m + rest)[..|m|] == m && (m + rest)[|m|..] == rest;
  }

  /** Every stream is the frames of what deframing hands on, then what it holds. */
  lemma {:induction false} FramesOfDeframe(rx: Rx)
    requires rx.msglen < 65536
    ensures var d := Drain(rx);
            && Held(rx) == FrameAll(d.msgs) + Held(d.rx)
            && (forall m <- d.msgs :: Sendable(m))
            && Incomplete(Held(d.rx), d.ended) && d.rx.msglen < 65536
    decreases |rx.buf|
  {
    hide Drain, BigEndian, Value;
    DrainStep(rx);
    if ReadsLength(rx) {
      HeldAfterLength(rx);
      FramesOfDeframe(AfterLength(rx));
    } else if ReadsBody(rx) {
      var next, m := AfterBody(rx), rx.buf[..rx.msglen];
      FramesOfDeframe(next);
      HeldAfterBody(rx);
      FrameAllCons(m, Drain(next).msgs);
      assert (Frame(m) + FrameAll(Drain(next).msgs)) + Held(Drain(next).rx)
        == Frame(m) + (FrameAll(Drain(next).msgs) + Held(Drain(next).rx));
    } else {
      assert FrameAll([]) + Held(rx) == Held(rx);
      HeldIncomplete(rx);
    }
  }

  lemma FrameAllCons(m: seq<byte>, msgs: seq<seq<byte>>)
    ensures FrameAll([m] + msgs) == Frame(m) + FrameAll(msgs)
  {
    assert ([m] + msgs)[1..] == msgs;
  }

  lemma HeldAfterLength(rx: Rx)
    requires ReadsLength(rx)
    ensures Held(AfterLength(rx)) == Held(rx) && AfterLength(rx).msglen < 65536
  {
    BigEndianOfValue(rx.buf[..2]);
    assert rx.buf == rx.buf[..2] + rx.buf[2..];
    Pow256Of2();
  }

  lemma HeldAfterBody(rx: Rx)
    requires ReadsBody(rx)
    ensures Held(rx) == Frame(rx.buf[..rx.msglen]) + Held(AfterBody(rx))
  {
    assert rx.buf == rx.buf[..rx.msglen] + rx.buf[rx.msglen..];
  }

  lemma HeldIncomplete(rx: Rx)
    requires !ReadsLength(rx) && !ReadsBody(rx) && rx.msglen < 65536
    ensures Incomplete(Held(rx), rx.msglen == 0 && |rx.buf| >= 2)
  {
    if rx.msglen != 0 {
      ValueInFront(rx.msglen, rx.buf);
    }
  }

  /** Whatever part of a stream of frames has arrived, the messages out of it are the
      first ones sent, in order, and the stream stays open. */
  lemma PrefixDelivered(msgs: seq<seq<byte>>, got: seq<byte>, rest: seq<byte>)
    requires (forall m <- msgs :: Sendable(m)) && FrameAll(msgs) == got + rest
    ensures var d := Deframe(got);
            && d.msgs <= msgs && !d.ended
            && (rest == [] ==> d.msgs == msgs && d.rx == Rx(0, []))
            && (rest == [] <==> d.msgs == msgs)
  {
    DeframeOfFrames(msgs, [], false);
    assert FrameAll(msgs) + [] == FrameAll(msgs);
    var whole := Deframe(FrameAll(msgs));
    assert Held(whole.rx) == [];
    DrainMore(Rx(0, got), rest);
    if rest == [] {
      assert got + rest == got;
    } else if Deframe(got).msgs == msgs {
      FramesOfDeframe(Rx(0, got));
    }
  }
}
