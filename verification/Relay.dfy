/** What the tracker sends for a request, followed to the clients: which messages a
    destination is handed, and that a client that gets their bytes has received the news. */
module Relay {
  import opened Bytes
  import opened Conservation
  import opened Descriptors
  import opened EndToEnd
  import opened Framing
  import opened Messages
  import opened Net
  import opened Peers
  import opened Protocol
  import opened Sockets
  import C = Client
  import Format
  import HostAddr
  import M = Membership
  import Pack
  import R = Runs
  import S = Streams
  import T = Tracker

  /** What is sent to one destination, in order. */
  function PacketsFor(sends: seq<Packet>, to: nat): seq<seq<byte>> {
    if sends == [] then []
    else
      var (dest, msg) := sends[|sends| - 1];
      PacketsFor(sends[..|sends| - 1], to) + if dest == to then [msg] else []
  }

  function Bodies(news: seq<News>): (r: seq<seq<byte>>)
    ensures |r| == |news|
  {
    seq(|news|, i requires 0 <= i < |news| => Body(news[i]))
  }

  lemma BodiesSum(a: seq<News>, b: seq<News>)
    ensures Framed(Bodies(a + b)) == Framed(Bodies(a)) + Framed(Bodies(b))
  {
  }

  /** A destination is sent the frames of the news for it, and nothing else. */
  lemma {:induction false} PacketsOfNews(sends: seq<Send>, to: nat)
    ensures PacketsFor(T.Packed(sends), to) == Framed(Bodies(M.For(sends, to)))
    decreases |sends|
  {
    hide Body, Pack.LengthPatched, Pack.Passed;
    if sends == [] {
      assert Framed(Bodies([])) == [];
    } else {
      var init := sends[..|sends| - 1];
      var (dest, n) := sends[|sends| - 1];
      PacketsOfNews(init, to);
      var packets := T.Packed(sends);
      assert packets[..|packets| - 1] == T.Packed(init);
      assert Framed(Bodies([n])) == [Pack.Passed(Pack.LengthPatched(Body(n)))] && Framed(Bodies([])) == [];
      BodiesSum(M.For(init, to), if dest == to then [n] else []);
    }
  }

  /** One send, to `to` or to somebody else. */
  lemma HandedStep(w: World, s: T.State, toaddr: nat, msg: seq<byte>, to: nat)
    requires Sound(w.listenfd, s.readfds, s.out) && toaddr != 0 && to != 0 && FindTo(s.out.ctxs, to) >= 0
    ensures var i, t := FindTo(s.out.ctxs, to), T.SendOne(w, s, toaddr, msg);
            && Sound(w.listenfd, t.readfds, t.out)
            && FindTo(t.out.ctxs, to) == i && t.out.ctxs[i].fd == s.out.ctxs[i].fd
            && Handed(t.log, s.out.ctxs[i].fd) == Handed(s.log, s.out.ctxs[i].fd) + if toaddr == to then [msg] else []
  {
    hide SentCount, Sound, Fds;
    var dial, i, j := Answer(w, s.out.ctxs, s.attempts), FindTo(s.out.ctxs, to), FindTo(s.out.ctxs, toaddr);
    AnswerFresh(w, s.out, s.attempts);
    SendKeeps(w.listenfd, s.readfds, s.out, toaddr, msg, dial);
    T.SoundDistinct(w.listenfd, s.readfds, s.out);
    FdOf(s.out.ctxs, i);
    if j >= 0 {
      SameDestination(s.out.ctxs, j, s.out.ctxs[j].(wbuf := s.out.ctxs[j].wbuf + msg), to);
    } else if dial.socketOk && dial.connectOk {
      StillFirst(s.out.ctxs, NewCtx(dial.fd, 0, toaddr).(wbuf := msg[SentCount(|msg|, dial.io).0..]), to);
    }
  }

  lemma FdOf(ctxs: seq<Ctx>, i: nat)
    requires i < |ctxs|
    ensures ctxs[i].fd in Fds(ctxs)
  {
    assert ctxs[i] in ctxs;
  }

  lemma StillFirst(ctxs: seq<Ctx>, c: Ctx, to: nat)
    requires FindTo(ctxs, to) >= 0
    ensures FindTo(ctxs + [c], to) == FindTo(ctxs, to)
  {
    var r, i := ctxs + [c], FindTo(ctxs, to);
    assert r[i] == ctxs[i] && forall j :: 0 <= j < i ==> r[j] == ctxs[j];
  }

  /** A destination with a connection is handed, on it, exactly what is sent to it. */
  lemma {:induction false} HandedGrows(w: World, s: T.State, sends: seq<Packet>, to: nat)
    requires Sound(w.listenfd, s.readfds, s.out) && R.ForSomebody(sends) && to != 0 && FindTo(s.out.ctxs, to) >= 0
    ensures var i, t := FindTo(s.out.ctxs, to), T.SendAll(w, s, sends);
            && Sound(w.listenfd, t.readfds, t.out)
            && FindTo(t.out.ctxs, to) == i && t.out.ctxs[i].fd == s.out.ctxs[i].fd
            && Handed(t.log, s.out.ctxs[i].fd) == Handed(s.log, s.out.ctxs[i].fd) + PacketsFor(sends, to)
    decreases |sends|
  {
    hide T.SendOne, Sound, FindTo, Handed;
    if sends == [] {
      assert forall h: seq<seq<byte>> :: h + [] == h;
    } else {
      var init := sends[..|sends| - 1];
      var (toaddr, msg) := sends[|sends| - 1];
      HandedGrows(w, s, init, to);
      HandedStep(w, T.SendAll(w, s, init), toaddr, msg, to);
    }
  }

  function ReceiveAll(c: C.State, news: seq<News>): C.State {
    if news == [] then c else C.Receive(ReceiveAll(c, news[..|news| - 1]), news[|news| - 1])
  }

  function ReactAll(c: C.State, trackerAddr: nat, fromaddr: nat, bodies: seq<seq<byte>>): C.State
    requires NonEmpty(bodies)
  {
    if bodies == [] then c
    else
      C.Reaction(ReactAll(c, trackerAddr, fromaddr, bodies[..|bodies| - 1]), trackerAddr, fromaddr,
        bodies[|bodies| - 1])
  }

  predicate AllSendable(news: seq<News>) {
    forall i :: 0 <= i < |news| ==> Messages.Sendable(news[i])
  }

  lemma BodiesNonEmpty(news: seq<News>)
    ensures NonEmpty(Bodies(news))
  {
    forall i | 0 <= i < |news|
      ensures Bodies(news)[i] != []
    {
      BodyLength(news[i]);
    }
  }

  /** A client that handles the packed news, coming from the tracker's IP, has received it. */
  lemma {:induction false} ReactIsReceive(c: C.State, trackerAddr: nat, fromaddr: nat, news: seq<News>)
    requires AllSendable(news) && HostAddr.Addr(fromaddr) == HostAddr.Addr(trackerAddr)
    ensures NonEmpty(Bodies(news))
    ensures ReactAll(c, trackerAddr, fromaddr, Bodies(news)) == ReceiveAll(c, news)
  {
    hide Body, C.Reaction, C.Receive, Messages.Sendable, HostAddr.Addr;
    BodiesNonEmpty(news);
    if news != [] {
      var init, n, bodies := news[..|news| - 1], news[|news| - 1], Bodies(news);
      ReactIsReceive(c, trackerAddr, fromaddr, init);
      assert bodies[..|bodies| - 1] == Bodies(init) && bodies[|bodies| - 1] == Body(n);
      C.ReactionToNews(ReceiveAll(c, init), trackerAddr, fromaddr, n);
    }
  }

  /** No goodbye comes before there was ever a peer, and no peer when the table is full. */
  predicate Bearable(c: C.State, n: News) {
    (n.Offline? ==> c.peers != []) && |C.Receive(c, n).peers| <= MOST_PEERS
  }

  predicate AllBearable(c: C.State, news: seq<News>) {
    forall k :: 0 <= k < |news| ==> Bearable(ReceiveAll(c, news[..k]), news[k])
  }

  lemma FatalNews(c: C.State, trackerAddr: nat, fromaddr: nat, n: News)
    requires Messages.Sendable(n) && HostAddr.Addr(fromaddr) == HostAddr.Addr(trackerAddr)
    ensures Body(n) != [] && C.Reaction(c, trackerAddr, fromaddr, Body(n)) == C.Receive(c, n)
    ensures C.Fatal(c, trackerAddr, fromaddr, Body(n)) <==> !Bearable(c, n)
  {
    hide Body, C.Reaction, C.Receive, HostAddr.Addr, Messages.Sendable;
    BodyLength(n);
    C.ReactionToNews(c, trackerAddr, fromaddr, n);
  }

  /** A client is fed the packed news. `ok` is false where it aborts. */
  method Feed(client: C.Client, fromaddr: nat, bodies: seq<seq<byte>>, ghost news: seq<News>) returns (ok: bool)
    requires client.Valid() && bodies == Bodies(news) && AllSendable(news)
    requires HostAddr.Addr(fromaddr) == HostAddr.Addr(client.trackerAddr)
    modifies client, client.table
    ensures ok <==> AllBearable(old(client.Now()), news)
    ensures ok ==> client.Valid() && client.Now() == ReceiveAll(old(client.Now()), news)
  {
    hide Body, C.Fatal, C.Reaction, C.Receive, C.Sound, HostAddr.Addr, Messages.Sendable, Bearable;
    ok := true;
    var i := 0;
    assert news[..0] == [];
    while i < |bodies|
      invariant 0 <= i <= |bodies| && ok && client.Valid()
      invariant client.Now() == ReceiveAll(old(client.Now()), news[..i])
      invariant forall k :: 0 <= k < i ==> Bearable(ReceiveAll(old(client.Now()), news[..k]), news[k])
    {
      FatalNews(client.Now(), client.trackerAddr, fromaddr, news[i]);
      assert news[..i + 1][..i] == news[..i];
      ok := client.HandleMsg(fromaddr, bodies[i]);
      if !ok {
        return;
      }
      i := i + 1;
    }
    assert news[..i] == news;
  }

  lemma SendableIsPassable(n: News)
    requires Messages.Sendable(n)
    ensures Passable(Body(n))
  {
    NewsFramed(n);
    Pack.PassedIsFrame(Body(n));
    BodyLength(n);
  }

  /** A connection of the tracker that was handed the frames of some news, in any state, and
      a client that has got some part of what its socket took, cut up in any way: the client
      is as if it had received the first of the news, in order; all of it exactly when
      nothing is left on the way. */
  lemma NewsArrive(ctxs: seq<Ctx>, log: Log, fd: nat, news: seq<News>, chunks: seq<seq<byte>>,
                   c: C.State, trackerAddr: nat, fromaddr: nat)
    requires Conserved(ctxs, log) && fd in log.handed && fd !in log.failed
    requires log.handed[fd] == Framed(Bodies(news)) && AllSendable(news)
    requires fd in log.wire ==> Concat(chunks) <= log.wire[fd]
    requires HostAddr.Addr(fromaddr) == HostAddr.Addr(trackerAddr)
    ensures fd in log.wire
    ensures var got := FeedAll(chunks).msgs;
            var k := |got|;
            && k <= |news| && NonEmpty(got)
            && ReactAll(c, trackerAddr, fromaddr, got) == ReceiveAll(c, news[..k])
            && (k == |news| <==> Concat(chunks) == log.wire[fd] && Queued(ctxs, fd) == [])
  {
    hide Conserved, Concat, Framed, Body, FeedAll, Queued, HostAddr.Addr, Messages.Sendable;
    forall m | m in Bodies(news)
      ensures Passable(m)
    {
      var i :| 0 <= i < |news| && Bodies(news)[i] == m;
      SendableIsPassable(news[i]);
    }
    TrackerToPeer(ctxs, log, fd, Bodies(news), chunks);
    var got := FeedAll(chunks).msgs;
    assert got == Bodies(news)[..|got|] == Bodies(news[..|got|]);
    ReactIsReceive(c, trackerAddr, fromaddr, news[..|got|]);
    assert |got| == |news| <==> got == Bodies(news);
  }

  /** What a packed request makes the tracker do is the step of the system that takes it. */
  lemma RequestIsTaken(peers: seq<Peer>, a: nat, r: Request)
    requires r.Knock? ==> Nameable(r.alias, r.hostname) && r.listenport < 65536
    ensures RequestBody(r) != []
    ensures T.Reaction(peers, a, RequestBody(r)) == M.React(peers, a, M.Taken(a, r))
  {
    hide RequestBody, T.Reaction, KnockStep, ByeStep, HostAddr.WithPort;
    T.ReactionToRequest(peers, a, r);
    if r.Knock? {
      HostAddr.PortStays(r.listenport);
    }
  }

  /** What the connection to `to`, if there is one, has been handed since it opened. */
  function HandedTo(s: T.State, to: nat): seq<seq<byte>> {
    var i := FindTo(s.out.ctxs, to);
    if i >= 0 then Handed(s.log, s.out.ctxs[i].fd) else []
  }

  /** `a` is the end of `b`. */
  predicate Ends(a: seq<seq<byte>>, b: seq<seq<byte>>) {
    |a| <= |b| && b[|b| - |a|..] == a
  }

  lemma EndsBoth(a: seq<seq<byte>>, b: seq<seq<byte>>, more: seq<seq<byte>>)
    requires Ends(a, b)
    ensures Ends(a + more, b + more)
  {
  }

  /** One send: on the connection for `to`, on a new one for it, or to somebody else. */
  lemma SendOneHands(w: World, s: T.State, toaddr: nat, msg: seq<byte>, to: nat, sent: seq<seq<byte>>)
    requires R.Proper(w, s) && toaddr != 0 && to != 0 && Ends(HandedTo(s, to), sent)
    ensures Ends(HandedTo(T.SendOne(w, s, toaddr, msg), to), sent + if toaddr == to then [msg] else [])
  {
    hide SentCount, Sound, Fds, Handed, R.Proper, Answer;
    SoundIs(w, s);
    var t, more := T.SendOne(w, s, toaddr, msg), if toaddr == to then [msg] else [];
    if FindTo(s.out.ctxs, to) >= 0 {
      HandedStep(w, s, toaddr, msg, to);
      EndsBoth(HandedTo(s, to), sent, more);
    } else {
      NewConnection(w, s, toaddr, msg, to);
    }
  }

  lemma SoundIs(w: World, s: T.State)
    requires R.Proper(w, s)
    ensures Sound(w.listenfd, s.readfds, s.out)
  {
  }

  /** Where there was no connection for `to`, it has been handed nothing but this message. */
  lemma NewConnection(w: World, s: T.State, toaddr: nat, msg: seq<byte>, to: nat)
    requires FindTo(s.out.ctxs, to) == -1 && to != 0
    ensures var h := HandedTo(T.SendOne(w, s, toaddr, msg), to);
            h == [] || (toaddr == to && h == [msg])
  {
    hide SentCount;
    var dial := Answer(w, s.out.ctxs, s.attempts);
    var i := FindTo(s.out.ctxs, toaddr);
    if i >= 0 {
      SameDestination(s.out.ctxs, i, s.out.ctxs[i].(wbuf := s.out.ctxs[i].wbuf + msg), to);
    } else if dial.socketOk && dial.connectOk {
      var c := NewCtx(dial.fd, 0, toaddr).(wbuf := msg[SentCount(|msg|, dial.io).0..]);
      assert FindTo(s.out.ctxs + [c], to) == if toaddr == to then |s.out.ctxs| else -1 by {
        LastTo(s.out.ctxs, c, to);
      }
    }
  }

  lemma LastTo(ctxs: seq<Ctx>, c: Ctx, to: nat)
    requires FindTo(ctxs, to) == -1
    ensures FindTo(ctxs + [c], to) == if c.toaddr == to then |ctxs| else -1
  {
    var r := ctxs + [c];
    assert r[|ctxs|] == c && forall j :: 0 <= j < |ctxs| ==> r[j] == ctxs[j];
  }

  lemma {:induction false} SendAllHands(w: World, s: T.State, sends: seq<Packet>, to: nat, sent: seq<seq<byte>>)
    requires R.Proper(w, s) && R.ForSomebody(sends) && to != 0 && Ends(HandedTo(s, to), sent)
    ensures Ends(HandedTo(T.SendAll(w, s, sends), to), sent + PacketsFor(sends, to))
    decreases |sends|
  {
    hide T.SendOne, R.Proper, HandedTo, Ends;
    if sends == [] {
      assert sent + [] == sent;
    } else {
      var init := sends[..|sends| - 1];
      var (toaddr, msg) := sends[|sends| - 1];
      SendAllHands(w, s, init, to, sent);
      R.SendAllProper(w, s, init);
      SendOneHands(w, T.SendAll(w, s, init), toaddr, msg, to, sent + PacketsFor(init, to));
      assert (sent + PacketsFor(init, to)) + (if toaddr == to then [msg] else []) == sent + PacketsFor(sends, to);
    }
  }

  /** The news for `to` that a message gives rise to, if it is handled. */
  function NewsOf(s: T.State, fromaddr: nat, body: seq<byte>, to: nat): seq<News>
    requires body != []
  {
    if !s.up || (body[0] == BYE && s.peers == []) then [] else M.For(T.Reaction(s.peers, fromaddr, body).1, to)
  }

  lemma HandledHands(w: World, s: T.State, fromaddr: nat, body: seq<byte>, to: nat, sent: seq<News>)
    requires R.Proper(w, s) && HostAddr.Addr(fromaddr) != 0 && body != []
    requires to != 0 && Ends(HandedTo(s, to), Framed(Bodies(sent)))
    ensures var t := if s.up then T.Handled(w, s, fromaddr, body) else s;
            Ends(HandedTo(t, to), Framed(Bodies(sent + NewsOf(s, fromaddr, body, to))))
  {
    hide T.SendAll, T.Reaction, T.Packed, R.Proper, HostAddr.Addr, Ends, Framed, Bodies, M.For, R.ForSomebody;
    if !s.up {
      assert sent + [] == sent;
    } else if body[0] == BYE && s.peers == [] {
      assert sent + [] == sent;
    } else {
      var sends := T.Reaction(s.peers, fromaddr, body).1;
      R.AllReachable(w, s);
      R.ReactionProper(s.peers, fromaddr, body);
      SendAllHands(w, s, T.Packed(sends), to, Framed(Bodies(sent)));
      PacketsOfNews(sends, to);
      BodiesSum(sent, M.For(sends, to));
    }
  }

  /** The news for `to` that messages give rise to, in order. */
  function NewsOfAll(w: World, s: T.State, fromaddr: nat, msgs: seq<seq<byte>>, to: nat): seq<News>
    requires NonEmpty(msgs)
    decreases |msgs|
  {
    if msgs == [] then []
    else
      var init := msgs[..|msgs| - 1];
      NewsOfAll(w, s, fromaddr, init, to)
      + NewsOf(T.HandledAll(w, s, fromaddr, init), fromaddr, msgs[|msgs| - 1], to)
  }

  lemma {:induction false} HandledAllHands(w: World, s: T.State, fromaddr: nat, msgs: seq<seq<byte>>, to: nat,
                                           sent: seq<News>)
    requires R.Proper(w, s) && HostAddr.Addr(fromaddr) != 0 && NonEmpty(msgs)
    requires to != 0 && Ends(HandedTo(s, to), Framed(Bodies(sent)))
    ensures Ends(HandedTo(T.HandledAll(w, s, fromaddr, msgs), to),
                 Framed(Bodies(sent + NewsOfAll(w, s, fromaddr, msgs, to))))
    decreases |msgs|
  {
    hide T.Handled, R.Proper, HostAddr.Addr, Ends, Framed, Bodies, HandedTo, NewsOf;
    if msgs == [] {
      assert sent + [] == sent;
    } else {
      var init, body := msgs[..|msgs| - 1], msgs[|msgs| - 1];
      var t, news := T.HandledAll(w, s, fromaddr, init), NewsOfAll(w, s, fromaddr, init, to);
      HandledAllHands(w, s, fromaddr, init, to, sent);
      R.HandledAllProper(w, s, fromaddr, init);
      HandledHands(w, t, fromaddr, body, to, sent + news);
      assert (sent + news) + NewsOf(t, fromaddr, body, to) == sent + (news + NewsOf(t, fromaddr, body, to));
    }
  }

  /** The news for `to` that reading from `fd` gives rise to. */
  function NewsOfRead(w: World, s: T.State, fd: nat, io: seq<RecvEvent>, to: nat): seq<News> {
    var k := FindFd(s.out.ctxs, fd);
    if k == -1 then []
    else
      var c := s.out.ctxs[k];
      var rx := c.rx.(buf := c.rx.buf + Received(io).0);
      DrainNonEmpty(rx);
      NewsOfAll(w, T.WithRx(s, k, rx), c.fromaddr, Drain(rx).msgs, to)
  }

  /** A context with the same destination and descriptor in its place. */
  lemma UpdateHands(s: T.State, k: nat, c: Ctx, to: nat)
    requires k < |s.out.ctxs| && c.toaddr == s.out.ctxs[k].toaddr && c.fd == s.out.ctxs[k].fd
    ensures HandedTo(s.(out := s.out.(ctxs := s.out.ctxs[k := c])), to) == HandedTo(s, to)
  {
    hide Handed;
    SameDestination(s.out.ctxs, k, c, to);
  }

  lemma RemoveHands(s: T.State, k: nat, to: nat)
    requires k < |s.out.ctxs| && s.out.ctxs[k].toaddr != to
    ensures HandedTo(s.(out := s.out.(ctxs := Remove(s.out.ctxs, k))), to) == HandedTo(s, to)
  {
    hide Handed;
    var ctxs, r := s.out.ctxs, Remove(s.out.ctxs, k);
    assert forall j :: 0 <= j < |r| ==> r[j] == ctxs[if j < k then j else j + 1];
    var p, q := FindTo(r, to), FindTo(ctxs, to);
    assert q >= 0 ==> r[if q < k then q else q - 1] == ctxs[q];
    assert p >= 0 ==> ctxs[if p < k then p else p + 1].toaddr == to;
  }

  lemma EndedHands(s: T.State, k: nat, to: nat)
    requires k < |s.out.ctxs| && s.out.ctxs[k].toaddr == 0 && to != 0
    ensures HandedTo(T.Ended(s, k), to) == HandedTo(s, to)
  {
    hide Handed, FindTo;
    var c := s.out.ctxs[k];
    RemoveHands(s, k, to);
    UpdateHands(s, k, c.(shutRd := true), to);
  }

  lemma ReadHands(w: World, s: T.State, fd: nat, io: seq<RecvEvent>, to: nat, sent: seq<News>)
    requires R.Proper(w, s) && fd in s.readfds && fd != w.listenfd
    requires to != 0 && Ends(HandedTo(s, to), Framed(Bodies(sent)))
    ensures Ends(HandedTo(T.ReadFrom(w, s, fd, io), to), Framed(Bodies(sent + NewsOfRead(w, s, fd, io, to))))
  {
    hide R.Proper, T.HandledAll, Drain, Received, FindFd, HostAddr.Addr, Ends, Framed, Bodies, HandedTo, NewsOfAll;
    hide T.Ended, T.ReadFrom;
    R.Caller(w, s, fd);
    R.ReadSteps(w, s, fd, io);
    var k := FindFd(s.out.ctxs, fd);
    var c := s.out.ctxs[k];
    var rx := c.rx.(buf := c.rx.buf + Received(io).0);
    var u := T.WithRx(s, k, rx);
    DrainNonEmpty(rx);
    R.WithRxProper(w, s, k, rx);
    UpdateHands(s, k, c.(rx := rx), to);
    HandledAllHands(w, u, c.fromaddr, Drain(rx).msgs, to, sent);
    var h := T.HandledAll(w, u, c.fromaddr, Drain(rx).msgs);
    T.HandledAllGrows(w, u, k, c.fromaddr, Drain(rx).msgs);
    UpdateHands(h, k, h.out.ctxs[k].(rx := Drain(rx).rx), to);
    EndedHands(T.Drained(w, u, k), k, to);
  }

  lemma WriteHands(w: World, s: T.State, fd: nat, io: seq<SendEvent>, to: nat)
    requires R.Proper(w, s) && fd in s.out.writefds
    ensures HandedTo(T.WriteTo(s, fd, io), to) == HandedTo(s, to)
  {
    hide Sound, Conserved, SentCount, FindFd, FindTo, T.Reachable, Handed;
    R.OutgoingIsNoCaller(w.listenfd, s.readfds, s.out, fd);
    var k := FindFd(s.out.ctxs, fd);
    var c := s.out.ctxs[k];
    var (n, z) := SentCount(|c.wbuf|, io);
    T.SoundQuiet(w.listenfd, s.readfds, s.out, k);
    UpdateHands(s, k, c.(wbuf := if z == Failed then [] else c.wbuf[n..]), to);
    SameHanded(s.log, fd, c.wbuf[..n], z);
  }

  lemma SameHanded(log: Log, fd: nat, taken: seq<byte>, z: Status)
    ensures forall f :: Handed(AfterFlush(log, fd, taken, z), f) == Handed(log, f)
  {
  }

  lemma JoinHands(w: World, s: T.State, a: T.Accepted, to: nat)
    requires to != 0
    ensures HandedTo(T.Joined(w, s, a), to) == HandedTo(s, to)
  {
    hide Handed, Fds;
    if FindTo(s.out.ctxs, to) >= 0 {
      StillFirst(s.out.ctxs, NewCtx(a.fd, a.fromaddr, 0), to);
    } else {
      LastTo(s.out.ctxs, NewCtx(a.fd, a.fromaddr, 0), to);
    }
  }

  /** The news for `to` that a step gives rise to. */
  function NewsOfStep(w: World, s: T.State, step: S.Step, to: nat): seq<News> {
    if S.Reads(w, step, step.1) then NewsOfRead(w, s, step.1, step.0.recv(step.1), to) else []
  }

  lemma ServeHands(w: World, s: T.State, r: T.Ready, i: nat, to: nat, sent: seq<News>)
    requires R.Proper(w, s) && R.Honest(s, r, i) && to != 0 && Ends(HandedTo(s, to), Framed(Bodies(sent)))
    ensures Ends(HandedTo(T.Serve(w, s, r, i), to), Framed(Bodies(sent + NewsOfStep(w, s, (r, i), to))))
  {
    hide R.Proper, T.ReadFrom, T.WriteTo, T.Joined, HostAddr.Addr, Ends, Framed, Bodies, HandedTo, NewsOfRead;
    R.NotBoth(w, s, r, i);
    assert sent + [] == sent;
    if i in r.read {
      if i == w.listenfd {
        JoinHands(w, s, r.accepted, to);
      } else {
        ReadHands(w, s, i, r.recv(i), to, sent);
      }
    } else if i in r.write {
      WriteHands(w, s, i, r.send(i), to);
    }
  }

  /** The news for `to` that a run gives rise to, in order. */
  function NewsOfRun(w: World, s: T.State, steps: seq<S.Step>, to: nat): seq<News>
    decreases |steps|
  {
    if steps == [] then []
    else
      var init := steps[..|steps| - 1];
      var t := S.Run(w, s, init);
      NewsOfRun(w, s, init, to) + if t.up then NewsOfStep(w, t, steps[|steps| - 1], to) else []
  }

  /** Over every run from a state without a connection for `to`: what the connection for `to`
      has been handed, from the message it was opened for, are the frames of the last of the
      news for `to`, in order. */
  lemma {:induction false} RunHands(w: World, s: T.State, steps: seq<S.Step>, to: nat)
    requires R.Proper(w, s) && R.AllHonest(w, s, steps) && to != 0 && FindTo(s.out.ctxs, to) == -1
    ensures Ends(HandedTo(S.Run(w, s, steps), to), Framed(Bodies(NewsOfRun(w, s, steps, to))))
    decreases |steps|
  {
    hide R.Proper, T.Serve, NewsOfStep, R.Honest;
    if steps != [] {
      hide Ends, Framed, Bodies, HandedTo;
      var init := steps[..|steps| - 1];
      var (r, i) := steps[|steps| - 1];
      RunHands(w, s, init, to);
      R.RunProper(w, s, init);
      var t := S.Run(w, s, init);
      assert NewsOfRun(w, s, init, to) + [] == NewsOfRun(w, s, init, to);
      if t.up {
        ServeHands(w, t, r, i, to, NewsOfRun(w, s, init, to));
      }
    }
  }

  lemma BodiesFrom(news: seq<News>, k: nat)
    requires k <= |news|
    ensures Framed(Bodies(news))[k..] == Framed(Bodies(news[k..]))
  {
  }

  /** From the request to the client. After any run of the tracker that started without a
      connection for `to`, a client that has got some part of what the socket of that
      connection took, cut up in any way, is as if it had received some of the last news for
      `to`, in order and with none left out in between; all of the last exactly when nothing
      is left on the way. */
  lemma RunArrives(w: World, s: T.State, steps: seq<S.Step>, to: nat, chunks: seq<seq<byte>>, c: C.State,
                   trackerAddr: nat, fromaddr: nat)
    returns (since: nat)
    requires R.Proper(w, s) && R.AllHonest(w, s, steps) && to != 0 && FindTo(s.out.ctxs, to) == -1
    requires var t := S.Run(w, s, steps);
             FindTo(t.out.ctxs, to) >= 0
             && (var fd := t.out.ctxs[FindTo(t.out.ctxs, to)].fd;
                 fd !in t.log.failed && (fd in t.log.wire ==> Concat(chunks) <= t.log.wire[fd]))
    requires AllSendable(NewsOfRun(w, s, steps, to))
    requires HostAddr.Addr(fromaddr) == HostAddr.Addr(trackerAddr)
    ensures var t := S.Run(w, s, steps);
            var fd := t.out.ctxs[FindTo(t.out.ctxs, to)].fd;
            var news, got := NewsOfRun(w, s, steps, to), FeedAll(chunks).msgs;
            && fd in t.log.wire && since + |got| <= |news| && NonEmpty(got)
            && ReactAll(c, trackerAddr, fromaddr, got) == ReceiveAll(c, news[since..since + |got|])
            && (since + |got| == |news| <==> Concat(chunks) == t.log.wire[fd] && Queued(t.out.ctxs, fd) == [])
  {
    hide R.AllHonest, S.Run, NewsOfRun, Concat, Framed, Bodies, Drain, Queued, HostAddr.Addr, Messages.Sendable;
    hide Sound, T.Reachable, ReactAll, ReceiveAll, FeedAll;
    RunHands(w, s, steps, to);
    R.RunProper(w, s, steps);
    var t, news := S.Run(w, s, steps), NewsOfRun(w, s, steps, to);
    var fd := t.out.ctxs[FindTo(t.out.ctxs, to)].fd;
    var handed := HandedTo(t, to);
    InAccount(w, t, to);
    since := |news| - |handed|;
    BodiesFrom(news, since);
    var last := news[since..];
    assert AllSendable(last);
    NewsArrive(t.out.ctxs, t.log, fd, last, chunks, c, trackerAddr, fromaddr);
    assert last[..|FeedAll(chunks).msgs|] == news[since..since + |FeedAll(chunks).msgs|];
  }

  lemma InAccount(w: World, s: T.State, to: nat)
    requires R.Proper(w, s) && to != 0 && FindTo(s.out.ctxs, to) >= 0
    ensures Conserved(s.out.ctxs, s.log) && s.out.ctxs[FindTo(s.out.ctxs, to)].fd in s.log.handed
  {
  }

  /** Requests whose names are C strings that fit in a message. */
  predicate AllNameable(requests: seq<Request>) {
    forall k :: 0 <= k < |requests| && requests[k].Knock? ==>
      Nameable(requests[k].alias, requests[k].hostname) && requests[k].listenport < 65536
  }

  function RequestBodies(requests: seq<Request>): (r: seq<seq<byte>>)
    ensures |r| == |requests|
  {
    seq(|requests|, i requires 0 <= i < |requests| => RequestBody(requests[i]))
  }

  lemma RequestSendable(r: Request)
    requires r.Knock? ==> Nameable(r.alias, r.hostname) && r.listenport < 65536
    ensures Framing.Sendable(RequestBody(r))
  {
    hide RequestBody;
    RequestNumber(r);
    if r.Knock? {
      KnockFramed(r);
    } else {
      ByeLength();
    }
  }

  lemma ByeLength()
    ensures |RequestBody(Bye)| == 1
  {
    hide Format.Encode, Format.NumberBytes, Format.Matches;
    LastNumber(1, Format.Num(BYE as int));
  }

  /** From a client to the tracker. Requests that a connection carries, cut up in any way and
      with anything else served in between, are handled whole and in order, and each makes
      the tracker take the step that the system of tracker and clients takes for it. */
  lemma RequestsArrive(w: World, s: T.State, steps: seq<S.Step>, f: nat, requests: seq<Request>, rest: seq<byte>,
                       ended: bool, peers: seq<Peer>, a: nat, k: nat)
    requires S.Holds(s, f, Rx(0, [])) && f != w.listenfd && S.Watched(w, s, steps, f)
    requires AllNameable(requests) && Incomplete(rest, ended)
    requires Concat(S.Chunks(w, steps, f)) == FrameAll(RequestBodies(requests)) + rest
    requires k < |requests|
    ensures S.Messages(w, s, steps, f) == RequestBodies(requests)
    ensures var body := S.Messages(w, s, steps, f)[k];
            body != [] && T.Reaction(peers, a, body) == M.React(peers, a, M.Taken(a, requests[k]))
  {
    hide S.Holds, S.Watched, S.Chunks, S.Messages, S.Run, Concat, FrameAll, RequestBody, T.Reaction, M.React;
    hide Incomplete, Nameable;
    S.StreamOfConnection(w, s, steps, f);
    forall m | m in RequestBodies(requests)
      ensures Framing.Sendable(m)
    {
      var i :| 0 <= i < |requests| && RequestBodies(requests)[i] == m;
      RequestSendable(requests[i]);
    }
    DeframeOfFrames(RequestBodies(requests), rest, ended);
    RequestIsTaken(peers, a, requests[k]);
  }
}
