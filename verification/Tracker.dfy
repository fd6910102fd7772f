/** The tracker's select loop and its message handler (tmtracker.c). What the operating
    system reports and answers is input. */
module Tracker {
  import opened Bytes
  import opened Format
  import opened Net
  import opened Framing
  import opened Sockets
  import opened Descriptors
  import opened Conservation
  import opened Peers
  import opened Messages
  import opened Protocol
  import HostAddr
  import Pack

  /** What is sent for some news: what `NetPackLen` packs, as far as its length is handed on. */
  function Packed(sends: seq<Send>): (r: seq<Packet>)
    ensures |r| == |sends|
  {
    seq(|sends|, i requires 0 <= i < |sends| => (sends[i].0, Pack.Passed(Pack.LengthPatched(Body(sends[i].1)))))
  }

  lemma PackedSum(a: seq<Send>, b: seq<Send>)
    ensures Packed(a + b) == Packed(a) + Packed(b)
  {
  }

  /** The variables that `handle_msg` unpacks a KNOCK into. */
  function KnockVars(msgno: byte): (a: seq<Arg>)
    ensures IsKnockArgs(a) && Matches(KNOCK_ITEMS, a)
  {
    KnockFields([Num(msgno as int), Str([]), Str([]), Num(0)]);
    [Num(msgno as int), Str([]), Str([]), Num(0)]
  }

  /** A KNOCK as unpacked, unless one of its string lengths points behind its end. */
  function KnockOf(body: seq<byte>): (r: Unpacked)
    requires body != []
    ensures |r.outs| == 4
  {
    Decode(KNOCK_ITEMS, body, KnockVars(body[0]))
  }

  function Number16(a: Arg): HostAddr.u16 {
    if a.Num? then a.n % 0x1_0000 else 0
  }

  /** The peer table and what is sent after a message has been handled. */
  function Reaction(peers: seq<Peer>, fromaddr: nat, body: seq<byte>): (seq<Peer>, seq<Send>)
    requires body != []
  {
    if body[0] == KNOCK then
      var u := KnockOf(body);
      if u.overread then (peers, [])
      else
        var toaddr := HostAddr.WithPort(fromaddr, Number16(u.outs[3]));
        KnockStep(peers, fromaddr, TextOf(u.outs[1]), TextOf(u.outs[2]), toaddr)
    else if body[0] == BYE then ByeStep(peers, fromaddr)
    else (peers, [])
  }

  /** A request that a peer packed has the effect the protocol gives it. */
  lemma ReactionToRequest(peers: seq<Peer>, fromaddr: nat, r: Request)
    requires r.Knock? ==> |r.alias| < 65536 && |r.hostname| < 65536 && r.listenport < 65536
    requires r.Knock? ==> 0 !in r.alias && 0 !in r.hostname
    ensures RequestBody(r) != []
    ensures Reaction(peers, fromaddr, RequestBody(r)) ==
            match r
            case Knock(a, h, p) => KnockStep(peers, fromaddr, a, h, HostAddr.WithPort(fromaddr, p))
            case Bye => ByeStep(peers, fromaddr)
  {
    hide Decode, RequestBody, KnockStep, ByeStep;
    RequestNumber(r);
    if r.Knock? {
      KnockRoundTrip(r, KnockVars(KNOCK));
    }
  }

  lemma {:induction false} BroadcastHas(peers: seq<Peer>, n: News, i: nat) returns (k: nat)
    requires i < |peers| && peers[i].active
    ensures k < |Broadcast(peers, n)| && Broadcast(peers, n)[k] == (peers[i].toaddr, n)
  {
    if i == |peers| - 1 {
      k := |Broadcast(peers, n)| - 1;
    } else {
      k := BroadcastHas(peers[..|peers| - 1], n, i);
    }
  }

  /** A KNOCK with names of more than 65512 bytes still reaches the tracker, up to 65528 bytes.
      Every active peer is then sent not the frame of its PEER_ONLINE but the first bytes of
      it, 15 at most. */
  lemma NewsTooLong(peers: seq<Peer>, fromaddr: nat, r: Request, i: nat) returns (k: nat)
    requires r.Knock? && 0 !in r.alias && 0 !in r.hostname && r.listenport < 65536
    requires 65512 < |r.alias| + |r.hostname| <= 65528
    requires i < |peers| && peers[i].active
    ensures Framing.Sendable(RequestBody(r))
    ensures var toaddr := HostAddr.WithPort(fromaddr, r.listenport);
            var n := Online(r.alias, r.hostname, fromaddr, toaddr);
            var sends := Packed(Reaction(peers, fromaddr, RequestBody(r)).1);
            && k < |sends| && sends[k].0 == peers[i].toaddr
            && sends[k].1 <= Pack.LengthPatched(Body(n)) && |sends[k].1| == |r.alias| + |r.hostname| - 65513
            && sends[k].1 != Pack.Frame(Body(n))
  {
    hide RequestBody, Reaction, HostAddr.WithPort, Pack.LengthPatched, Body;
    var n := Online(r.alias, r.hostname, fromaddr, HostAddr.WithPort(fromaddr, r.listenport));
    KnockFramed(r);
    ReactionToRequest(peers, fromaddr, r);
    k := BroadcastHas(peers, n, i);
    BodyLength(n);
  }

  /** `accept`: no connection, one that is not IPv4, or one from `fromaddr`. */
  datatype Accepted = Accepted(ok: bool, ipv4: bool, fd: nat, fromaddr: nat)

  /** What select reports, and what the sockets answer in the scan that follows. */
  datatype Ready = Ready(read: set<nat>, write: set<nat>, accepted: Accepted, recv: nat -> seq<RecvEvent>,
                         send: nat -> seq<SendEvent>)

  /** The descriptor sets and the contexts, the peers, how often a new connection was
      tried, what the outgoing connections were handed and have taken, and whether the
      program is still running. */
  datatype State = State(readfds: set<nat>, out: Outbox, peers: seq<Peer>, attempts: nat, log: Log, up: bool)

  function SendOne(w: World, s: State, toaddr: nat, msg: seq<byte>): State {
    var dial := Answer(w, s.out.ctxs, s.attempts);
    s.(out := SendTo(s.out, toaddr, msg, dial).0, attempts := s.attempts + 1,
       log := AfterSend(s.log, s.out, toaddr, msg, dial))
  }

  /** A send on a connection that is there: the account has one more message for it. */
  lemma SendOneQueues(w: World, s: State, toaddr: nat, msg: seq<byte>, i: nat)
    requires i < |s.out.ctxs| && s.out.ctxs[i].toaddr == toaddr
    requires forall j :: 0 <= j < i ==> s.out.ctxs[j].toaddr != toaddr
    ensures var t, fd := SendOne(w, s, toaddr, msg), s.out.ctxs[i].fd;
            && |t.out.ctxs| == |s.out.ctxs| && t.out.ctxs[i].wbuf == s.out.ctxs[i].wbuf + msg
            && Handed(t.log, fd) == Handed(s.log, fd) + [msg]
            && t.log.wire == s.log.wire && t.log.failed == s.log.failed
            && t.attempts == s.attempts + 1 && t.peers == s.peers && t.readfds == s.readfds && t.up == s.up
  {
    SendQueues(s.out, toaddr, msg, Answer(w, s.out.ctxs, s.attempts), i);
    hide SendTo, SentCount;
    assert FindTo(s.out.ctxs, toaddr) == i;
  }

  /** A send that opens a connection: the message is handed over on the descriptor that the
      operating system gives, and the account starts with what its socket takes of it. */
  lemma SendOneOpens(w: World, s: State, toaddr: nat, msg: seq<byte>)
    requires forall j :: 0 <= j < |s.out.ctxs| ==>
      s.out.ctxs[j].toaddr != toaddr && s.out.ctxs[j].fd != w.dials(s.attempts).fd
    requires w.dials(s.attempts).fd != w.listenfd
    requires w.dials(s.attempts).socketOk && w.dials(s.attempts).connectOk
    ensures var t, d := SendOne(w, s, toaddr, msg), w.dials(s.attempts);
            var (n, z) := SentCount(|msg|, d.io);
            && Handed(t.log, d.fd) == [msg] && Wire(t.log, d.fd) == msg[..n]
            && (d.fd in t.log.failed <==> z == Failed)
            && t.out.ctxs == s.out.ctxs
                             + (if z == Pending then [Ctx(d.fd, 0, toaddr, Framing.Rx(0, []), msg[n..], false)] else [])
            && (z == Pending ==> d.fd in t.out.writefds)
            && t.attempts == s.attempts + 1 && t.peers == s.peers && t.readfds == s.readfds && t.up == s.up
  {
    AnswerIs(w, s.out.ctxs, s.attempts);
    SendOpens(s.out, toaddr, msg, w.dials(s.attempts));
    hide SendTo, SentCount;
    assert FindTo(s.out.ctxs, toaddr) == -1;
  }

  /** The messages have been sent, in order. */
  function SendAll(w: World, s: State, sends: seq<Packet>): State
    decreases |sends|
  {
    if sends == [] then s
    else
      var (toaddr, msg) := sends[|sends| - 1];
      SendOne(w, SendAll(w, s, sends[..|sends| - 1]), toaddr, msg)
  }

  lemma {:induction false} SendAllSum(w: World, s: State, a: seq<Packet>, b: seq<Packet>)
    ensures SendAll(w, s, a + b) == SendAll(w, SendAll(w, s, a), b)
    decreases |b|
  {
    hide SendOne;
    if b == [] {
      assert a + b == a;
    } else {
      SendAllSum(w, s, a, b[..|b| - 1]);
      assert (a + b)[..|a + b| - 1] == a + b[..|b| - 1];
    }
  }

  /** The contexts are those after sending the list. */
  lemma {:induction false} SendAllIsSendList(w: World, s: State, sends: seq<Packet>)
    ensures SendAll(w, s, sends).out == SendList(s.out, sends, w, s.attempts)
    ensures SendAll(w, s, sends).attempts == s.attempts + |sends|
    decreases |sends|
  {
    hide SendTo, AfterSend, Answer;
    if sends != [] {
      SendAllIsSendList(w, s, sends[..|sends| - 1]);
    }
  }

  lemma SendAllOne(w: World, s: State, a: seq<Packet>, toaddr: nat, msg: seq<byte>)
    ensures SendAll(w, s, a + [(toaddr, msg)]) == SendOne(w, SendAll(w, s, a), toaddr, msg)
  {
    assert (a + [(toaddr, msg)])[..|a|] == a;
  }

  /** The message makes the program abort: printing the peers does before there was ever
      one, and so does a new peer when the table is full. */
  predicate Fatal(peers: seq<Peer>, fromaddr: nat, body: seq<byte>)
    requires body != []
  {
    (body[0] == BYE && peers == []) || |Reaction(peers, fromaddr, body).0| > MOST_PEERS
  }

  /** `fromaddr`'s message has been handled. When the table is full its news has been sent. */
  function Handled(w: World, s: State, fromaddr: nat, body: seq<byte>): State
    requires body != []
  {
    if body[0] == BYE && s.peers == [] then s.(up := false)
    else
      var (peers, sends) := Reaction(s.peers, fromaddr, body);
      var t := SendAll(w, s, Packed(sends));
      if |peers| > MOST_PEERS then t.(up := false) else t.(peers := peers)
  }

  lemma UpUnlessFatal(w: World, s: State, fromaddr: nat, body: seq<byte>)
    requires body != []
    ensures Handled(w, s, fromaddr, body).up <==> s.up && !Fatal(s.peers, fromaddr, body)
  {
    hide Reaction, SendAll;
    SendAllUp(w, s, Packed(Reaction(s.peers, fromaddr, body).1));
  }

  /** The tracker survives a message, unless it is a BYE before there was ever a peer, or a
      KNOCK that can be unpacked, from an address that is not in a table of 512. */
  lemma HandledUp(w: World, s: State, fromaddr: nat, body: seq<byte>)
    requires body != [] && |s.peers| <= 512
    ensures Handled(w, s, fromaddr, body).up <==>
      && s.up
      && !(body[0] == 4 && s.peers == [])
      && !(body[0] == 3 && !KnockOf(body).overread && |s.peers| == 512 && fromaddr !in Addrs(s.peers))
  {
    hide KnockOf, Handled, Broadcast, Replay, Create, FindFrom, Addrs, HostAddr.WithPort, CString;
    UpUnlessFatal(w, s, fromaddr, body);
    LeaveSize(s.peers, fromaddr);
    var u := KnockOf(body);
    CreateAddrs(s.peers, TextOf(u.outs[1]), TextOf(u.outs[2]), fromaddr,
                HostAddr.WithPort(fromaddr, Number16(u.outs[3])));
  }

  lemma LeaveSize(peers: seq<Peer>, fromaddr: nat)
    ensures |Leave(peers, fromaddr)| == |peers|
  {
  }

  /** A message of any other number, or a KNOCK that announces more than it has, changes
      nothing and leads to nothing. */
  lemma OthersIgnored(w: World, s: State, fromaddr: nat, body: seq<byte>)
    requires body != [] && |s.peers| <= 512
    requires body[0] !in {3, 4} || (body[0] == 3 && KnockOf(body).overread)
    ensures Handled(w, s, fromaddr, body) == s
  {
    hide KnockOf;
    assert Packed([]) == [];
    assert s.(peers := s.peers) == s;
  }

  /** Its messages have been handled, in order, as long as the program runs. */
  function HandledAll(w: World, s: State, fromaddr: nat, msgs: seq<seq<byte>>): State
    requires NonEmpty(msgs)
    decreases |msgs|
  {
    if msgs == [] then s
    else
      var t := HandledAll(w, s, fromaddr, msgs[..|msgs| - 1]);
      if t.up then Handled(w, t, fromaddr, msgs[|msgs| - 1]) else t
  }

  lemma {:induction false} HandledAllSum(w: World, s: State, fromaddr: nat, a: seq<seq<byte>>, b: seq<seq<byte>>)
    requires NonEmpty(a) && NonEmpty(b)
    ensures HandledAll(w, s, fromaddr, a + b) == HandledAll(w, HandledAll(w, s, fromaddr, a), fromaddr, b)
    decreases |b|
  {
    hide Handled;
    if b == [] {
      assert a + b == a;
    } else {
      HandledAllSum(w, s, fromaddr, a, b[..|b| - 1]);
      assert (a + b)[..|a + b| - 1] == a + b[..|b| - 1];
    }
  }

  lemma HandledAllOne(w: World, s: State, fromaddr: nat, a: seq<seq<byte>>, body: seq<byte>)
    requires NonEmpty(a) && body != []
    ensures var t := HandledAll(w, s, fromaddr, a);
            HandledAll(w, s, fromaddr, a + [body]) == if t.up then Handled(w, t, fromaddr, body) else t
  {
    assert (a + [body])[..|a|] == a;
  }

  lemma {:induction false} DownStays(w: World, s: State, fromaddr: nat, msgs: seq<seq<byte>>)
    requires !s.up && NonEmpty(msgs)
    ensures HandledAll(w, s, fromaddr, msgs) == s
    decreases |msgs|
  {
    hide Handled;
    if msgs != [] {
      DownStays(w, s, fromaddr, msgs[..|msgs| - 1]);
    }
  }

  /** Context `k` has read something else. */
  function WithRx(s: State, k: nat, rx: Rx): (t: State)
    requires k < |s.out.ctxs|
    ensures |t.out.ctxs| == |s.out.ctxs| && t.up == s.up
  {
    s.(out := s.out.(ctxs := s.out.ctxs[k := s.out.ctxs[k].(rx := rx)]))
  }

  lemma WithRxTwice(s: State, k: nat, rx: Rx, rx': Rx)
    requires k < |s.out.ctxs|
    ensures WithRx(WithRx(s, k, rx), k, rx') == WithRx(s, k, rx')
    ensures WithRx(s, k, s.out.ctxs[k].rx) == s
  {
    var c := s.out.ctxs[k];
    assert c.(rx := c.rx) == c;
    assert s.out.ctxs[k := c] == s.out.ctxs;
    assert s.out.(ctxs := s.out.ctxs) == s.out;
    assert s.(out := s.out) == s;
  }

  /** What a context has read makes no difference to what is sent. */
  lemma SendOneWithRx(w: World, s: State, k: nat, rx: Rx, toaddr: nat, msg: seq<byte>)
    requires k < |s.out.ctxs|
    ensures k < |SendOne(w, s, toaddr, msg).out.ctxs|
    ensures SendOne(w, WithRx(s, k, rx), toaddr, msg) == WithRx(SendOne(w, s, toaddr, msg), k, rx)
  {
    hide SentCount, FindFd, FindTo;
    var c := s.out.ctxs[k].(rx := rx);
    UpdateFinds(s.out.ctxs, k, c, w.dials(s.attempts).fd);
    SameDestination(s.out.ctxs, k, c, toaddr);
    assert Answer(w, WithRx(s, k, rx).out.ctxs, s.attempts) == Answer(w, s.out.ctxs, s.attempts);
    var i := FindTo(s.out.ctxs, toaddr);
    if i < 0 {
      forall d: Ctx
        ensures (s.out.ctxs + [d])[k := c] == s.out.ctxs[k := c] + [d]
      {
      }
    }
  }

  lemma {:induction false} SendAllWithRx(w: World, s: State, k: nat, rx: Rx, sends: seq<Packet>)
    requires k < |s.out.ctxs|
    ensures k < |SendAll(w, s, sends).out.ctxs|
    ensures SendAll(w, WithRx(s, k, rx), sends) == WithRx(SendAll(w, s, sends), k, rx)
    decreases |sends|
  {
    hide SendOne, WithRx;
    if sends != [] {
      var (toaddr, msg) := sends[|sends| - 1];
      SendAllWithRx(w, s, k, rx, sends[..|sends| - 1]);
      SendOneWithRx(w, SendAll(w, s, sends[..|sends| - 1]), k, rx, toaddr, msg);
    }
  }

  /** Nor to how a message is handled. */
  lemma HandledWithRx(w: World, s: State, k: nat, rx: Rx, fromaddr: nat, body: seq<byte>)
    requires k < |s.out.ctxs| && body != []
    ensures k < |Handled(w, s, fromaddr, body).out.ctxs|
    ensures Handled(w, WithRx(s, k, rx), fromaddr, body) == WithRx(Handled(w, s, fromaddr, body), k, rx)
  {
    hide SendAll, Reaction, Packed;
    SendAllWithRx(w, s, k, rx, Packed(Reaction(s.peers, fromaddr, body).1));
  }

  lemma {:induction false} HandledAllGrows(w: World, s: State, k: nat, fromaddr: nat, msgs: seq<seq<byte>>)
    requires k < |s.out.ctxs| && NonEmpty(msgs)
    ensures k < |HandledAll(w, s, fromaddr, msgs).out.ctxs|
    decreases |msgs|
  {
    hide Handled;
    if msgs != [] {
      var t := HandledAll(w, s, fromaddr, msgs[..|msgs| - 1]);
      HandledAllGrows(w, s, k, fromaddr, msgs[..|msgs| - 1]);
      HandledWithRx(w, t, k, Rx(0, []), fromaddr, msgs[|msgs| - 1]);
    }
  }

  /** Everything that context `k` has read and that makes whole messages has been handled. */
  function Drained(w: World, s: State, k: nat): (t: State)
    requires k < |s.out.ctxs|
    ensures k < |t.out.ctxs|
  {
    var c := s.out.ctxs[k];
    var d := Drain(c.rx);
    DrainNonEmpty(c.rx);
    HandledAllGrows(w, s, k, c.fromaddr, d.msgs);
    WithRx(HandledAll(w, s, c.fromaddr, d.msgs), k, d.rx)
  }

  /** An end of file: the connection is not read from again, and goes if it has nothing to send. */
  function Ended(s: State, k: nat): State
    requires k < |s.out.ctxs|
  {
    var c := s.out.ctxs[k];
    var ctxs := if c.wbuf == [] then Remove(s.out.ctxs, k) else s.out.ctxs[k := c.(shutRd := true)];
    s.(readfds := s.readfds - {c.fd}, out := s.out.(ctxs := ctxs))
  }

  /** A connection has bytes or has ended. Whatever arrived is handled, also with the end of file. */
  function ReadFrom(w: World, s: State, fd: nat, io: seq<RecvEvent>): State {
    var k := FindFd(s.out.ctxs, fd);
    if k == -1 then s
    else
      var c, (bs, z) := s.out.ctxs[k], Received(io);
      var u := WithRx(s, k, c.rx.(buf := c.rx.buf + bs));
      var t := Drained(w, u, k);
      if t.up && (Feed(c.rx, bs).ended || z == Finished) then Ended(t, k) else t
  }

  /** An outgoing connection takes bytes again; an error clears what it should have taken. */
  function WriteTo(s: State, fd: nat, io: seq<SendEvent>): State {
    var k := FindFd(s.out.ctxs, fd);
    if k == -1 then s
    else
      var c := s.out.ctxs[k];
      var (n, z) := SentCount(|c.wbuf|, io);
      var rest := if z == Failed then [] else c.wbuf[n..];
      var ctxs := if c.shutRd && rest == [] then Remove(s.out.ctxs, k) else s.out.ctxs[k := c.(wbuf := rest)];
      var writefds, maxfd := s.out.writefds, s.out.maxfd;
      s.(out := if z == Pending then Outbox(ctxs, writefds + {fd}, if fd > maxfd then fd else maxfd)
                else Outbox(ctxs, writefds - {fd}, maxfd),
         log := AfterFlush(s.log, fd, c.wbuf[..n], z))
  }

  /** A new connection, unless there is none or it is not IPv4. */
  function Joined(w: World, s: State, a: Accepted): State {
    if !a.ok || !a.ipv4 || a.fd == w.listenfd || a.fd in Fds(s.out.ctxs) then s
    else
      s.(readfds := s.readfds + {a.fd},
         out := s.out.(ctxs := s.out.ctxs + [NewCtx(a.fd, a.fromaddr, 0)],
                       maxfd := if a.fd > s.out.maxfd then a.fd else s.out.maxfd))
  }

  /** Descriptor `i` has been served, if it is ready. */
  function Serve(w: World, s: State, r: Ready, i: nat): State {
    var t := if i !in r.read then s
             else if i == w.listenfd then Joined(w, s, r.accepted)
             else ReadFrom(w, s, i, r.recv(i));
    if t.up && i in r.write then WriteTo(t, i, r.send(i)) else t
  }

  /** The descriptors have been served, in order, as long as the program runs. */
  function ServeAll(w: World, s: State, r: Ready, order: seq<nat>): State
    decreases |order|
  {
    if order == [] then s
    else
      var t := ServeAll(w, s, r, order[..|order| - 1]);
      if t.up then Serve(w, t, r, order[|order| - 1]) else t
  }

  /** The members of `fds` below `n`, in increasing order. */
  function Ascending(fds: set<nat>, n: nat): seq<nat> {
    if n == 0 then []
    else if n - 1 in fds then Ascending(fds, n - 1) + [n - 1]
    else Ascending(fds, n - 1)
  }

  lemma {:induction false} AscendingLists(fds: set<nat>, n: nat)
    ensures var order := Ascending(fds, n);
            && (forall f :: f in order <==> f in fds && f < n)
            && (forall j, k :: 0 <= j < k < |order| ==> order[j] < order[k])
  {
    if n != 0 {
      AscendingLists(fds, n - 1);
      var init := Ascending(fds, n - 1);
      assert forall f :: f in init + [n - 1] <==> f in init || f == n - 1;
      assert forall j :: 0 <= j < |init| ==> init[j] in init;
    }
  }

  lemma {:induction false} AscendingEnds(fds: set<nat>, m: nat, n: nat)
    requires m <= n && forall f <- fds :: f < m
    ensures Ascending(fds, n) == Ascending(fds, m)
    decreases n
  {
    if m < n {
      AscendingEnds(fds, m, n - 1);
    }
  }

  lemma {:induction false} ServeDown(w: World, s: State, r: Ready, fds: set<nat>, m: nat, n: nat)
    requires m <= n && !ServeAll(w, s, r, Ascending(fds, m)).up
    ensures !ServeAll(w, s, r, Ascending(fds, n)).up
    decreases n
  {
    hide Serve;
    if m < n {
      ServeDown(w, s, r, fds, m, n - 1);
      ServeNext(w, s, r, fds, n - 1);
    }
  }

  lemma ServeNext(w: World, s: State, r: Ready, fds: set<nat>, i: nat)
    ensures var t := ServeAll(w, s, r, Ascending(fds, i));
            ServeAll(w, s, r, Ascending(fds, i + 1)) == if i in fds && t.up then Serve(w, t, r, i) else t
  {
    hide Serve;
    var order := Ascending(fds, i);
    assert (order + [i])[..|order|] == order;
  }

  ghost predicate Reachable(peers: seq<Peer>) {
    forall i :: 0 <= i < |peers| ==> peers[i].toaddr != 0
  }

  /** Connections come from addresses that are not 0.0.0.0. */
  ghost predicate FromSomewhere(ctxs: seq<Ctx>) {
    forall i :: 0 <= i < |ctxs| ==> ctxs[i].toaddr == 0 ==> HostAddr.Addr(ctxs[i].fromaddr) != 0
  }

  /** The fields of a KNOCK, names as they came. */
  method UnpackKnock(body: seq<byte>)
    returns (overread: bool, alias: seq<byte>, hostname: seq<byte>, listenport: HostAddr.u16)
    requires body != []
    ensures var u := KnockOf(body);
            && overread == u.overread && alias == BytesOf(u.outs[1]) && hostname == BytesOf(u.outs[2])
            && listenport == Number16(u.outs[3])
  {
    hide Decode;
    var vars := KnockVars(body[0]);
    var outs := new Arg[4](i requires 0 <= i < 4 => vars[i]);
    assert outs[..] == vars;
    Formats();
    overread := Pack.NetUnpack(body, KNOCK_FORMAT, outs);
    alias, hostname, listenport := BytesOf(outs[1]), BytesOf(outs[2]), Number16(outs[3]);
  }

  class Tracker {
    const world: World
    const table: PeerTable
    var readfds: set<nat>
    var writefds: set<nat>
    var maxfd: nat
    var ctxs: seq<Ctx>
    var attempts: nat
    /** What the outgoing connections were handed and have taken. */
    ghost var log: Log

    function Out(): Outbox
      reads this
    {
      Outbox(ctxs, writefds, maxfd)
    }

    ghost function Now(): State
      reads this, table
    {
      State(readfds, Out(), table.peers, attempts, log, true)
    }

    ghost predicate Valid()
      reads this, table
    {
      && table.Valid() && Reachable(table.peers)
      && Sound(world.listenfd, readfds, Out()) && Conserved(ctxs, log)
      && FromSomewhere(ctxs)
    }

    constructor (listenfd: nat, dials: nat -> Dial)
      ensures Valid() && fresh(table) && world == World(listenfd, dials)
      ensures Now() == State({listenfd}, Outbox([], {}, listenfd), [], 0, Log(map[], map[], {}), true)
    {
      world := World(listenfd, dials);
      table := new PeerTable();
      readfds, writefds, maxfd := {listenfd}, {}, listenfd;
      ctxs, attempts := [], 0;
      log := Log(map[], map[], {});
    }

    /** What handling messages leaves alone: nothing is unwatched and no context moves. */
    twostate predicate OnlySent()
      reads this
    {
      && readfds == old(readfds) && old(writefds) <= writefds && old(maxfd) <= maxfd
      && Grew(old(ctxs), ctxs)
    }

    /** One `send_msg_to_hostaddr`. */
    method Send(toaddr: nat, msg: seq<byte>)
      requires Valid() && toaddr != 0
      modifies this
      ensures Valid() && OnlySent()
      ensures Now() == SendOne(world, old(Now()), toaddr, msg)
    {
      hide Sound, Conserved, Fds, SentCount, SendTo, AfterSend;
      var dial := Answer(world, ctxs, attempts);
      AnswerFresh(world, Out(), attempts);
      SendKeeps(world.listenfd, readfds, Out(), toaddr, msg, dial);
      assert Distinct(ctxs) by {
        SoundDistinct(world.listenfd, readfds, Out());
      }
      SendConserves(world.listenfd, Out(), log, toaddr, msg, dial);
      SendKeepsCallers(Out(), toaddr, msg, dial);
      log := AfterSend(log, Out(), toaddr, msg, dial);
      var (t, _) := SendTo(Outbox(ctxs, writefds, maxfd), toaddr, msg, dial);
      ctxs, writefds, maxfd := t.ctxs, t.writefds, t.maxfd;
      attempts := attempts + 1;
    }

    /** One more message: `sends` and this one have been sent since `start`. */
    method SendNext(ghost start: State, ghost sends: seq<Send>, toaddr: nat, n: News)
      requires Valid() && toaddr != 0 && Now() == SendAll(world, start, Packed(sends)) && Grew(start.out.ctxs, ctxs)
      modifies this
      ensures Valid() && OnlySent()
      ensures Now() == SendAll(world, start, Packed(sends + [(toaddr, n)])) && Grew(start.out.ctxs, ctxs)
    {
      hide Sound, Conserved, Fds, Grew, Body, Pack.LengthPatched, Pack.Passed, SendTo, SendOne, AfterSend;
      ghost var msg := Pack.Passed(Pack.LengthPatched(Body(n)));
      Send(toaddr, Pack.Passed(Pack.LengthPatched(Body(n))));
      PackedSum(sends, [(toaddr, n)]);
      assert Packed([(toaddr, n)]) == [(toaddr, msg)];
      SendAllOne(world, start, Packed(sends), toaddr, msg);
      GrewTwice(start.out.ctxs, old(ctxs), ctxs);
    }

    /** `send_msg_to_peers`. */
    method SendToPeers(n: News)
      requires Valid()
      modifies this
      ensures Valid() && OnlySent()
      ensures Now() == SendAll(world, old(Now()), Packed(Broadcast(table.peers, n)))
    {
      hide Sound, Conserved, Fds, Grew, Body, Broadcast, SendAll;
      var i := 0;
      GrewSelf(ctxs);
      StartSending(n, 0);
      while i < |table.peers|
        invariant 0 <= i <= |table.peers| && Valid() && OnlySent()
        invariant Now() == SendAll(world, old(Now()), Packed(Broadcast(table.peers[..i], n)))
      {
        var p := table.peers[i];
        BroadcastNext(table.peers, i, n);
        if p.active {
          SendNext(old(Now()), Broadcast(table.peers[..i], n), p.toaddr, n);
        }
        i := i + 1;
      }
      assert table.peers[..i] == table.peers;
    }

    /** The new peer hears of the active ones. */
    method SendPeersTo(toaddr: nat)
      requires Valid() && toaddr != 0
      modifies this
      ensures Valid() && OnlySent()
      ensures Now() == SendAll(world, old(Now()), Packed(Replay(table.peers, toaddr)))
    {
      hide Sound, Conserved, Fds, Grew, Body, Replay, SendAll;
      var i := 0;
      GrewSelf(ctxs);
      StartSending(Offline(0), toaddr);
      while i < |table.peers|
        invariant 0 <= i <= |table.peers| && Valid() && OnlySent()
        invariant Now() == SendAll(world, old(Now()), Packed(Replay(table.peers[..i], toaddr)))
      {
        var p := table.peers[i];
        ReplayNext(table.peers, i, toaddr);
        if p.active {
          SendNext(old(Now()), Replay(table.peers[..i], toaddr), toaddr, PeerOnline(p));
        }
        i := i + 1;
      }
      assert table.peers[..i] == table.peers;
    }

    lemma StartSending(n: News, toaddr: nat)
      ensures table.peers[..0] == []
      ensures SendAll(world, Now(), Packed(Broadcast([], n))) == Now()
              == SendAll(world, Now(), Packed(Replay([], toaddr)))
    {
    }

    /** The introductions behind a KNOCK. `ok` is false where the program aborts. */
    method Introduce(fromaddr: nat, alias: seq<byte>, hostname: seq<byte>, listenport: HostAddr.u16)
      returns (ok: bool)
      requires Valid() && HostAddr.Addr(fromaddr) != 0
      modifies this, table
      ensures Valid() && OnlySent()
      ensures var toaddr := HostAddr.WithPort(fromaddr, listenport);
              var (peers, sends) := KnockStep(old(table.peers), fromaddr, alias, hostname, toaddr);
              && (ok <==> |peers| <= MOST_PEERS)
              && (ok ==> Now() == SendAll(world, old(Now()), Packed(sends)).(peers := peers))
    {
      hide Sound, Conserved, Fds, Grew, Body, Replay, Broadcast, Create, Packed, SendAll;
      var toaddr := HostAddr.WithPort(fromaddr, listenport);
      ghost var n := Online(alias, hostname, fromaddr, toaddr);
      SendToPeers(Online(alias, hostname, fromaddr, toaddr));
      ghost var between := ctxs;
      SendPeersTo(toaddr);
      GrewTwice(old(ctxs), between, ctxs);
      PackedSum(Broadcast(table.peers, n), Replay(table.peers, toaddr));
      SendAllSum(world, old(Now()), Packed(Broadcast(table.peers, n)), Packed(Replay(table.peers, toaddr)));
      JoinReachable(table.peers, alias, hostname, fromaddr, toaddr);
      var hpeer;
      ok, hpeer := table.CreatePeer(alias, hostname, fromaddr, toaddr);
    }

    method HandleKnock(fromaddr: nat, body: seq<byte>) returns (ok: bool)
      requires Valid() && body != [] && body[0] == KNOCK && HostAddr.Addr(fromaddr) != 0
      modifies this, table
      ensures ok <==> !Fatal(old(table.peers), fromaddr, body)
      ensures ok ==> Valid() && OnlySent() && Now() == Handled(world, old(Now()), fromaddr, body)
    {
      hide Sound, Conserved, Grew, KnockStep, KnockOf;
      ok := true;
      var overread, alias, hostname, listenport := UnpackKnock(body);
      if overread {
        GrewSelf(ctxs);
        assert Packed([]) == [];
      } else {
        ok := Introduce(fromaddr, CString(alias), CString(hostname), listenport);
      }
    }

    method HandleBye(fromaddr: nat, body: seq<byte>)
      requires Valid() && body != [] && body[0] == BYE && table.peers != []
      modifies this, table
      ensures Valid() && OnlySent() && Now() == Handled(world, old(Now()), fromaddr, body)
    {
      hide Sound, Conserved, Fds, Grew, Body, Broadcast, FindFrom, AsMap, Packed, Leave, Destroy, SendAll;
      LeaveIs(table.peers, fromaddr);
      LeaveReachable(table.peers, fromaddr);
      var hpeer := table.FindPeerFromaddr(fromaddr);
      if hpeer != -1 {
        table.DestroyPeer(hpeer);
      }
      ghost var left := Now();
      SendToPeers(Offline(fromaddr));
      SendAllPeers(world, old(Now()), left.peers, Packed(Broadcast(table.peers, Offline(fromaddr))));
      assert |left.peers| <= MOST_PEERS;
    }

    /** `handle_msg`. `ok` is false where the program aborts. */
    method HandleMsg(fromaddr: nat, body: seq<byte>) returns (ok: bool)
      requires Valid() && body != [] && HostAddr.Addr(fromaddr) != 0
      modifies this, table
      ensures ok <==> Handled(world, old(Now()), fromaddr, body).up
      ensures ok ==> Valid() && OnlySent() && Now() == Handled(world, old(Now()), fromaddr, body)
    {
      hide Sound, Conserved, Grew, KnockStep, ByeStep, KnockOf;
      ok := true;
      UpUnlessFatal(world, Now(), fromaddr, body);
      if body[0] == KNOCK {
        ok := HandleKnock(fromaddr, body);
      } else if body[0] == BYE {
        if |table.peers| == 0 {
          return false;
        }
        HandleBye(fromaddr, body);
      } else {
        GrewSelf(ctxs);
        assert Packed([]) == [];
      }
    }

    /** Replaces what a context has read. */
    method SetRx(k: nat, rx: Rx)
      requires Valid() && k < |ctxs|
      modifies `ctxs
      ensures Valid() && ctxs == old(ctxs)[k := old(ctxs)[k].(rx := rx)] && Now() == WithRx(old(Now()), k, rx)
    {
      hide Sound, Conserved;
      SoundQuiet(world.listenfd, readfds, Out(), k);
      UpdateKeeps(world.listenfd, readfds, Out(), k, ctxs[k].(rx := rx));
      RxConserves(ctxs, log, k, rx);
      ctxs := ctxs[k := ctxs[k].(rx := rx)];
    }

    /** Context `k`'s next message leaves the read buffer once it has been handled. */
    method Deliver(k: nat) returns (ok: bool)
      requires Valid() && k < |ctxs| && ctxs[k].toaddr == 0 && ReadsBody(ctxs[k].rx)
      modifies this, table
      ensures var c := old(ctxs)[k];
              var t := Handled(world, old(Now()), c.fromaddr, c.rx.buf[..c.rx.msglen]);
              && (ok <==> t.up)
              && (ok ==> k < |t.out.ctxs| && Now() == WithRx(t, k, AfterBody(c.rx)))
              && (ok ==> ctxs[k] == c.(rx := AfterBody(c.rx)))
      ensures ok ==> Valid() && readfds == old(readfds) && old(writefds) <= writefds && old(maxfd) <= maxfd
    {
      hide Sound, Conserved, Handled;
      SoundQuiet(world.listenfd, readfds, Out(), k);
      var rx := ctxs[k].rx;
      ok := HandleMsg(ctxs[k].fromaddr, rx.buf[..rx.msglen]);
      if ok {
        SoundQuiet(world.listenfd, readfds, Out(), k);
        SetRx(k, AfterBody(rx));
      }
    }

    /** The receive loop over what context `k` has unread: every whole message is handled.
        `ended` reports a zero length. */
    method Deframe(k: nat) returns (ok: bool, ended: bool)
      requires Valid() && k < |ctxs| && ctxs[k].toaddr == 0
      modifies this, table
      ensures ok <==> Drained(world, old(Now()), k).up
      ensures ok ==> Now() == Drained(world, old(Now()), k) && ended == Drain(old(ctxs)[k].rx).ended
      ensures ok ==> Valid() && readfds == old(readfds) && old(writefds) <= writefds && old(maxfd) <= maxfd
      ensures ok ==> k < |ctxs| && ctxs[k] == old(ctxs)[k].(rx := Drain(old(ctxs)[k].rx).rx)
    {
      hide Valid, Drain, Value, Handled, HandledAll, WithRx;
      ghost var c, done, h := ctxs[k], [], Now();
      ok, ended := true, false;
      StartDraining(world, h, k);
      while true
        invariant Valid() && k < |ctxs| && ctxs[k] == c.(rx := ctxs[k].rx) && !ended && ok
        invariant readfds == old(readfds) && old(writefds) <= writefds && old(maxfd) <= maxfd
        invariant Drain(c.rx) == (var d := Drain(ctxs[k].rx); d.(msgs := done + d.msgs))
        invariant NonEmpty(done) && h == HandledAll(world, old(Now()), c.fromaddr, done) && h.up
        invariant k < |h.out.ctxs| && Now() == WithRx(h, k, ctxs[k].rx)
        decreases |ctxs[k].rx.buf|
      {
        var rx := ctxs[k].rx;
        DrainStep(rx);
        if rx.msglen == 0 {
          if |rx.buf| < 2 {
            break;
          }
          if Value(rx.buf[..2]) == 0 {
            ended := true;
            break;
          }
          SetRx(k, AfterLength(rx));
          WithRxTwice(h, k, rx, AfterLength(rx));
        } else {
          if |rx.buf| < rx.msglen {
            break;
          }
          ghost var body := rx.buf[..rx.msglen];
          ghost var d := Drain(AfterBody(rx));
          DrainNonEmpty(AfterBody(rx));
          assert done + ([body] + d.msgs) == (done + [body]) + d.msgs;
          ok := Deliver(k);
          h := MoreHandled(world, old(Now()), h, k, rx, c.fromaddr, done, body, d.msgs);
          if !ok {
            return;
          }
          done := done + [body];
        }
      }
      assert done + [] == done;
    }

    /** An accepted connection ended: unwatched, closed and forgotten. */
    method CloseAccepted(k: nat)
      requires Valid() && k < |ctxs| && ctxs[k].toaddr == 0
      modifies `readfds, `ctxs
      ensures Valid() && readfds == old(readfds) - {old(ctxs)[k].fd} && ctxs == Remove(old(ctxs), k)
      ensures Now() == Ended(old(Now()), k)
    {
      hide Sound, Conserved, Distinct;
      SoundQuiet(world.listenfd, readfds, Out(), k);
      SoundDistinct(world.listenfd, readfds, Out());
      CloseKeeps(world.listenfd, readfds, Out(), k);
      RemoveConserves(ctxs, log, k);
      StillSomewhere(ctxs, k);
      var fd := ctxs[k].fd;
      readfds := readfds - {fd};
      ctxs := ctxs[k := ctxs[k].(shutRd := true)];
      if ctxs[k].shutRd && |ctxs[k].wbuf| == 0 {
        ctxs := Remove(ctxs, k);
      }
      assert ctxs == Remove(old(ctxs), k);
    }

    /** A connection has bytes or has ended. */
    method ReadReady(fd: nat, io: seq<RecvEvent>) returns (ok: bool)
      requires Valid() && fd in readfds && fd != world.listenfd
      modifies this, table
      ensures FindFd(old(ctxs), fd) >= 0
      ensures ok <==> ReadFrom(world, old(Now()), fd, io).up
      ensures ok ==> Valid() && Now() == ReadFrom(world, old(Now()), fd, io)
      ensures ok ==> old(writefds) <= writefds && old(maxfd) <= maxfd && old(readfds) - {fd} <= readfds
    {
      hide Sound, Conserved, Drain, Received, WithRx;
      ReadyIsFound(world.listenfd, readfds, Out(), fd);
      ok := true;
      var k := FindFd(ctxs, fd);
      if k == -1 {
        // "socketfd not found in socketctxs" is never reached
        assert false;
      }
      var (bytes, z) := Received(io);
      ghost var c := ctxs[k];
      SetRx(k, ctxs[k].rx.(buf := ctxs[k].rx.buf + bytes));
      var ended;
      ok, ended := Deframe(k);
      if ok && (ended || z == Finished) {
        CloseAccepted(k);
      }
    }

    /** An outgoing connection takes bytes again. */
    method WriteReady(fd: nat, io: seq<SendEvent>)
      requires Valid() && fd in writefds
      modifies `ctxs, `writefds, `maxfd, `log
      ensures FindFd(old(ctxs), fd) >= 0
      ensures Valid() && Now() == WriteTo(old(Now()), fd, io)
      ensures writefds <= old(writefds) <= writefds + {fd} && maxfd == old(maxfd)
    {
      hide Sound, Conserved, SentCount;
      ReadyIsFound(world.listenfd, readfds, Out(), fd);
      var k := FindFd(ctxs, fd);
      if k == -1 {
        // "socketfd not found in socketctxs" is never reached
        assert false;
      }
      var c := ctxs[k];
      var (n, z) := SentCount(|c.wbuf|, io);
      SoundQuiet(world.listenfd, readfds, Out(), k);
      FlushKeeps(world.listenfd, readfds, Out(), k, if z == Failed then [] else c.wbuf[n..], z);
      SoundBound(world.listenfd, readfds, Out());
      assert Distinct(ctxs) by {
        SoundDistinct(world.listenfd, readfds, Out());
      }
      FlushConserves(ctxs, log, k, io);
      log := AfterFlush(log, fd, c.wbuf[..n], z);
      ctxs := ctxs[k := c.(wbuf := c.wbuf[n..])];
      var (w, m) := Watch(fd, z, writefds, maxfd);
      writefds, maxfd := w, m;
      if z == Finished {
        writefds := writefds - {fd};
      }
      if z == Failed {
        writefds := writefds - {fd};
        ctxs := ctxs[k := c.(wbuf := [])];
      }
      assert writefds == if z == Pending then old(writefds) else old(writefds) - {fd};
      assert ctxs == old(ctxs)[k := c.(wbuf := if z == Failed then [] else c.wbuf[n..])];
      assert maxfd == old(maxfd);
      assert Conserved(ctxs, log);
      if |ctxs[k].wbuf| == 0 && ctxs[k].shutRd {
        // an outgoing connection is never shut for reading
        assert false;
      }
    }

    /** A new connection, unless there is none or it is not IPv4. */
    method Accept(a: Accepted)
      requires Valid() && (a.ipv4 ==> HostAddr.Addr(a.fromaddr) != 0)
      modifies `ctxs, `readfds, `maxfd
      ensures Valid() && Now() == Joined(world, old(Now()), a)
      ensures old(maxfd) <= maxfd && old(readfds) <= readfds
    {
      hide Sound, Conserved, Fds;
      if !a.ok || a.fd == world.listenfd || a.fd in Fds(ctxs) {
        return;
      }
      if !a.ipv4 {
        return;
      }
      AcceptKeeps(world.listenfd, readfds, Out(), a.fd, a.fromaddr);
      AcceptConserves(ctxs, log, a.fd, a.fromaddr);
      ctxs := ctxs + [NewCtx(a.fd, a.fromaddr, 0)];
      readfds := readfds + {a.fd};
      if a.fd > maxfd {
        maxfd := a.fd;
      }
    }

    /** One descriptor of the scan. */
    method ServeFd(i: nat, r: Ready) returns (ok: bool)
      requires Valid() && (i in r.read ==> i in readfds) && (i in r.write ==> i in writefds)
      requires r.accepted.ipv4 ==> HostAddr.Addr(r.accepted.fromaddr) != 0
      modifies this, table
      ensures ok <==> Serve(world, old(Now()), r, i).up
      ensures ok ==> Valid() && Now() == Serve(world, old(Now()), r, i)
      ensures ok ==> old(readfds) - {i} <= readfds && old(writefds) - {i} <= writefds && old(maxfd) <= maxfd
    {
      hide Sound, Conserved, Fds, ReadFrom, WriteTo, Joined;
      ok := true;
      WriteUp(Now(), i, r.send(i));
      if i in r.read {
        if i == world.listenfd {
          Accept(r.accepted);
        } else {
          ok := ReadReady(i, r.recv(i));
        }
      }
      if ok && i in r.write {
        WriteUp(Now(), i, r.send(i));
        WriteReady(i, r.send(i));
      }
    }

    /** The scan behind select, up to a bound that accepting and sending may raise while it
        goes on: the ready descriptors are served in increasing order, each once and with
        its context still in the array. */
    method Scan(r: Ready) returns (ok: bool)
      requires Valid() && r.read <= readfds && r.write <= writefds
      requires r.accepted.ipv4 ==> HostAddr.Addr(r.accepted.fromaddr) != 0
      modifies this, table
      ensures var order := Ascending(r.read + r.write, old(maxfd) + 1);
              var t := ServeAll(world, old(Now()), r, order);
              && (forall f :: f in order <==> f in r.read + r.write)
              && (ok <==> t.up)
              && (ok ==> Now() == t)
      ensures ok ==> Valid()
    {
      hide Valid, Serve, ServeAll, Ascending;
      ReadyBounded(r);
      var i := 0;
      ghost var fds := r.read + r.write;
      AscendingLists(fds, maxfd + 1);
      ServeStart(world, Now(), r, fds);
      while i <= maxfd
        invariant 0 <= i && Valid() && old(maxfd) <= maxfd
        invariant forall f :: f in r.read && f >= i ==> f in readfds
        invariant forall f :: f in r.write && f >= i ==> f in writefds
        invariant Now() == ServeAll(world, old(Now()), r, Ascending(fds, i))
        decreases Waiting(r, i), maxfd + 1 - i
      {
        ServeNext(world, old(Now()), r, fds, i);
        WaitingNext(r, i);
        if i in r.read || i in r.write {
          ok := ServeFd(i, r);
          if !ok {
            ServeDown(world, old(Now()), r, fds, i + 1, old(maxfd) + 1);
            return;
          }
        }
        i := i + 1;
      }
      ok := true;
      AscendingEnds(fds, old(maxfd) + 1, i);
    }

    lemma ReadyBounded(r: Ready)
      requires Valid() && r.read <= readfds && r.write <= writefds
      ensures forall f <- r.read + r.write :: f <= maxfd
    {
      SoundBound(world.listenfd, readfds, Out());
    }
  }

  lemma {:induction false} SendAllPeers(w: World, s: State, peers: seq<Peer>, sends: seq<Packet>)
    ensures SendAll(w, s.(peers := peers), sends) == SendAll(w, s, sends).(peers := peers)
    decreases |sends|
  {
    hide SendTo, Answer, AfterSend;
    if sends != [] {
      SendAllPeers(w, s, peers, sends[..|sends| - 1]);
    }
  }

  lemma {:induction false} SendAllUp(w: World, s: State, sends: seq<Packet>)
    ensures SendAll(w, s, sends).up == s.up
    decreases |sends|
  {
    hide SendTo, Answer, AfterSend;
    if sends != [] {
      SendAllUp(w, s, sends[..|sends| - 1]);
    }
  }

  lemma {:induction false} SendAllKeepsPeers(w: World, s: State, sends: seq<Packet>)
    ensures SendAll(w, s, sends).peers == s.peers
    decreases |sends|
  {
    hide SendTo, Answer, AfterSend;
    if sends != [] {
      SendAllKeepsPeers(w, s, sends[..|sends| - 1]);
    }
  }

  lemma StartDraining(w: World, s: State, k: nat)
    requires k < |s.out.ctxs|
    ensures HandledAll(w, s, s.out.ctxs[k].fromaddr, []) == s == WithRx(s, k, s.out.ctxs[k].rx)
    ensures var d := Drain(s.out.ctxs[k].rx); d.(msgs := [] + d.msgs) == d
  {
    WithRxTwice(s, k, s.out.ctxs[k].rx, s.out.ctxs[k].rx);
  }

  /** One more message handled in the receive loop, of which `more` is still to come. */
  lemma MoreHandled(w: World, s: State, h: State, k: nat, rx: Rx, fromaddr: nat, done: seq<seq<byte>>,
                    body: seq<byte>, more: seq<seq<byte>>)
    returns (t: State)
    requires NonEmpty(done) && body != [] && NonEmpty(more)
    requires h == HandledAll(w, s, fromaddr, done) && h.up && k < |h.out.ctxs| && ReadsBody(rx)
    ensures t == HandledAll(w, s, fromaddr, done + [body]) && k < |t.out.ctxs|
    ensures var u := Handled(w, WithRx(h, k, rx), fromaddr, body);
            u.up == t.up && |u.out.ctxs| == |t.out.ctxs| && WithRx(u, k, AfterBody(rx)) == WithRx(t, k, AfterBody(rx))
    ensures !t.up ==> !HandledAll(w, s, fromaddr, (done + [body]) + more).up
  {
    hide Handled, HandledAll;
    HandledAllOne(w, s, fromaddr, done, body);
    t := HandledAll(w, s, fromaddr, done + [body]);
    HandledWithRx(w, h, k, rx, fromaddr, body);
    WithRxTwice(t, k, rx, AfterBody(rx));
    HandledAllSum(w, s, fromaddr, done + [body], more);
    if !t.up {
      DownStays(w, t, fromaddr, more);
    }
  }

  lemma WriteUp(s: State, fd: nat, io: seq<SendEvent>)
    ensures WriteTo(s, fd, io).up == s.up
  {
  }

  lemma ServeStart(w: World, s: State, r: Ready, fds: set<nat>)
    ensures ServeAll(w, s, r, Ascending(fds, 0)) == s
  {
  }

  /** The ready descriptors from `i` on. */
  function Waiting(r: Ready, i: nat): set<nat> {
    set f | f in r.read + r.write && f >= i
  }

  lemma WaitingNext(r: Ready, i: nat)
    ensures if i in r.read || i in r.write then Waiting(r, i + 1) < Waiting(r, i)
            else Waiting(r, i + 1) == Waiting(r, i)
  {
    if i in r.read || i in r.write {
      assert i in Waiting(r, i) && i !in Waiting(r, i + 1);
    }
  }

  lemma SoundBound(listenfd: nat, readfds: set<nat>, t: Outbox)
    requires Sound(listenfd, readfds, t)
    ensures forall fd :: fd in readfds || fd in t.writefds ==> fd <= t.maxfd
  {
  }

  lemma StillSomewhere(ctxs: seq<Ctx>, k: nat)
    requires k < |ctxs| && FromSomewhere(ctxs)
    ensures FromSomewhere(Remove(ctxs, k))
  {
    var r := Remove(ctxs, k);
    assert forall j :: 0 <= j < |r| ==> r[j] == ctxs[if j < k then j else j + 1];
  }

  lemma SoundQuiet(listenfd: nat, readfds: set<nat>, t: Outbox, k: nat)
    requires Sound(listenfd, readfds, t) && k < |t.ctxs|
    ensures !t.ctxs[k].shutRd && (t.ctxs[k].toaddr == 0 ==> t.ctxs[k].wbuf == [])
  {
  }

  lemma JoinReachable(peers: seq<Peer>, alias: seq<byte>, hostname: seq<byte>, fromaddr: nat, toaddr: nat)
    requires Reachable(peers) && toaddr != 0
    ensures Reachable(Create(peers, alias, hostname, fromaddr, toaddr))
    ensures Create(peers, alias, hostname, fromaddr, toaddr) != []
  {
  }

  lemma LeaveIs(peers: seq<Peer>, fromaddr: nat)
    requires Ordered(peers)
    ensures var i := FindFrom(peers, fromaddr);
            Leave(peers, fromaddr) == if i >= 0 then Destroy(peers, i + 1) else peers
  {
  }

  lemma LeaveReachable(peers: seq<Peer>, fromaddr: nat)
    requires Reachable(peers)
    ensures Reachable(Leave(peers, fromaddr)) && |Leave(peers, fromaddr)| == |peers|
  {
  }

  lemma SoundDistinct(listenfd: nat, readfds: set<nat>, t: Outbox)
    requires Sound(listenfd, readfds, t)
    ensures Distinct(t.ctxs)
  {
  }

  lemma SendKeepsCallers(t: Outbox, toaddr: nat, msg: seq<byte>, dial: Dial)
    requires FromSomewhere(t.ctxs) && toaddr != 0
    ensures FromSomewhere(SendTo(t, toaddr, msg, dial).0.ctxs)
  {
  }
}
