/** The whole system: the tracker, any number of clients that come and go, and what is on
    its way between them, as a state machine over atomic steps. */
module Membership {
  import opened Bytes
  import opened Peers
  import opened Messages
  import opened Protocol
  import Client
  import HostAddr

  /** What identifies a peer to its user, as a table keeps it. */
  datatype Names = Names(alias: seq<byte>, hostname: seq<byte>, toaddr: nat)

  function CutNames(alias: seq<byte>, hostname: seq<byte>, toaddr: nat): Names {
    Names(StaticCopy(ALIAS_SIZE + 1, alias), StaticCopy(HOSTNAME_SIZE + 1, hostname), toaddr)
  }

  function NamesIn(m: map<nat, Record>): (r: map<nat, Names>)
    ensures r.Keys == m.Keys
  {
    map a | a in m :: Names(m[a].alias, m[a].hostname, m[a].toaddr)
  }

  function NamesMap(peers: seq<Peer>): (m: map<nat, Names>)
    ensures m.Keys == Addrs(peers)
  {
    NamesIn(AsMap(peers))
  }

  function Active(peers: seq<Peer>): set<nat> {
    set p <- peers | p.active :: p.fromaddr
  }

  /** Who a client shows and what it knows, once everything pending has been worked off. */
  datatype View = View(shown: set<nat>, names: map<nat, Names>)

  function Apply(v: View, n: News): View {
    match n
    case Online(alias, hostname, fromaddr, toaddr) =>
      View(v.shown + {fromaddr},
           v.names[fromaddr := CutNames(alias, hostname, toaddr)])
    case Offline(fromaddr) => v.(shown := v.shown - {fromaddr})
  }

  function ApplyAll(v: View, inbox: seq<News>): View
    decreases |inbox|
  {
    if inbox == [] then v else ApplyAll(Apply(v, inbox[0]), inbox[1..])
  }

  lemma {:induction false} ApplySum(v: View, a: seq<News>, b: seq<News>)
    ensures ApplyAll(v, a + b) == ApplyAll(ApplyAll(v, a), b)
    decreases |a|
  {
    if a == [] {
      assert a + b == b;
    } else {
      ApplySum(Apply(v, a[0]), a[1..], b);
      assert (a + b)[1..] == a[1..] + b;
    }
  }

  /** The address a handle means. */
  function AddrOf(peers: seq<Peer>, h: nat): nat {
    if 1 <= h <= |peers| then peers[h - 1].fromaddr else 0
  }

  function RowAddrs(peers: seq<Peer>, rows: seq<nat>): set<nat> {
    set h <- rows :: AddrOf(peers, h)
  }

  /** The rows after the queued callbacks, as addresses. */
  function AfterIdle(peers: seq<Peer>, idle: seq<Client.Idle>, shown: set<nat>): set<nat> {
    if idle == [] then shown
    else
      var a := AddrOf(peers, idle[0].h);
      AfterIdle(peers, idle[1..],
                match idle[0]
                case PeerCameOnline(_) => shown + {a}
                case PeerWentOffline(_) => shown - {a}
                case OpenChat(_) => shown)
  }

  function ViewOf(c: Client.State): View {
    View(AfterIdle(c.peers, c.idle, RowAddrs(c.peers, c.rows)), NamesMap(c.peers))
  }

  lemma {:induction false} AfterIdleSum(peers: seq<Peer>, a: seq<Client.Idle>, i: Client.Idle, shown: set<nat>)
    ensures AfterIdle(peers, a + [i], shown) == AfterIdle(peers, [i], AfterIdle(peers, a, shown))
    decreases |a|
  {
    if a == [] {
      assert a + [i] == [i];
    } else {
      var x := AddrOf(peers, a[0].h);
      var next := match a[0]
                  case PeerCameOnline(_) => shown + {x}
                  case PeerWentOffline(_) => shown - {x}
                  case OpenChat(_) => shown;
      AfterIdleSum(peers, a[1..], i, next);
      assert (a + [i])[1..] == a[1..] + [i];
    }
  }

  /** Handles that are kept give the same rows. */
  lemma {:induction false} AfterIdleKept(p: seq<Peer>, q: seq<Peer>, idle: seq<Client.Idle>, shown: set<nat>)
    requires HandlesKept(p, q) && forall i :: 0 <= i < |idle| ==> 1 <= idle[i].h <= |p|
    ensures AfterIdle(p, idle, shown) == AfterIdle(q, idle, shown)
    decreases |idle|
  {
    if idle != [] {
      var x := AddrOf(p, idle[0].h);
      var next := match idle[0]
                  case PeerCameOnline(_) => shown + {x}
                  case PeerWentOffline(_) => shown - {x}
                  case OpenChat(_) => shown;
      AfterIdleKept(p, q, idle[1..], next);
    }
  }

  lemma RowsKept(p: seq<Peer>, q: seq<Peer>, rows: seq<nat>)
    requires HandlesKept(p, q) && forall h <- rows :: 1 <= h <= |p|
    ensures RowAddrs(p, rows) == RowAddrs(q, rows)
  {
    assert forall h <- rows :: AddrOf(p, h) == AddrOf(q, h);
  }

  lemma CreateNames(peers: seq<Peer>, alias: seq<byte>, hostname: seq<byte>, fromaddr: nat, toaddr: nat)
    requires Ordered(peers)
    ensures NamesMap(Create(peers, alias, hostname, fromaddr, toaddr))
      == NamesMap(peers)[fromaddr := CutNames(alias, hostname, toaddr)]
  {
    hide AsMap, Create, StaticCopy;
    CreateInMap(peers, alias, hostname, fromaddr, toaddr);
  }

  /** Receiving moves one piece of news from the inbox into the tables and the idle queue:
      what the client will show and know is the same. */
  lemma ReceiveView(c: Client.State, n: News)
    requires Client.Sound(c) && (n.Offline? ==> n.fromaddr in Addrs(c.peers))
    ensures ViewOf(Client.Receive(c, n)) == Apply(ViewOf(c), n)
  {
    hide NamesMap, FindFrom, Create;
    var d := Client.Receive(c, n);
    var shown := RowAddrs(c.peers, c.rows);
    Client.ReceiveKeeps(c, n);
    RowsKept(c.peers, d.peers, c.rows);
    AfterIdleKept(c.peers, d.peers, c.idle, shown);
    var last := d.idle[|d.idle| - 1];
    match n
    case Online(alias, hostname, fromaddr, toaddr) =>
      CreateNames(c.peers, alias, hostname, fromaddr, toaddr);
      Client.CreateHandle(c.peers, alias, hostname, fromaddr, toaddr);
      assert AddrOf(d.peers, last.h) == fromaddr;
      AfterIdleSum(d.peers, c.idle, last, shown);
      OneIdle(d.peers, last, AfterIdle(d.peers, c.idle, shown));
    case Offline(fromaddr) =>
      assert AddrOf(d.peers, last.h) == fromaddr;
      AfterIdleSum(d.peers, c.idle, last, shown);
      OneIdle(d.peers, last, AfterIdle(d.peers, c.idle, shown));
  }

  lemma OneIdle(peers: seq<Peer>, i: Client.Idle, shown: set<nat>)
    ensures i.PeerCameOnline? ==> AfterIdle(peers, [i], shown) == shown + {AddrOf(peers, i.h)}
    ensures i.PeerWentOffline? ==> AfterIdle(peers, [i], shown) == shown - {AddrOf(peers, i.h)}
  {
  }

  lemma DestroyNames(peers: seq<Peer>, h: int)
    requires Ordered(peers)
    ensures NamesMap(Destroy(peers, h)) == NamesMap(peers)
  {
    hide AsMap, Destroy;
    DestroyInMap(peers, h);
  }

  lemma RemovedRowAddrs(peers: seq<Peer>, rows: seq<nat>, h: nat)
    requires Ordered(peers) && Client.NoDuplicates(rows) && 1 <= h <= |peers| && forall x <- rows :: 1 <= x <= |peers|
    ensures RowAddrs(peers, Client.RemoveRow(rows, h)) == RowAddrs(peers, rows) - {AddrOf(peers, h)}
  {
    hide Client.RemoveRow;
    Client.RemoveRowRows(rows, h);
    forall x | x in rows && x != h
      ensures AddrOf(peers, x) != AddrOf(peers, h)
    {
    }
  }

  lemma AddedRowAddrs(peers: seq<Peer>, rows: seq<nat>, h: nat)
    requires Client.NoDuplicates(rows)
    ensures RowAddrs(peers, Client.AddRow(rows, h)) == RowAddrs(peers, rows) + {AddrOf(peers, h)}
  {
    hide Client.AddRow;
    Client.LastNotAgain(rows, h);
  }

  /** Running a callback moves it from the queue into the rows: again the same. */
  lemma RunIdleView(c: Client.State)
    requires Client.Sound(c) && c.idle != []
    ensures ViewOf(Client.RunIdle(c)) == ViewOf(c)
  {
    hide NamesMap, RowAddrs, Client.AddRow, Client.RemoveRow, Destroy, AddrOf;
    var d, h := Client.RunIdle(c), c.idle[0].h;
    match c.idle[0]
    case PeerCameOnline(_) =>
      AddedRowAddrs(c.peers, c.rows, h);
    case PeerWentOffline(_) =>
      RemovedRowAddrs(c.peers, c.rows, h);
      DestroyNames(c.peers, h);
      Client.DestroyKeeps(c.peers, h);
      Client.RemoveRowRows(c.rows, h);
      RowsKept(c.peers, d.peers, d.rows);
      AfterIdleKept(c.peers, d.peers, d.idle, RowAddrs(c.peers, d.rows));
    case OpenChat(_) =>
  }

  /** The news among `sends` that goes to `to`, in order. */
  function For(sends: seq<Send>, to: nat): seq<News> {
    if sends == [] then []
    else
      var (dest, n) := sends[|sends| - 1];
      For(sends[..|sends| - 1], to) + if dest == to then [n] else []
  }

  lemma {:induction false} ForSum(a: seq<Send>, b: seq<Send>, to: nat)
    ensures For(a + b, to) == For(a, to) + For(b, to)
    decreases |b|
  {
    if b == [] {
      assert a + b == a;
    } else {
      ForSum(a, b[..|b| - 1], to);
      assert (a + b)[..|a + b| - 1] == a + b[..|b| - 1];
    }
  }

  lemma ForOne(sends: seq<Send>, s: Send, to: nat)
    ensures For(sends + [s], to) == For(sends, to) + if s.0 == to then [s.1] else []
  {
    assert (sends + [s])[..|sends|] == sends;
  }

  function ActiveTo(peers: seq<Peer>): set<nat> {
    set p <- peers | p.active :: p.toaddr
  }

  /** No two active peers listen at the same place. */
  ghost predicate Apart(peers: seq<Peer>) {
    forall i, j :: 0 <= i < j < |peers| && peers[i].active && peers[j].active ==> peers[i].toaddr != peers[j].toaddr
  }

  /** A broadcast brings the news once to every active peer, and to nobody else. */
  lemma {:induction false} ForBroadcast(peers: seq<Peer>, n: News, to: nat)
    requires Apart(peers)
    ensures For(Broadcast(peers, n), to) == if to in ActiveTo(peers) then [n] else []
  {
    if peers != [] {
      var init, p := peers[..|peers| - 1], peers[|peers| - 1];
      ForBroadcast(init, n, to);
      ForOne(Broadcast(init, n), (p.toaddr, n), to);
      ActiveLast(peers);
      if p.active && p.toaddr == to {
        assert to !in ActiveTo(init);
      }
    }
  }

  /** The news of the active peers, in table order. */
  function AllOnline(peers: seq<Peer>): seq<News> {
    if peers == [] then []
    else
      var p, news := peers[|peers| - 1], AllOnline(peers[..|peers| - 1]);
      if p.active then news + [PeerOnline(p)] else news
  }

  /** A replay goes to its destination alone. */
  lemma {:induction false} ForReplay(peers: seq<Peer>, dest: nat, to: nat)
    ensures For(Replay(peers, dest), to) == if to == dest then AllOnline(peers) else []
  {
    if peers != [] {
      var init, p := peers[..|peers| - 1], peers[|peers| - 1];
      ForReplay(init, dest, to);
      ForOne(Replay(init, dest), (dest, PeerOnline(p)), to);
    }
  }

  /** The names in the table are C strings short enough to be copied without loss. */
  ghost predicate Cut(peers: seq<Peer>) {
    forall i :: 0 <= i < |peers| ==>
      && |peers[i].alias| <= ALIAS_SIZE && |peers[i].hostname| <= HOSTNAME_SIZE
      && Nameable(peers[i].alias, peers[i].hostname)
  }

  const NOBODY := View({}, map[])

  function NamesOf(p: Peer): Names {
    Names(p.alias, p.hostname, p.toaddr)
  }

  /** A newcomer that works off a replay shows exactly the active peers, under the names
      the tracker has for them. */
  lemma {:induction false} ReplayView(peers: seq<Peer>)
    requires Ordered(peers) && Cut(peers)
    ensures var v := ApplyAll(NOBODY, AllOnline(peers));
            && v.shown == Active(peers) == v.names.Keys
            && forall i :: 0 <= i < |peers| && peers[i].active ==> v.names[peers[i].fromaddr] == NamesOf(peers[i])
  {
    if peers != [] {
      var init, p := peers[..|peers| - 1], peers[|peers| - 1];
      ReplayView(init);
      ActiveLast(peers);
      if p.active {
        ApplySum(NOBODY, AllOnline(init), [PeerOnline(p)]);
        var v := ApplyAll(NOBODY, AllOnline(init));
        ApplyOne(v, PeerOnline(p));
        hide ApplyAll, AllOnline;
        forall i | 0 <= i < |peers| && peers[i].active
          ensures Apply(v, PeerOnline(p)).names[peers[i].fromaddr] == NamesOf(peers[i])
        {
          assert i < |init| ==> peers[i] == init[i] && peers[i].fromaddr != p.fromaddr;
        }
      } else {
        assert forall i :: 0 <= i < |peers| && peers[i].active ==> i < |init| && peers[i] == init[i];
      }
    }
  }

  lemma ActiveLast(peers: seq<Peer>)
    requires peers != []
    ensures var init, p := peers[..|peers| - 1], peers[|peers| - 1];
            && Active(peers) == Active(init) + (if p.active then {p.fromaddr} else {})
            && ActiveTo(peers) == ActiveTo(init) + (if p.active then {p.toaddr} else {})
  {
    var init, p := peers[..|peers| - 1], peers[|peers| - 1];
    assert peers == init + [p];
  }

  lemma ApplyOne(v: View, n: News)
    ensures ApplyAll(v, [n]) == Apply(v, n)
  {
  }

  /** Which clients there are: the address each sends from, and the one it listens at. */
  type Config = map<nat, nat>

  /** No two clients listen at the same place. */
  ghost predicate Proper(cfg: Config) {
    && (forall a <- cfg :: a < 0x1_0000_0000_0000 && cfg[a] < 0x1_0000_0000_0000)
    && (forall a, b | a in cfg && b in cfg && a != b :: cfg[a] != cfg[b])
  }

  /** A request as the tracker takes it. */
  datatype Call = Knocking(alias: seq<byte>, hostname: seq<byte>, toaddr: nat) | Leaving

  /** The sender listens at its own address, on the port that the request announces. */
  function Taken(a: nat, r: Request): Call {
    match r
    case Knock(alias, hostname, listenport) => Knocking(alias, hostname, HostAddr.WithPort(a, listenport % 0x1_0000))
    case Bye => Leaving
  }

  /** A client process, the news on its way to it, and its requests on their way to the tracker. */
  datatype Node = Node(up: bool, client: Client.State, inbox: seq<News>, out: seq<Call>)

  datatype Sys = Sys(peers: seq<Peer>, nodes: map<nat, Node>)

  /** What arrives at a listening process waits in order; what finds none is lost. */
  function Arrive(cfg: Config, nodes: map<nat, Node>, sends: seq<Send>): (r: map<nat, Node>)
    ensures r.Keys == nodes.Keys
  {
    map a | a in nodes ::
      if nodes[a].up && a in cfg then nodes[a].(inbox := nodes[a].inbox + For(sends, cfg[a])) else nodes[a]
  }

  datatype Step =
    | Start(a: nat, alias: seq<byte>, hostname: seq<byte>, listenport: HostAddr.u16)
    | Handle(a: nat)
    | Receive(a: nat)
    | Idle(a: nat)
    | Stop(a: nat)

  /** A client starts when its last goodbye has been handled, under names that fit in a
      message, and announces the port it listens on; the tracker handles, a client receives
      or runs a callback when there is something to; a client may stop at any time. */
  predicate Enabled(cfg: Config, s: Sys, step: Step) {
    step.a in cfg && step.a in s.nodes &&
    var n := s.nodes[step.a];
    match step
    case Start(a, alias, hostname, listenport) =>
      !n.up && n.out == [] && Nameable(alias, hostname) && HostAddr.WithPort(a, listenport) == cfg[a]
    case Handle(_) => n.out != []
    case Receive(_) => n.up && n.inbox != []
    case Idle(_) => n.up && n.client.idle != []
    case Stop(_) => n.up
  }

  function React(peers: seq<Peer>, a: nat, r: Call): (seq<Peer>, seq<Send>) {
    match r
    case Knocking(alias, hostname, toaddr) => KnockStep(peers, a, alias, hostname, toaddr)
    case Leaving => ByeStep(peers, a)
  }

  function Next(cfg: Config, s: Sys, step: Step): Sys
    requires Enabled(cfg, s, step)
  {
    var n := s.nodes[step.a];
    match step
    case Start(a, alias, hostname, listenport) =>
      s.(nodes := s.nodes[a := Node(true, Client.FRESH, [], [Taken(a, Knock(alias, hostname, listenport))])])
    case Handle(a) =>
      var (peers, sends) := React(s.peers, a, n.out[0]);
      Sys(peers, Arrive(cfg, s.nodes[a := n.(out := n.out[1..])], sends))
    case Receive(a) =>
      s.(nodes := s.nodes[a := n.(client := Client.Receive(n.client, n.inbox[0]), inbox := n.inbox[1..])])
    case Idle(a) =>
      s.(nodes := s.nodes[a := n.(client := Client.RunIdle(n.client))])
    case Stop(a) =>
      s.(nodes := s.nodes[a := Node(false, Client.FRESH, [], n.out + [Taken(a, Bye)])])
  }

  /** The tracker's entries are those of clients, under the place each listens at. */
  ghost predicate TableOf(cfg: Config, peers: seq<Peer>) {
    && Ordered(peers) && Cut(peers)
    && forall i :: 0 <= i < |peers| ==> peers[i].fromaddr in cfg && peers[i].toaddr == cfg[peers[i].fromaddr]
  }

  /** Every goodbye in the inbox is for a peer the client will know of by then. */
  predicate Expected(v: View, inbox: seq<News>)
    decreases |inbox|
  {
    inbox == [] || ((inbox[0].Offline? ==> inbox[0].fromaddr in v.names) && Expected(Apply(v, inbox[0]), inbox[1..]))
  }

  lemma {:induction false} ExpectedSum(v: View, a: seq<News>, b: seq<News>)
    ensures Expected(v, a + b) <==> Expected(v, a) && Expected(ApplyAll(v, a), b)
    decreases |a|
  {
    if a == [] {
      assert a + b == b;
    } else {
      ExpectedSum(Apply(v, a[0]), a[1..], b);
      assert (a + b)[1..] == a[1..] + b;
    }
  }

  lemma {:induction false} ExpectedOnline(v: View, peers: seq<Peer>)
    ensures Expected(v, AllOnline(peers))
  {
    if peers != [] {
      var init, p := peers[..|peers| - 1], peers[|peers| - 1];
      ExpectedOnline(v, init);
      if p.active {
        ExpectedSum(v, AllOnline(init), [PeerOnline(p)]);
        ExpectedOne(ApplyAll(v, AllOnline(init)), PeerOnline(p));
      }
    }
  }

  lemma ExpectedOne(v: View, n: News)
    ensures Expected(v, [n]) <==> (n.Offline? ==> n.fromaddr in v.names)
  {
  }

  /** Worked off, the inbox leaves the client showing exactly the tracker's active peers but
      itself, each under the names the tracker has for it. */
  ghost predicate Agrees(peers: seq<Peer>, a: nat, v: View) {
    && v.shown == Active(peers) - {a}
    && forall i :: 0 <= i < |peers| && peers[i].active && peers[i].fromaddr != a ==>
         peers[i].fromaddr in v.names && v.names[peers[i].fromaddr] == NamesOf(peers[i])
  }

  /** Where a client is between its knock and its goodbye. */
  ghost predicate NodeOf(cfg: Config, peers: seq<Peer>, a: nat, n: Node)
    requires a in cfg
  {
    && Client.Sound(n.client)
    && (forall m <- n.inbox :: Sendable(m))
    && if n.up then
         if n.out == [] then
           && a in Active(peers)
           && Expected(ViewOf(n.client), n.inbox)
           && Agrees(peers, a, ApplyAll(ViewOf(n.client), n.inbox))
         else
           && a !in Active(peers) && n.client == Client.FRESH && n.inbox == []
           && |n.out| == 1 && Knocks(cfg, a, n.out[0])
       else
         && n.inbox == []
         && (|| (n.out == [] && a !in Active(peers))
             || (n.out == [Leaving] && a in Active(peers))
             || (|n.out| == 2 && Knocks(cfg, a, n.out[0]) && n.out[1] == Leaving && a !in Active(peers)))
  }

  predicate Knocks(cfg: Config, a: nat, r: Call)
    requires a in cfg
  {
    r.Knocking? && r.toaddr == cfg[a] && Nameable(r.alias, r.hostname)
  }

  ghost predicate Inv(cfg: Config, s: Sys) {
    && Proper(cfg) && TableOf(cfg, s.peers) && s.nodes.Keys == cfg.Keys
    && forall a <- cfg :: NodeOf(cfg, s.peers, a, s.nodes[a])
  }

  function Init(cfg: Config): Sys {
    Sys([], map a | a in cfg :: Node(false, Client.FRESH, [], []))
  }

  lemma InitInv(cfg: Config)
    requires Proper(cfg)
    ensures Inv(cfg, Init(cfg))
  {
  }

  lemma StartInv(cfg: Config, s: Sys, step: Step)
    requires Inv(cfg, s) && Enabled(cfg, s, step) && step.Start?
    ensures Inv(cfg, Next(cfg, s, step))
  {
    hide TableOf, Active, Agrees, ViewOf, ApplyAll, Expected, HostAddr.WithPort;
    HostAddr.PortStays(step.listenport);
  }

  lemma StopInv(cfg: Config, s: Sys, step: Step)
    requires Inv(cfg, s) && Enabled(cfg, s, step) && step.Stop?
    ensures Inv(cfg, Next(cfg, s, step))
  {
    hide TableOf, Active, Agrees, ViewOf, ApplyAll, Expected;
  }

  lemma ReceiveInv(cfg: Config, s: Sys, step: Step)
    requires Inv(cfg, s) && Enabled(cfg, s, step) && step.Receive?
    ensures Inv(cfg, Next(cfg, s, step))
  {
    hide ViewOf, Apply, Client.Receive, Client.Sound, Agrees, Active, TableOf;
    var n := s.nodes[step.a];
    assert NodeOf(cfg, s.peers, step.a, n);
    assert Client.Sound(n.client);
    ViewKnows(n.client);
    ReceiveView(n.client, n.inbox[0]);
    Client.ReceiveKeeps(n.client, n.inbox[0]);
  }

  lemma ViewKnows(c: Client.State)
    ensures ViewOf(c).names.Keys == Addrs(c.peers)
  {
  }

  lemma IdleInv(cfg: Config, s: Sys, step: Step)
    requires Inv(cfg, s) && Enabled(cfg, s, step) && step.Idle?
    ensures Inv(cfg, Next(cfg, s, step))
  {
    hide ViewOf, Client.RunIdle, Client.Sound, Agrees, Active, TableOf, ApplyAll, Expected;
    var n := s.nodes[step.a];
    assert NodeOf(cfg, s.peers, step.a, n);
    RunIdleView(n.client);
    Client.RunIdleKeeps(n.client);
  }

  lemma TableApart(cfg: Config, peers: seq<Peer>)
    requires Proper(cfg) && TableOf(cfg, peers)
    ensures Apart(peers)
  {
    forall i, j | 0 <= i < j < |peers| && peers[i].active && peers[j].active
      ensures peers[i].toaddr != peers[j].toaddr
    {
      assert peers[i].fromaddr != peers[j].fromaddr;
    }
  }

  /** A client's listening place is an active one exactly if the client is active. */
  lemma ActiveToOf(cfg: Config, peers: seq<Peer>, a: nat)
    requires Proper(cfg) && TableOf(cfg, peers) && a in cfg
    ensures cfg[a] in ActiveTo(peers) <==> a in Active(peers)
  {
  }

  /** Who hears what of a knock: the active peers of the newcomer, the newcomer of them. */
  lemma KnockFor(cfg: Config, peers: seq<Peer>, x: nat, r: Call, a: nat)
    requires Proper(cfg) && TableOf(cfg, peers) && x in cfg && a in cfg && Knocks(cfg, x, r)
    requires x !in Active(peers)
    ensures For(React(peers, x, r).1, cfg[a])
      == if a == x then AllOnline(peers)
         else if a in Active(peers) then [Online(r.alias, r.hostname, x, cfg[x])]
         else []
  {
    hide TableOf, Broadcast, Replay, For, Active, ActiveTo;
    var to, n := cfg[a], Online(r.alias, r.hostname, x, cfg[x]);
    KnockReact(cfg, peers, x, r);
    TableApart(cfg, peers);
    ActiveToOf(cfg, peers, a);
    ForSum(Broadcast(peers, n), Replay(peers, cfg[x]), to);
    ForBroadcast(peers, n, to);
    ForReplay(peers, cfg[x], to);
    assert [] + AllOnline(peers) == AllOnline(peers);
  }

  /** The table behind a knock. */
  lemma KnockTable(cfg: Config, peers: seq<Peer>, x: nat, r: Call)
    requires Proper(cfg) && TableOf(cfg, peers) && x in cfg && Knocks(cfg, x, r)
    requires x !in Active(peers)
    ensures var after := React(peers, x, r).0;
            && TableOf(cfg, after) && Active(after) == Active(peers) + {x}
            && forall i :: 0 <= i < |after| && after[i].active ==>
                 if after[i].fromaddr == x then NamesOf(after[i]) == NewNames(r, cfg[x])
                 else i < |peers| && after[i] == peers[i]
  {
    hide React, FindFrom, Active, StaticCopy;
    KnockReact(cfg, peers, x, r);
    var after, i := React(peers, x, r).0, FindFrom(peers, x);
    CreateOrdered(peers, r.alias, r.hostname, x, cfg[x]);
    var k := if i >= 0 then i else |peers|;
    if i >= 0 {
      NotActive(peers, i);
    }
    ActiveChanged(peers, after, k);
  }

  lemma NotActive(peers: seq<Peer>, i: nat)
    requires i < |peers| && peers[i].fromaddr !in Active(peers)
    ensures !peers[i].active
  {
    assert peers[i] in peers;
  }

  lemma KnockReact(cfg: Config, peers: seq<Peer>, x: nat, r: Call)
    requires x in cfg && Knocks(cfg, x, r)
    ensures var to := cfg[x];
            React(peers, x, r) == (Create(peers, r.alias, r.hostname, x, to),
                                   Broadcast(peers, Online(r.alias, r.hostname, x, to)) + Replay(peers, to))
  {
    hide Create, Broadcast, Replay, Nameable;
  }

  function NewNames(r: Call, toaddr: nat): Names
    requires r.Knocking?
  {
    CutNames(r.alias, r.hostname, toaddr)
  }

  /** One entry, new or inactive before, has become active. */
  lemma ActiveChanged(peers: seq<Peer>, after: seq<Peer>, k: nat)
    requires k < |after| && |peers| <= |after| <= |peers| + 1 && |peers| >= k && after[k].active
    requires |after| == |peers| + 1 <==> k == |peers|
    requires forall i :: 0 <= i < |peers| && i != k ==> after[i] == peers[i]
    requires k < |peers| ==> !peers[k].active
    ensures Active(after) == Active(peers) + {after[k].fromaddr}
  {
    forall a | a in Active(peers)
      ensures a in Active(after)
    {
      var i :| 0 <= i < |peers| && peers[i].active && peers[i].fromaddr == a;
      assert after[i] == peers[i];
    }
    assert after[k] in after;
  }

  /** An active client that hears of a newcomer agrees with the tracker that has let it in. */
  lemma HearsOnline(cfg: Config, peers: seq<Peer>, x: nat, r: Call, a: nat, v: View)
    requires Proper(cfg) && TableOf(cfg, peers) && x in cfg && Knocks(cfg, x, r)
    requires x !in Active(peers) && a != x && Agrees(peers, a, v)
    ensures Agrees(React(peers, x, r).0, a, Apply(v, Online(r.alias, r.hostname, x, cfg[x])))
  {
    hide React, TableOf, Active, StaticCopy;
    KnockTable(cfg, peers, x, r);
    var after := React(peers, x, r).0;
  }

  /** The newcomer, worked off, agrees with the tracker that has let it in. */
  lemma NewcomerAgrees(cfg: Config, peers: seq<Peer>, x: nat, r: Call)
    requires Proper(cfg) && TableOf(cfg, peers) && x in cfg && Knocks(cfg, x, r)
    requires x !in Active(peers)
    ensures ViewOf(Client.FRESH) == NOBODY
    ensures Agrees(React(peers, x, r).0, x, ApplyAll(NOBODY, AllOnline(peers)))
  {
    FreshView();
    hide React, Active, StaticCopy, ApplyAll, AllOnline, ViewOf;
    KnockTable(cfg, peers, x, r);
    ReplayView(peers);
    assert Active(peers) + {x} - {x} == Active(peers);
    forall i | 0 <= i < |peers| && peers[i].active
      ensures peers[i].fromaddr in Active(peers)
    {
      InActive(peers, i);
    }
  }

  lemma InActive(peers: seq<Peer>, i: nat)
    requires i < |peers| && peers[i].active
    ensures peers[i].fromaddr in Active(peers)
  {
    assert peers[i] in peers;
  }

  lemma FreshView()
    ensures ViewOf(Client.FRESH) == NOBODY
  {
    assert NamesMap([]) == map[];
  }

  lemma {:induction false} OnlineSendable(cfg: Config, peers: seq<Peer>)
    requires Proper(cfg) && TableOf(cfg, peers)
    ensures forall m <- AllOnline(peers) :: Sendable(m)
  {
    if peers != [] {
      OnlineSendable(cfg, peers[..|peers| - 1]);
    }
  }

  /** One client across the handling of a knock. */
  lemma KnockNode(cfg: Config, s: Sys, x: nat, a: nat)
    requires Inv(cfg, s) && x in cfg && a in cfg && s.nodes[x].out != [] && s.nodes[x].out[0].Knocking?
    ensures Enabled(cfg, s, Handle(x))
    ensures var t := Next(cfg, s, Handle(x)); a in t.nodes && NodeOf(cfg, t.peers, a, t.nodes[a])
  {
    hide React, TableOf, Active, ApplyAll, AllOnline, ViewOf, For, Expected, Agrees, Client.Sound;
    var n, r := s.nodes[a], s.nodes[x].out[0];
    assert NodeOf(cfg, s.peers, x, s.nodes[x]) && NodeOf(cfg, s.peers, a, n);
    KnockTable(cfg, s.peers, x, r);
    KnockFor(cfg, s.peers, x, r, a);
    var news := For(React(s.peers, x, r).1, cfg[a]);
    assert n.inbox + [] == n.inbox;
    if n.up && a == x {
      NewcomerAgrees(cfg, s.peers, x, r);
      ExpectedOnline(NOBODY, s.peers);
      OnlineSendable(cfg, s.peers);
      assert [] + news == news;
    } else if n.up && n.out == [] {
      var v := ViewOf(n.client);
      HearsOnline(cfg, s.peers, x, r, a, ApplyAll(v, n.inbox));
      ApplySum(v, n.inbox, news);
      ApplyOne(ApplyAll(v, n.inbox), news[0]);
      ExpectedSum(v, n.inbox, news);
      ExpectedOne(ApplyAll(v, n.inbox), news[0]);
      AddressesSmall(cfg, x);
    }
  }

  lemma AddressesSmall(cfg: Config, x: nat)
    requires Proper(cfg) && x in cfg
    ensures x < 0x1_0000_0000_0000 && cfg[x] < 0x1_0000_0000_0000
  {
  }

  /** The table behind a goodbye. */
  lemma ByeTable(cfg: Config, peers: seq<Peer>, x: nat)
    requires Proper(cfg) && TableOf(cfg, peers) && x in Active(peers)
    ensures var after := React(peers, x, Leaving).0;
            && TableOf(cfg, after) && Active(after) == Active(peers) - {x}
            && forall i :: 0 <= i < |after| && after[i].active ==> i < |peers| && after[i] == peers[i]
  {
    var k := LeaveAt(peers, x);
    Client.DestroyKeeps(peers, k + 1);
    ActiveWithout(peers, k);
    hide React, FindFrom, Active, Destroy, ByeStep, Nameable;
    assert React(peers, x, Leaving).0 == Leave(peers, x) by {
      LeavingIs(peers, x);
    }
    Turned(peers, k);
  }

  lemma LeavingIs(peers: seq<Peer>, x: nat)
    ensures React(peers, x, Leaving).0 == Leave(peers, x)
  {
  }

  lemma Turned(peers: seq<Peer>, k: nat)
    requires k < |peers|
    ensures Destroy(peers, k + 1) == peers[k := peers[k].(active := false)]
  {
  }

  /** Where the entry is that leaving turns off. */
  lemma LeaveAt(peers: seq<Peer>, x: nat) returns (k: nat)
    requires Ordered(peers) && x in Active(peers)
    ensures k < |peers| && peers[k].fromaddr == x && Leave(peers, x) == Destroy(peers, k + 1)
  {
    var i :| 0 <= i < |peers| && peers[i].active && peers[i].fromaddr == x;
    k := FindFrom(peers, x);
  }

  lemma ActiveWithout(peers: seq<Peer>, k: nat)
    requires Ordered(peers) && k < |peers|
    ensures Active(Destroy(peers, k + 1)) == Active(peers) - {peers[k].fromaddr}
  {
    var after := Destroy(peers, k + 1);
    forall a | a in Active(peers) && a != peers[k].fromaddr
      ensures a in Active(after)
    {
      var i :| 0 <= i < |peers| && peers[i].active && peers[i].fromaddr == a;
      assert after[i] == peers[i];
    }
  }

  /** Who hears what of a goodbye: those who stay. */
  lemma ByeFor(cfg: Config, peers: seq<Peer>, x: nat, a: nat)
    requires Proper(cfg) && TableOf(cfg, peers) && x in Active(peers) && a in cfg
    ensures For(React(peers, x, Leaving).1, cfg[a]) == if a in Active(peers) && a != x then [Offline(x)] else []
  {
    var after := React(peers, x, Leaving).0;
    hide TableOf, Active, ActiveTo, For, Broadcast, Leave;
    ByeTable(cfg, peers, x);
    TableApart(cfg, after);
    ActiveToOf(cfg, after, a);
    ForBroadcast(after, Offline(x), cfg[a]);
  }

  /** One client across the handling of a goodbye. */
  lemma ByeNode(cfg: Config, s: Sys, x: nat, a: nat)
    requires Inv(cfg, s) && x in cfg && a in cfg && s.nodes[x].out != [] && s.nodes[x].out[0] == Leaving
    ensures Enabled(cfg, s, Handle(x))
    ensures var t := Next(cfg, s, Handle(x)); a in t.nodes && NodeOf(cfg, t.peers, a, t.nodes[a])
  {
    hide React, TableOf, Active, ApplyAll, ViewOf, For, Expected, Client.Sound;
    var n := s.nodes[a];
    assert NodeOf(cfg, s.peers, x, s.nodes[x]) && NodeOf(cfg, s.peers, a, n);
    ByeTable(cfg, s.peers, x);
    ByeFor(cfg, s.peers, x, a);
    var news := For(React(s.peers, x, Leaving).1, cfg[a]);
    assert n.inbox + [] == n.inbox;
    if n.up && n.out == [] {
      var v := ViewOf(n.client);
      ApplySum(v, n.inbox, news);
      ApplyOne(ApplyAll(v, n.inbox), news[0]);
      ExpectedSum(v, n.inbox, news);
      ExpectedOne(ApplyAll(v, n.inbox), news[0]);
      KnowsActive(s.peers, a, ApplyAll(v, n.inbox), x);
      AddressesSmall(cfg, x);
    }
  }

  lemma KnowsActive(peers: seq<Peer>, a: nat, v: View, x: nat)
    requires Agrees(peers, a, v) && x in Active(peers) && x != a
    ensures x in v.names
  {
  }

  lemma RequestPhase(cfg: Config, s: Sys, x: nat)
    requires Inv(cfg, s) && x in cfg && s.nodes[x].out != []
    ensures var r := s.nodes[x].out[0];
            if r.Knocking? then x !in Active(s.peers) && Knocks(cfg, x, r) else x in Active(s.peers)
  {
    assert NodeOf(cfg, s.peers, x, s.nodes[x]);
  }

  /** The tracker's table behind any request. */
  lemma HandleTable(cfg: Config, s: Sys, x: nat)
    requires Inv(cfg, s) && Enabled(cfg, s, Handle(x))
    ensures TableOf(cfg, Next(cfg, s, Handle(x)).peers) && Next(cfg, s, Handle(x)).nodes.Keys == s.nodes.Keys
  {
    RequestPhase(cfg, s, x);
    hide React, TableOf, Active, NodeOf, For, Knocks;
    if s.nodes[x].out[0].Knocking? {
      KnockTable(cfg, s.peers, x, s.nodes[x].out[0]);
    } else {
      ByeTable(cfg, s.peers, x);
    }
  }

  lemma HandleInv(cfg: Config, s: Sys, step: Step)
    requires Inv(cfg, s) && Enabled(cfg, s, step) && step.Handle?
    ensures Inv(cfg, Next(cfg, s, step))
  {
    hide Next, TableOf, NodeOf;
    var x := step.a;
    HandleTable(cfg, s, x);
    forall a | a in cfg
      ensures NodeOf(cfg, Next(cfg, s, step).peers, a, Next(cfg, s, step).nodes[a])
    {
      if s.nodes[x].out[0].Knocking? {
        KnockNode(cfg, s, x, a);
      } else {
        ByeNode(cfg, s, x, a);
      }
    }
  }

  lemma NextInv(cfg: Config, s: Sys, step: Step)
    requires Inv(cfg, s) && Enabled(cfg, s, step)
    ensures Inv(cfg, Next(cfg, s, step))
  {
    hide Inv, Next;
    match step
    case Start(_, _, _, _) => StartInv(cfg, s, step);
    case Handle(_) => HandleInv(cfg, s, step);
    case Receive(_) => ReceiveInv(cfg, s, step);
    case Idle(_) => IdleInv(cfg, s, step);
    case Stop(_) => StopInv(cfg, s, step);
  }

  /** The system after a schedule, of which steps that are not enabled do nothing. */
  function Run(cfg: Config, steps: seq<Step>): Sys {
    if steps == [] then Init(cfg)
    else
      var s, step := Run(cfg, steps[..|steps| - 1]), steps[|steps| - 1];
      if Enabled(cfg, s, step) then Next(cfg, s, step) else s
  }

  lemma {:induction false} RunInv(cfg: Config, steps: seq<Step>)
    requires Proper(cfg)
    ensures Inv(cfg, Run(cfg, steps))
  {
    hide Inv, Next, Enabled;
    if steps == [] {
      InitInv(cfg);
    } else {
      RunInv(cfg, steps[..|steps| - 1]);
      var s, step := Run(cfg, steps[..|steps| - 1]), steps[|steps| - 1];
      if Enabled(cfg, s, step) {
        NextInv(cfg, s, step);
      }
    }
  }

  /** A client learns the same about a peer, and queues the same, whether it is told when
      the peer knocks, with the names as the peer gave them, or later from the tracker's
      record, where they are cut. */
  lemma RelayConfluence(c: Client.State, peers: seq<Peer>, fromaddr: nat, alias: seq<byte>, hostname: seq<byte>,
                        toaddr: nat)
    requires Ordered(peers)
    ensures var after := KnockStep(peers, fromaddr, alias, hostname, toaddr).0;
            var i := FindFrom(after, fromaddr);
            && 0 <= i < |after|
            && Client.Receive(c, PeerOnline(after[i]))
               == Client.Receive(c, Online(alias, hostname, fromaddr, toaddr))
  {
    hide FindFrom;
    var after, i := Create(peers, alias, hostname, fromaddr, toaddr), FindFrom(peers, fromaddr);
    Client.CreateHandle(peers, alias, hostname, fromaddr, toaddr);
    CopiedTwice(ALIAS_SIZE + 1, alias);
    CopiedTwice(HOSTNAME_SIZE + 1, hostname);
    var p := after[if i >= 0 then i else |peers|];
    hide StaticCopy;
    assert NewPeer(0, p.alias, p.hostname, fromaddr, toaddr) == NewPeer(0, alias, hostname, fromaddr, toaddr);
    assert Create(c.peers, p.alias, p.hostname, fromaddr, toaddr) == Create(c.peers, alias, hostname, fromaddr, toaddr);
  }

  lemma CopiedTwice(size: nat, s: seq<byte>)
    requires size >= 1
    ensures StaticCopy(size, StaticCopy(size, s)) == StaticCopy(size, s)
  {
  }

  /** A client is registered as soon as its knock is handled, and no longer when its goodbye is. */
  lemma HandledRegisters(cfg: Config, steps: seq<Step>, x: nat)
    requires Proper(cfg) && x in cfg
    requires x in Run(cfg, steps).nodes && Run(cfg, steps).nodes[x].out != []
    ensures Enabled(cfg, Run(cfg, steps), Handle(x))
    ensures x in Active(Next(cfg, Run(cfg, steps), Handle(x)).peers) <==> Run(cfg, steps).nodes[x].out[0].Knocking?
  {
    RunInv(cfg, steps);
    var s := Run(cfg, steps);
    RequestPhase(cfg, s, x);
    hide Run, React, TableOf, Active, NodeOf, For, Knocks, Client.Sound;
    if s.nodes[x].out[0].Knocking? {
      KnockTable(cfg, s.peers, x, s.nodes[x].out[0]);
    } else {
      ByeTable(cfg, s.peers, x);
    }
  }

  /** The client is running and the tracker counts it among the active. */
  predicate Registered(s: Sys, a: nat) {
    a in s.nodes && s.nodes[a].up && a in Active(s.peers)
  }

  /** In every reachable state: working off a registered client's idle queue and then its
      inbox leaves rows for exactly the tracker's active peers but itself, and every one
      of them is recorded with the alias, host name and address the tracker has for it,
      whether it was announced when it came or replayed later. */
  lemma PeersShown(cfg: Config, steps: seq<Step>, a: nat)
    requires Proper(cfg) && Registered(Run(cfg, steps), a)
    ensures var s := Run(cfg, steps);
            var v := ApplyAll(ViewOf(s.nodes[a].client), s.nodes[a].inbox);
            && v.shown == Active(s.peers) - {a}
            && forall x <- v.shown :: x in v.names && x in AsMap(s.peers) && v.names[x] == NamesIn(AsMap(s.peers))[x]
  {
    var s := Run(cfg, steps);
    RunInv(cfg, steps);
    assert NodeOf(cfg, s.peers, a, s.nodes[a]);
    var v := ApplyAll(ViewOf(s.nodes[a].client), s.nodes[a].inbox);
    hide Run, ViewOf, ApplyAll, AsMap, Expected, Client.Sound;
    forall x | x in v.shown
      ensures x in v.names && x in AsMap(s.peers) && v.names[x] == NamesIn(AsMap(s.peers))[x]
    {
      var i :| 0 <= i < |s.peers| && s.peers[i].active && s.peers[i].fromaddr == x;
      AsMapEntry(s.peers, i);
    }
  }

  lemma InConfig(cfg: Config, steps: seq<Step>, a: nat)
    requires Proper(cfg) && a in Run(cfg, steps).nodes
    ensures a in cfg
  {
    hide Run, NodeOf, TableOf;
    RunInv(cfg, steps);
    assert a in Run(cfg, steps).nodes.Keys;
  }

  /** With nothing pending, the rows themselves are the active peers but the client, and
      each shows the alias the tracker has for the peer. */
  lemma QuietMembership(cfg: Config, steps: seq<Step>, a: nat)
    requires Proper(cfg) && Registered(Run(cfg, steps), a)
    requires Run(cfg, steps).nodes[a].inbox == [] && Run(cfg, steps).nodes[a].client.idle == []
    ensures var s := Run(cfg, steps);
            var c := s.nodes[a].client;
            && RowAddrs(c.peers, c.rows) == Active(s.peers) - {a}
            && forall h <- c.rows ::
                 AddrOf(c.peers, h) in AsMap(s.peers) && h in c.labels
                 && c.labels[h] == AsMap(s.peers)[AddrOf(c.peers, h)].alias
  {
    var s := Run(cfg, steps);
    var c := s.nodes[a].client;
    PeersShown(cfg, steps, a);
    InConfig(cfg, steps, a);
    RunNode(cfg, steps, a);
    hide Run, AsMap, Active, FindFrom;
    forall h | h in c.rows
      ensures AddrOf(c.peers, h) in AsMap(s.peers) && h in c.labels
      ensures c.labels[h] == AsMap(s.peers)[AddrOf(c.peers, h)].alias
    {
      AsMapEntry(c.peers, h - 1);
      assert AddrOf(c.peers, h) in RowAddrs(c.peers, c.rows);
    }
  }

  /** A running client never prints its peers before it has one: a goodbye that reaches it
      is always for a peer in its table. A callback that runs finds its peer, and the
      messages on the way are ones that can be framed. */
  lemma NoAssertFails(cfg: Config, steps: seq<Step>, a: nat)
    requires Proper(cfg) && a in cfg
    ensures a in Run(cfg, steps).nodes
    ensures var n := Run(cfg, steps).nodes[a];
            && (n.inbox != [] && n.inbox[0].Offline? ==> FindFrom(n.client.peers, n.inbox[0].fromaddr) >= 0)
            && (n.client.idle != [] ==> 1 <= n.client.idle[0].h <= |n.client.peers|)
            && (n.inbox != [] ==> Sendable(n.inbox[0]))
  {
    var s := Run(cfg, steps);
    RunInv(cfg, steps);
    assert NodeOf(cfg, s.peers, a, s.nodes[a]);
    ViewKnows(s.nodes[a].client);
    hide Run, ViewOf, ApplyAll, Agrees;
  }

  /** Who comes online in these news are clients of the system. */
  predicate OnlineFrom(cfg: Config, news: seq<News>) {
    forall m <- news :: m.Online? ==> m.fromaddr in cfg
  }

  predicate SendsFrom(cfg: Config, sends: seq<Send>) {
    forall s <- sends :: s.1.Online? ==> s.1.fromaddr in cfg
  }

  lemma {:induction false} ForFrom(cfg: Config, sends: seq<Send>, to: nat)
    requires SendsFrom(cfg, sends)
    ensures OnlineFrom(cfg, For(sends, to))
  {
    if sends != [] {
      ForFrom(cfg, sends[..|sends| - 1], to);
    }
  }

  lemma {:induction false} BroadcastFrom(cfg: Config, peers: seq<Peer>, n: News)
    requires n.Online? ==> n.fromaddr in cfg
    ensures SendsFrom(cfg, Broadcast(peers, n))
  {
    if peers != [] {
      BroadcastFrom(cfg, peers[..|peers| - 1], n);
    }
  }

  lemma {:induction false} ReplayFrom(cfg: Config, peers: seq<Peer>, to: nat)
    requires forall i :: 0 <= i < |peers| ==> peers[i].fromaddr in cfg
    ensures SendsFrom(cfg, Replay(peers, to))
  {
    if peers != [] {
      ReplayFrom(cfg, peers[..|peers| - 1], to);
    }
  }

  lemma ReactFrom(cfg: Config, peers: seq<Peer>, x: nat, r: Call)
    requires x in cfg && TableOf(cfg, peers)
    ensures SendsFrom(cfg, React(peers, x, r).1)
  {
    hide Create, Leave, Broadcast, Replay, Cut;
    if r.Knocking? {
      BroadcastFrom(cfg, peers, Online(r.alias, r.hostname, x, r.toaddr));
      ReplayFrom(cfg, peers, r.toaddr);
    } else {
      BroadcastFrom(cfg, Leave(peers, x), Offline(x));
    }
  }

  /** Whom the client knows, or will hear of, are clients of the system. */
  ghost predicate Acquainted(cfg: Config, n: Node) {
    Addrs(n.client.peers) <= cfg.Keys && OnlineFrom(cfg, n.inbox)
  }

  ghost predicate AllAcquainted(cfg: Config, s: Sys) {
    forall a <- s.nodes :: Acquainted(cfg, s.nodes[a])
  }

  lemma ReceiveAcquainted(cfg: Config, n: Node)
    requires Acquainted(cfg, n) && n.inbox != []
    ensures Acquainted(cfg, n.(client := Client.Receive(n.client, n.inbox[0]), inbox := n.inbox[1..]))
  {
    hide Addrs, Create;
    var m := n.inbox[0];
    if m.Online? {
      CreateAddrs(n.client.peers, m.alias, m.hostname, m.fromaddr, m.toaddr);
    }
  }

  lemma IdleAcquainted(cfg: Config, n: Node)
    requires Acquainted(cfg, n) && n.client.idle != []
    ensures Acquainted(cfg, n.(client := Client.RunIdle(n.client)))
  {
    hide Addrs;
    SameAddrs(n.client.peers, Client.RunIdle(n.client).peers);
  }

  lemma ArriveAcquainted(cfg: Config, nodes: map<nat, Node>, sends: seq<Send>)
    requires SendsFrom(cfg, sends) && forall a <- nodes :: Acquainted(cfg, nodes[a])
    ensures forall a <- nodes :: Acquainted(cfg, Arrive(cfg, nodes, sends)[a])
  {
    hide Addrs, For;
    forall a | a in nodes && a in cfg
      ensures OnlineFrom(cfg, nodes[a].inbox + For(sends, cfg[a]))
    {
      ForFrom(cfg, sends, cfg[a]);
    }
  }

  lemma NextAcquainted(cfg: Config, s: Sys, step: Step)
    requires Inv(cfg, s) && Enabled(cfg, s, step) && AllAcquainted(cfg, s)
    ensures AllAcquainted(cfg, Next(cfg, s, step))
  {
    hide TableOf, NodeOf, React, Arrive, Client.Receive, Client.RunIdle, Addrs, Acquainted, HostAddr.WithPort;
    var a, n := step.a, s.nodes[step.a];
    NobodyKnown(cfg, n);
    match step
    case Handle(_) =>
      ReactFrom(cfg, s.peers, a, n.out[0]);
      ArriveAcquainted(cfg, s.nodes[a := n.(out := n.out[1..])], React(s.peers, a, n.out[0]).1);
    case Receive(_) => ReceiveAcquainted(cfg, n);
    case Idle(_) => IdleAcquainted(cfg, n);
    case _ =>
  }

  lemma NobodyKnown(cfg: Config, n: Node)
    ensures forall up, out :: Acquainted(cfg, Node(up, Client.FRESH, [], out))
    ensures forall out :: Acquainted(cfg, n) ==> Acquainted(cfg, n.(out := out))
  {
  }

  lemma {:induction false} RunAcquainted(cfg: Config, steps: seq<Step>)
    requires Proper(cfg)
    ensures AllAcquainted(cfg, Run(cfg, steps))
  {
    hide Inv, Next, Enabled, Acquainted;
    if steps == [] {
      NobodyKnown(cfg, Node(false, Client.FRESH, [], []));
    } else {
      var init := steps[..|steps| - 1];
      RunInv(cfg, init);
      RunAcquainted(cfg, init);
      if Enabled(cfg, Run(cfg, init), steps[|steps| - 1]) {
        NextAcquainted(cfg, Run(cfg, init), steps[|steps| - 1]);
      }
    }
  }

  lemma Fewer(a: set<nat>, b: set<nat>)
    requires a <= b
    ensures |a| <= |b|
  {
    assert b == a + (b - a);
  }

  /** In every reachable state no table has more entries than there are clients: with at most
      512 of them, neither the tracker's nor a client's table is ever full for a newcomer. */
  lemma TablesFit(cfg: Config, steps: seq<Step>, a: nat)
    requires Proper(cfg) && a in cfg
    ensures |Run(cfg, steps).peers| <= |cfg|
    ensures a in Run(cfg, steps).nodes && |Run(cfg, steps).nodes[a].client.peers| <= |cfg|
  {
    var s := Run(cfg, steps);
    RunInv(cfg, steps);
    RunAcquainted(cfg, steps);
    RunNode(cfg, steps, a);
    hide Run, NodeOf;
    AddrsSize(s.peers);
    AddrsSize(s.nodes[a].client.peers);
    Fewer(Addrs(s.peers), cfg.Keys);
    Fewer(Addrs(s.nodes[a].client.peers), cfg.Keys);
  }

  lemma RunNext(cfg: Config, steps: seq<Step>, step: Step)
    ensures var s := Run(cfg, steps);
            Run(cfg, steps + [step]) == if Enabled(cfg, s, step) then Next(cfg, s, step) else s
  {
    hide Enabled, Next;
    assert (steps + [step])[..|steps|] == steps;
  }

  /** The life of a client can always begin: one that is down, with no request on its way, may
      start under any names that fit, and is registered under them, as they are cut, once its
      knock is handled. */
  lemma MayJoin(cfg: Config, steps: seq<Step>, start: Step)
    requires Proper(cfg) && start.Start? && start.a in cfg && start.a in Run(cfg, steps).nodes
    requires !Run(cfg, steps).nodes[start.a].up && Run(cfg, steps).nodes[start.a].out == []
    requires Nameable(start.alias, start.hostname) && HostAddr.WithPort(start.a, start.listenport) == cfg[start.a]
    ensures var t, a := Run(cfg, (steps + [start]) + [Handle(start.a)]), start.a;
            && Registered(t, a) && a in AsMap(t.peers) && AsMap(t.peers)[a].active
            && NamesIn(AsMap(t.peers))[a] == CutNames(start.alias, start.hostname, cfg[a])
  {
    hide Run, Active, AsMap, Create, FindFrom, StaticCopy, HostAddr.WithPort, Nameable, For, Broadcast, Replay;
    var a, s, u := start.a, Run(cfg, steps), Run(cfg, steps + [start]);
    RunNext(cfg, steps, start);
    RunNext(cfg, steps + [start], Handle(a));
    HostAddr.PortStays(start.listenport);
    HandledRegisters(cfg, steps + [start], a);
    RunInv(cfg, steps);
    TableOrdered(cfg, s);
    CreateInMap(s.peers, start.alias, start.hostname, a, cfg[a]);
  }

  lemma TableOrdered(cfg: Config, s: Sys)
    requires Inv(cfg, s)
    ensures Ordered(s.peers)
  {
  }

  /** And it can always end: a running client that is registered may stop, and is not registered
      any longer once its goodbye is handled. */
  lemma MayLeave(cfg: Config, steps: seq<Step>, a: nat)
    requires Proper(cfg) && a in cfg && Registered(Run(cfg, steps), a) && Run(cfg, steps).nodes[a].out == []
    ensures a !in Active(Run(cfg, (steps + [Stop(a)]) + [Handle(a)]).peers)
  {
    hide Run, Active, For, React;
    RunNext(cfg, steps, Stop(a));
    RunNext(cfg, steps + [Stop(a)], Handle(a));
    HandledRegisters(cfg, steps + [Stop(a)], a);
  }

  /** One thing that is pending at a running client: news to receive, or a callback to run. */
  lemma PendingEnabled(cfg: Config, s: Sys, a: nat)
    requires a in cfg && a in s.nodes && s.nodes[a].up
    ensures s.nodes[a].inbox != [] ==> Enabled(cfg, s, Receive(a))
    ensures s.nodes[a].client.idle != [] ==> Enabled(cfg, s, Idle(a))
  {
  }

  /** What a client does with its inbox and its callbacks concerns nobody else. */
  lemma PendingStep(cfg: Config, s: Sys, a: nat, step: Step)
    requires (step == Receive(a) || step == Idle(a)) && Enabled(cfg, s, step)
    ensures var t := Next(cfg, s, step);
            var n, m := s.nodes[a], t.nodes[a];
            && t.peers == s.peers && t.nodes.Keys == s.nodes.Keys && m.up && m.out == n.out
            && (forall b <- s.nodes :: b != a ==> t.nodes[b] == s.nodes[b])
            && (step.Receive? ==> |m.inbox| == |n.inbox| - 1 && |m.client.idle| <= |n.client.idle| + 1)
            && (step.Idle? ==> |m.inbox| == |n.inbox| && |m.client.idle| == |n.client.idle| - 1)
  {
    hide Create, FindFrom, Destroy, Client.AddRow, Client.RemoveRow;
  }

  /** `a` only receives and runs callbacks. */
  predicate WorksOff(steps: seq<Step>, a: nat) {
    forall i :: 0 <= i < |steps| ==> steps[i] == Receive(a) || steps[i] == Idle(a)
  }

  /** Whatever is pending at a client can be worked off, by that client alone. */
  lemma {:induction false} CanWorkOff(cfg: Config, steps: seq<Step>, a: nat) returns (more: seq<Step>)
    requires Proper(cfg) && a in cfg && a in Run(cfg, steps).nodes && Run(cfg, steps).nodes[a].up
    ensures WorksOff(more, a)
    ensures var s, t := Run(cfg, steps), Run(cfg, steps + more);
            && t.peers == s.peers && t.nodes.Keys == s.nodes.Keys
            && (forall b <- s.nodes :: b != a ==> t.nodes[b] == s.nodes[b])
            && t.nodes[a].up && t.nodes[a].inbox == [] && t.nodes[a].client.idle == []
    decreases 2 * |Run(cfg, steps).nodes[a].inbox| + |Run(cfg, steps).nodes[a].client.idle|
  {
    hide Run, Enabled, Next;
    var s := Run(cfg, steps);
    PendingEnabled(cfg, s, a);
    if s.nodes[a].inbox == [] && s.nodes[a].client.idle == [] {
      more := [];
      assert steps + [] == steps;
    } else {
      var step := if s.nodes[a].inbox != [] then Receive(a) else Idle(a);
      RunNext(cfg, steps, step);
      PendingStep(cfg, s, a, step);
      var rest := CanWorkOff(cfg, steps + [step], a);
      more := [step] + rest;
      assert steps + more == (steps + [step]) + rest;
    }
  }

  /** From every reachable state: a registered client can, by itself, come to show exactly the
      active peers but itself, each labelled with the alias that the tracker has for it. */
  lemma CanCatchUp(cfg: Config, steps: seq<Step>, a: nat) returns (more: seq<Step>)
    requires Proper(cfg) && a in cfg && Registered(Run(cfg, steps), a)
    ensures WorksOff(more, a)
    ensures var s, t := Run(cfg, steps), Run(cfg, steps + more);
            && a in t.nodes && t.peers == s.peers
            && (var c := t.nodes[a].client;
                && RowAddrs(c.peers, c.rows) == Active(s.peers) - {a}
                && forall h <- c.rows ::
                     AddrOf(c.peers, h) in AsMap(s.peers) && h in c.labels
                     && c.labels[h] == AsMap(s.peers)[AddrOf(c.peers, h)].alias)
  {
    hide Run, Active, AsMap, FindFrom;
    more := CanWorkOff(cfg, steps, a);
    QuietMembership(cfg, steps + more, a);
  }

  /** No start and no goodbye of `a` is among the steps. */
  predicate SameLife(steps: seq<Step>, a: nat) {
    forall i :: 0 <= i < |steps| ==> steps[i].a != a || !(steps[i].Start? || steps[i].Stop?)
  }

  /** While a client runs, its handles keep their meaning, however many messages and
      callbacks come in between: what is queued or shown now means the same address later. */
  lemma {:induction false} HandlesStay(cfg: Config, before: seq<Step>, steps: seq<Step>, a: nat)
    requires Proper(cfg) && a in cfg && SameLife(steps, a)
    ensures a in Run(cfg, before).nodes && a in Run(cfg, before + steps).nodes
    ensures HandlesKept(Run(cfg, before).nodes[a].client.peers, Run(cfg, before + steps).nodes[a].client.peers)
    decreases |steps|
  {
    hide Inv, Next, Enabled, NodeOf;
    RunNode(cfg, before, a);
    RunNode(cfg, before + steps, a);
    if steps == [] {
      assert before + steps == before;
    } else {
      var init, step := steps[..|steps| - 1], steps[|steps| - 1];
      HandlesStay(cfg, before, init, a);
      assert (before + steps)[..|before + steps| - 1] == before + init;
      RunNode(cfg, before + init, a);
      var s := Run(cfg, before + init);
      if Enabled(cfg, s, step) {
        StepKeepsHandles(cfg, s, step, a);
      }
    }
  }

  lemma RunNode(cfg: Config, steps: seq<Step>, a: nat)
    requires Proper(cfg) && a in cfg
    ensures a in Run(cfg, steps).nodes && Client.Sound(Run(cfg, steps).nodes[a].client)
  {
    RunInv(cfg, steps);
    hide Run, TableOf, Client.Sound;
    assert NodeOf(cfg, Run(cfg, steps).peers, a, Run(cfg, steps).nodes[a]);
  }

  lemma StepKeepsHandles(cfg: Config, s: Sys, step: Step, a: nat)
    requires Enabled(cfg, s, step) && a in s.nodes && Client.Sound(s.nodes[a].client)
    requires step.a != a || !(step.Start? || step.Stop?)
    ensures HandlesKept(s.nodes[a].client.peers, Next(cfg, s, step).nodes[a].client.peers)
  {
    hide React, For, Client.Sound, Client.Receive, Client.RunIdle;
    if step.Receive? && step.a == a {
      Client.ReceiveKeeps(s.nodes[a].client, s.nodes[a].inbox[0]);
    } else if step.Idle? && step.a == a {
      Client.RunIdleKeeps(s.nodes[a].client);
    }
  }
}
