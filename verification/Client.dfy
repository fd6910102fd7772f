/** The client's side of the membership protocol (tm.c): the network thread's message
    handler, the idle queue, and the callbacks that run on the UI thread. Of the main
    window only the rows of its peers list are kept: the handle of each and its label. */
module Client {
  import opened Bytes
  import opened Format
  import opened Peers
  import opened Messages
  import HostAddr
  import Pack

  const CHATTEXT: byte := 5

  /** A queued callback. */
  datatype Idle = PeerCameOnline(h: nat) | PeerWentOffline(h: nat) | OpenChat(h: nat)

  datatype State = State(peers: seq<Peer>, idle: seq<Idle>, rows: seq<nat>, labels: map<nat, seq<byte>>)

  const FRESH := State([], [], [], map[])

  function AliasOf(peers: seq<Peer>, h: nat): seq<byte> {
    if 1 <= h <= |peers| then peers[h - 1].alias else []
  }

  /** The news has reached the network thread. The peer table changes at once for a peer
      that came online, the rows later. */
  function Receive(c: State, n: News): State {
    match n
    case Online(alias, hostname, fromaddr, toaddr) =>
      var peers := Create(c.peers, alias, hostname, fromaddr, toaddr);
      c.(peers := peers, idle := c.idle + [PeerCameOnline(FindFrom(peers, fromaddr) + 1)])
    case Offline(fromaddr) =>
      var i := FindFrom(c.peers, fromaddr);
      if i >= 0 then c.(idle := c.idle + [PeerWentOffline(i + 1)]) else c
  }

  function AddRow(rows: seq<nat>, h: nat): seq<nat> {
    if h in rows then rows else rows + [h]
  }

  function RemoveRow(rows: seq<nat>, h: nat): seq<nat> {
    if rows == [] then []
    else if rows[0] == h then rows[1..]
    else [rows[0]] + RemoveRow(rows[1..], h)
  }

  /** The first queued callback has run. */
  function RunIdle(c: State): State
    requires c.idle != []
  {
    match c.idle[0]
    case PeerCameOnline(h) =>
      c.(idle := c.idle[1..], rows := AddRow(c.rows, h), labels := c.labels[h := AliasOf(c.peers, h)])
    case PeerWentOffline(h) => State(Destroy(c.peers, h), c.idle[1..], RemoveRow(c.rows, h), c.labels - {h})
    case OpenChat(_) => c.(idle := c.idle[1..])
  }

  predicate NoDuplicates(rows: seq<nat>) {
    forall i, j :: 0 <= i < j < |rows| ==> rows[i] != rows[j]
  }

  /** Every row shows the alias in the table, or a callback that makes it do so is queued. */
  predicate Labelled(c: State) {
    forall h <- c.rows :: h in c.labels && (c.labels[h] == AliasOf(c.peers, h) || PeerCameOnline(h) in c.idle)
  }

  /** Every handle that is queued or shown belongs to an entry of the table. */
  predicate Sound(c: State) {
    && Ordered(c.peers) && NoDuplicates(c.rows)
    && (forall i :: 0 <= i < |c.idle| ==> 1 <= c.idle[i].h <= |c.peers|)
    && (forall h <- c.rows :: 1 <= h <= |c.peers|)
    && Labelled(c)
  }

  lemma CreateHandle(peers: seq<Peer>, alias: seq<byte>, hostname: seq<byte>, fromaddr: nat, toaddr: nat)
    requires Ordered(peers)
    ensures var r, i := Create(peers, alias, hostname, fromaddr, toaddr), FindFrom(peers, fromaddr);
            && Ordered(r) && HandlesKept(peers, r)
            && FindFrom(r, fromaddr) == (if i >= 0 then i else |peers|)
  {
    CreateOrdered(peers, alias, hostname, fromaddr, toaddr);
    var r := Create(peers, alias, hostname, fromaddr, toaddr);
    var i := FindFrom(peers, fromaddr);
    assert r[if i >= 0 then i else |peers|].fromaddr == fromaddr;
  }

  /** Receiving keeps every queued and shown handle meaning the address it meant. */
  lemma ReceiveKeeps(c: State, n: News)
    requires Sound(c)
    ensures Sound(Receive(c, n)) && HandlesKept(c.peers, Receive(c, n).peers)
  {
    ReceiveLabels(c, n);
    hide Labelled;
    if n.Online? {
      CreateHandle(c.peers, n.alias, n.hostname, n.fromaddr, n.toaddr);
    }
  }

  lemma ReceiveLabels(c: State, n: News)
    requires Ordered(c.peers) && Labelled(c) && forall h <- c.rows :: 1 <= h <= |c.peers|
    ensures Labelled(Receive(c, n))
  {
    var d := Receive(c, n);
    if n.Online? {
      CreateHandle(c.peers, n.alias, n.hostname, n.fromaddr, n.toaddr);
      hide FindFrom, StaticCopy;
      assert d.idle[|c.idle|] in d.idle;
    }
    forall h | h in c.rows && PeerCameOnline(h) in c.idle
      ensures PeerCameOnline(h) in d.idle
    {
    }
  }

  lemma RunIdleLabels(c: State)
    requires NoDuplicates(c.rows) && Labelled(c) && c.idle != [] && 1 <= c.idle[0].h <= |c.peers|
    ensures Labelled(RunIdle(c))
  {
    hide AddRow, RemoveRow;
    RemoveRowRows(c.rows, c.idle[0].h);
    LastNotAgain(c.rows, c.idle[0].h);
    forall h | PeerCameOnline(h) in c.idle && c.idle[0] != PeerCameOnline(h)
      ensures PeerCameOnline(h) in c.idle[1..]
    {
    }
  }

  lemma {:induction false} RemoveRowRows(rows: seq<nat>, h: nat)
    requires NoDuplicates(rows)
    ensures NoDuplicates(RemoveRow(rows, h))
    ensures forall x :: x in RemoveRow(rows, h) <==> x in rows && x != h
  {
    if rows != [] {
      var rest := rows[1..];
      assert rows == [rows[0]] + rest;
      assert rows[0] !in rest;
      if rows[0] != h {
        RemoveRowRows(rest, h);
        FirstNotAgain(rows[0], RemoveRow(rest, h));
      }
    }
  }

  /** What the scan for a row finds at position `i`. */
  lemma RemoveRowStep(rows: seq<nat>, i: nat, h: nat)
    requires i < |rows|
    ensures if rows[i] == h then RemoveRow(rows[i..], h) == rows[i + 1..]
            else rows[..i] + RemoveRow(rows[i..], h) == rows[..i + 1] + RemoveRow(rows[i + 1..], h)
  {
    assert rows[i..][1..] == rows[i + 1..];
    if rows[i] != h {
      assert rows[..i] + ([rows[i]] + RemoveRow(rows[i + 1..], h)) == rows[..i + 1] + RemoveRow(rows[i + 1..], h);
    }
  }

  /** Exactly the one row goes, and the order of the others stays. */
  lemma {:induction false} RemoveRowAt(rows: seq<nat>, i: nat, h: nat)
    requires i <= |rows| && h !in rows[..i] && (i < |rows| ==> rows[i] == h)
    ensures RemoveRow(rows, h) == if i < |rows| then rows[..i] + rows[i + 1..] else rows
    decreases i
  {
    if i > 0 {
      assert rows[0] in rows[..i];
      assert rows[1..][..i - 1] == rows[..i][1..];
      RemoveRowAt(rows[1..], i - 1, h);
      assert i < |rows| ==> rows[1..][i - 1 + 1..] == rows[i + 1..] && rows[1..][..i - 1] == rows[1..i];
    }
  }

  lemma RemoveNoRow(rows: seq<nat>, h: nat)
    ensures RemoveRow([], h) == []
  {
  }

  lemma FirstNotAgain(x: nat, rest: seq<nat>)
    requires NoDuplicates(rest) && x !in rest
    ensures NoDuplicates([x] + rest)
  {
  }

  lemma LastNotAgain(rows: seq<nat>, h: nat)
    requires NoDuplicates(rows)
    ensures NoDuplicates(AddRow(rows, h))
    ensures forall x :: x in AddRow(rows, h) <==> x in rows || x == h
  {
  }

  lemma DestroyKeeps(peers: seq<Peer>, h: nat)
    requires Ordered(peers)
    ensures Ordered(Destroy(peers, h)) && HandlesKept(peers, Destroy(peers, h))
  {
  }

  /** Running a callback does, too; the lookup it asserts succeeds. */
  lemma RunIdleKeeps(c: State)
    requires Sound(c) && c.idle != []
    ensures 1 <= c.idle[0].h <= |c.peers|
    ensures Sound(RunIdle(c)) && HandlesKept(c.peers, RunIdle(c).peers)
  {
    RunIdleLabels(c);
    hide AddRow, RemoveRow, NoDuplicates, Destroy, Ordered, Labelled;
    var h := c.idle[0].h;
    RemoveRowRows(c.rows, h);
    LastNotAgain(c.rows, h);
    DestroyKeeps(c.peers, h);
  }

  /** The variables that the messages are unpacked into; numbers without a value are 0. */
  function OnlineVars(msgno: byte): (a: seq<Arg>)
    ensures IsOnlineArgs(a) && Matches(ONLINE_ITEMS, a) && a[1] == a[2] == Str([])
  {
    OnlineFields([Num(msgno as int), Str([]), Str([]), Num(0), Num(0)]);
    [Num(msgno as int), Str([]), Str([]), Num(0), Num(0)]
  }

  function OfflineVars(msgno: byte): (a: seq<Arg>)
    ensures |a| == 2 && a[0].Num? && a[1].Num? && Matches(OFFLINE_ITEMS, a)
  {
    OfflineFields(Num(msgno as int), Num(0));
    [Num(msgno as int), Num(0)]
  }

  function Number64(a: Arg): nat {
    if a.Num? then a.n % 0x1_0000_0000_0000_0000 else 0
  }

  /** `handle_msg` as a function. Only the tracker is believed about peers. */
  function Reaction(c: State, trackerAddr: nat, fromaddr: nat, body: seq<byte>): State
    requires body != []
  {
    if body[0] == PEER_ONLINE then
      var u := Decode(ONLINE_ITEMS, body, OnlineVars(body[0]));
      if HostAddr.Addr(fromaddr) != HostAddr.Addr(trackerAddr) || u.overread then c
      else Receive(c, Online(TextOf(u.outs[1]), TextOf(u.outs[2]), Number64(u.outs[3]), Number64(u.outs[4])))
    else if body[0] == PEER_OFFLINE then
      var u := Decode(OFFLINE_ITEMS, body, OfflineVars(body[0]));
      if HostAddr.Addr(fromaddr) != HostAddr.Addr(trackerAddr) then c
      else Receive(c, Offline(Number64(u.outs[1])))
    else if body[0] == CHATTEXT then
      var i := FindFrom(c.peers, fromaddr);
      if i >= 0 then c.(idle := c.idle + [OpenChat(i + 1)]) else c
    else c
  }

  /** The message makes the program abort. */
  predicate Fatal(c: State, trackerAddr: nat, fromaddr: nat, body: seq<byte>)
    requires body != []
  {
    || (body[0] == PEER_OFFLINE && c.peers == [] && HostAddr.Addr(fromaddr) == HostAddr.Addr(trackerAddr))
    || |Reaction(c, trackerAddr, fromaddr, body).peers| > MOST_PEERS
  }

  /** The client survives a message, unless the tracker's IP sends a PEER_OFFLINE before there
      was ever a peer, or a PEER_ONLINE that can be unpacked, for an address that is not in a
      table of 512. */
  lemma FatalIs(c: State, trackerAddr: nat, fromaddr: nat, body: seq<byte>)
    requires body != [] && |c.peers| <= 512
    ensures var u := Decode(ONLINE_ITEMS, body, OnlineVars(1));
            Fatal(c, trackerAddr, fromaddr, body) <==>
              && fromaddr % 0x1_0000_0000 == trackerAddr % 0x1_0000_0000
              && (|| (body[0] == 2 && c.peers == [])
                  || (&& body[0] == 1 && !u.overread && |c.peers| == 512
                      && Number64(u.outs[3]) !in Addrs(c.peers)))
  {
    hide Decode, Create, FindFrom, Addrs, CString;
    PeersOnlyFromOnline(c, trackerAddr, fromaddr, body);
    var u := Decode(ONLINE_ITEMS, body, OnlineVars(1));
    CreateAddrs(c.peers, TextOf(u.outs[1]), TextOf(u.outs[2]), Number64(u.outs[3]), Number64(u.outs[4]));
  }

  lemma PeersOnlyFromOnline(c: State, trackerAddr: nat, fromaddr: nat, body: seq<byte>)
    requires body != []
    ensures body[0] != PEER_ONLINE ==> Reaction(c, trackerAddr, fromaddr, body).peers == c.peers
  {
    hide Decode, FindFrom;
  }

  /** Whatever anybody but the tracker sends: no peer is entered, no row changes, and at most a
      chat is queued, for a text. */
  lemma StrangersIgnored(c: State, trackerAddr: nat, fromaddr: nat, body: seq<byte>)
    requires body != [] && fromaddr % 0x1_0000_0000 != trackerAddr % 0x1_0000_0000
    ensures var d := Reaction(c, trackerAddr, fromaddr, body);
            && d.peers == c.peers && d.rows == c.rows && d.labels == c.labels
            && |d.idle| <= |c.idle| + 1 && d.idle[..|c.idle|] == c.idle
            && (|d.idle| == |c.idle| + 1 ==> body[0] == 5 && d.idle[|c.idle|].OpenChat?)
  {
    hide Decode, FindFrom, Receive;
  }

  /** A text, whoever it comes from: if the sender is in the table, one chat is queued, for the
      sender's handle; otherwise nothing happens. */
  lemma TextQueues(c: State, trackerAddr: nat, fromaddr: nat, body: seq<byte>) returns (h: nat)
    requires body != [] && body[0] == 5 && Ordered(c.peers)
    ensures Reaction(c, trackerAddr, fromaddr, body)
            == if fromaddr in Addrs(c.peers) then c.(idle := c.idle + [OpenChat(h)]) else c
    ensures fromaddr in Addrs(c.peers) ==> 1 <= h <= |c.peers| && c.peers[h - 1].fromaddr == fromaddr
  {
    hide Decode, Receive;
    h := 0;
    if fromaddr in Addrs(c.peers) {
      var p :| p in c.peers && p.fromaddr == fromaddr;
      h := FindFrom(c.peers, fromaddr) + 1;
    }
  }

  /** A message of any other number changes nothing; nor does a PEER_ONLINE that announces more
      than it has. */
  lemma OthersIgnored(c: State, trackerAddr: nat, fromaddr: nat, body: seq<byte>)
    requires body != []
    requires body[0] !in {1, 2, 5} || (body[0] == 1 && Decode(ONLINE_ITEMS, body, OnlineVars(1)).overread)
    ensures Reaction(c, trackerAddr, fromaddr, body) == c
  {
    hide Decode, Receive;
  }

  /** What news does: a peer that comes online is in the table at once, and a callback for its
      handle is queued; for one that goes offline a callback is queued if it is in the table. */
  lemma NewsQueues(c: State, n: News) returns (h: nat)
    requires Ordered(c.peers)
    ensures var d := Receive(c, n);
            && d.rows == c.rows && d.labels == c.labels
            && (n.Online? ==> n.fromaddr in AsMap(d.peers) && d.idle == c.idle + [PeerCameOnline(h)])
            && (n.Offline? ==> d.peers == c.peers
                               && d.idle
                                  == if n.fromaddr in Addrs(c.peers) then c.idle + [PeerWentOffline(h)] else c.idle)
            && (n.Online? || n.fromaddr in Addrs(c.peers) ==>
                  1 <= h <= |d.peers| && d.peers[h - 1].fromaddr == n.fromaddr)
  {
    hide AsMap, StaticCopy;
    h := 0;
    if n.Online? {
      h := FindFrom(Receive(c, n).peers, n.fromaddr) + 1;
      CreateHandle(c.peers, n.alias, n.hostname, n.fromaddr, n.toaddr);
      CreateInMap(c.peers, n.alias, n.hostname, n.fromaddr, n.toaddr);
    } else if n.fromaddr in Addrs(c.peers) {
      var p :| p in c.peers && p.fromaddr == n.fromaddr;
      h := FindFrom(c.peers, n.fromaddr) + 1;
    }
  }

  /** The packed news, coming from the tracker's address, has the effect of the news. */
  lemma ReactionToNews(c: State, trackerAddr: nat, fromaddr: nat, n: News)
    requires Sendable(n) && HostAddr.Addr(fromaddr) == HostAddr.Addr(trackerAddr)
    ensures Body(n) != [] && Reaction(c, trackerAddr, fromaddr, Body(n)) == Receive(c, n)
  {
    hide Decode, Body, Receive, Reaction, HostAddr.Addr, Sendable;
    if n.Online? {
      ReactionToOnline(c, trackerAddr, fromaddr, n);
    } else {
      ReactionToOffline(c, trackerAddr, fromaddr, n);
    }
  }

  lemma ReactionToOnline(c: State, trackerAddr: nat, fromaddr: nat, n: News)
    requires n.Online? && Sendable(n) && HostAddr.Addr(fromaddr) == HostAddr.Addr(trackerAddr)
    ensures Body(n) != [] && Reaction(c, trackerAddr, fromaddr, Body(n)) == Receive(c, n)
  {
    hide Decode, Body, Receive, FindFrom, HostAddr.Addr, Matches;
    BodyLength(n);
    OnlineRoundTrip(n, OnlineVars(PEER_ONLINE));
  }

  lemma ReactionToOffline(c: State, trackerAddr: nat, fromaddr: nat, n: News)
    requires n.Offline? && Sendable(n) && HostAddr.Addr(fromaddr) == HostAddr.Addr(trackerAddr)
    ensures Body(n) != [] && Reaction(c, trackerAddr, fromaddr, Body(n)) == Receive(c, n)
  {
    hide Decode, Body, Receive, FindFrom, HostAddr.Addr, Matches;
    BodyLength(n);
    var v := OfflineVars(PEER_OFFLINE);
    OfflineRoundTrip(n, v[0], v[1]);
    assert v == [v[0], v[1]];
  }

  class Client {
    const trackerAddr: nat
    const table: PeerTable
    var idle: seq<Idle>
    var rows: seq<nat>
    var labels: map<nat, seq<byte>>

    ghost function Now(): State
      reads this, table
    {
      State(table.peers, idle, rows, labels)
    }

    ghost predicate Valid()
      reads this, table
    {
      table.Valid() && Sound(Now())
    }

    constructor (trackerAddr: nat)
      ensures Valid() && Now() == FRESH && fresh(table) && this.trackerAddr == trackerAddr
    {
      this.trackerAddr := trackerAddr;
      table := new PeerTable();
      idle, rows, labels := [], [], map[];
    }

    /** A peer came online. `ok` is false where the program aborts: the table is full. */
    method Welcome(alias: seq<byte>, hostname: seq<byte>, fromaddr: nat, toaddr: nat) returns (ok: bool)
      requires Valid()
      modifies this, table
      ensures var d := Receive(old(Now()), Online(alias, hostname, fromaddr, toaddr));
              && (ok <==> |d.peers| <= MOST_PEERS)
              && (ok ==> Valid() && Now() == d)
    {
      hide Sound, Create, NewPeer, FindFrom;
      ReceiveKeeps(Now(), Online(alias, hostname, fromaddr, toaddr));
      assert Sound(Now());
      CreateHandle(table.peers, alias, hostname, fromaddr, toaddr) by {
        SoundOrdered(Now());
      }
      var h;
      ok, h := table.CreatePeer(alias, hostname, fromaddr, toaddr);
      if !ok {
        return;
      }
      assert FindFrom(table.peers, fromaddr) + 1 == h by {
        assert table.peers[FindFrom(table.peers, fromaddr)].fromaddr == fromaddr;
      }
      idle := idle + [PeerCameOnline(h)];
    }

    /** A peer went offline. */
    method Farewell(fromaddr: nat)
      requires Valid()
      modifies `idle
      ensures Valid() && Now() == Receive(old(Now()), Offline(fromaddr))
    {
      hide Sound, FindFrom;
      ReceiveKeeps(Now(), Offline(fromaddr));
      var h := table.FindPeerFromaddr(fromaddr);
      if h != -1 {
        idle := idle + [PeerWentOffline(h)];
      }
    }

    /** `handle_msg`. `ok` is false where the program aborts: printing the peers before
        there was ever one, or with a new peer when the table is full. */
    method HandleMsg(fromaddr: nat, body: seq<byte>) returns (ok: bool)
      requires Valid() && body != []
      modifies this, table
      ensures ok <==> !Fatal(old(Now()), trackerAddr, fromaddr, body)
      ensures ok ==> Valid() && Now() == Reaction(old(Now()), trackerAddr, fromaddr, body)
    {
      hide Sound, Reaction, FindFrom;
      ok := true;
      PeersOnlyFromOnline(Now(), trackerAddr, fromaddr, body);
      if body[0] == PEER_ONLINE {
        ok := HandleOnline(fromaddr, body);
      } else if body[0] == PEER_OFFLINE {
        ok := HandleOffline(fromaddr, body);
      } else {
        HandleChat(fromaddr, body);
      }
    }

    method HandleOnline(fromaddr: nat, body: seq<byte>) returns (ok: bool)
      requires Valid() && body != [] && body[0] == PEER_ONLINE
      modifies this, table
      ensures ok <==> |Reaction(old(Now()), trackerAddr, fromaddr, body).peers| <= MOST_PEERS
      ensures ok ==> Valid() && Now() == Reaction(old(Now()), trackerAddr, fromaddr, body)
    {
      hide Sound, Decode, Receive, FindFrom;
      ok := true;
      if HostAddr.Addr(fromaddr) == HostAddr.Addr(trackerAddr) {
        var overread, vars := Unpack(ONLINE_FORMAT, ONLINE_ITEMS, body, OnlineVars(body[0]));
        if !overread {
          ok := Welcome(TextOf(vars[1]), TextOf(vars[2]), Number64(vars[3]), Number64(vars[4]));
        }
      }
    }

    method HandleOffline(fromaddr: nat, body: seq<byte>) returns (ok: bool)
      requires Valid() && body != [] && body[0] == PEER_OFFLINE
      modifies this
      ensures ok <==> !(table.peers == [] && HostAddr.Addr(fromaddr) == HostAddr.Addr(trackerAddr))
      ensures ok ==> Valid() && Now() == Reaction(old(Now()), trackerAddr, fromaddr, body)
    {
      hide Sound, Decode, Receive, FindFrom;
      ok := true;
      if HostAddr.Addr(fromaddr) == HostAddr.Addr(trackerAddr) {
        if |table.peers| == 0 {
          return false;
        }
        var _, vars := Unpack(OFFLINE_FORMAT, OFFLINE_ITEMS, body, OfflineVars(body[0]));
        Farewell(Number64(vars[1]));
      }
    }

    /** A text opens a chat window if it comes from a known peer; anything else is ignored. */
    method HandleChat(fromaddr: nat, body: seq<byte>)
      requires Valid() && body != [] && body[0] != PEER_ONLINE && body[0] != PEER_OFFLINE
      modifies this
      ensures Valid() && Now() == Reaction(old(Now()), trackerAddr, fromaddr, body)
    {
      hide FindFrom;
      if body[0] == CHATTEXT {
        var h := table.FindPeerFromaddr(fromaddr);
        if h != -1 {
          QueueChat(h);
        }
      }
    }

    method QueueChat(h: nat)
      requires Valid() && 1 <= h <= |table.peers|
      modifies `idle
      ensures Valid() && idle == old(idle) + [OpenChat(h)]
    {
      idle := idle + [OpenChat(h)];
    }

    static method Unpack(fmt: string, ghost items: seq<Item>, body: seq<byte>, vars: seq<Arg>)
      returns (overread: bool, outs: seq<Arg>)
      requires Matches(items, vars) && items == Items(fmt)
      ensures |outs| == |vars| && Unpacked(outs, overread) == Decode(items, body, vars)
    {
      var a := new Arg[|vars|](i requires 0 <= i < |vars| => vars[i]);
      assert a[..] == vars;
      overread := Pack.NetUnpack(body, fmt, a);
      outs := a[..];
    }

    /** Runs the first queued callback. */
    method RunCallback()
      requires Valid() && idle != []
      modifies this, table
      ensures Valid() && Now() == RunIdle(old(Now()))
    {
      hide Sound, AddRow, RemoveRow, Destroy;
      RunIdleKeeps(Now());
      var callback := idle[0];
      idle := idle[1..];
      match callback {
        case PeerCameOnline(h) => IdlePeerOnline(h);
        case PeerWentOffline(h) => IdlePeerOffline(h);
        case OpenChat(_) =>
      }
    }

    /** `IDLE_peer_online`: the peer is found in the table, and has a row with its alias afterwards. */
    method IdlePeerOnline(h: nat)
      requires table.Valid() && 1 <= h <= |table.peers|
      modifies `rows, `labels
      ensures rows == AddRow(old(rows), h) && labels == old(labels)[h := AliasOf(table.peers, h)]
      ensures rows == if h in old(rows) then old(rows) else old(rows) + [h]
      ensures labels == old(labels)[h := table.peers[h - 1].alias]
    {
      var found, p := table.GetPeerData(h);
      assert found;
      labels := labels[h := p.alias];
      var i := 0;
      while i < |rows|
        invariant 0 <= i <= |rows| && rows == old(rows)
        invariant forall j :: 0 <= j < i ==> rows[j] != h
      {
        if rows[i] == h {
          return;
        }
        i := i + 1;
      }
      rows := rows + [h];
    }

    /** `IDLE_peer_offline`: the peer is found in the table, loses its row, and is turned off. */
    method IdlePeerOffline(h: nat)
      requires table.Valid() && 1 <= h <= |table.peers|
      modifies `rows, `labels, table
      ensures labels == old(labels) - {h}
      ensures table.Valid() && rows == RemoveRow(old(rows), h) && table.peers == Destroy(old(table.peers), h)
    {
      var found, _ := table.GetPeerData(h);
      assert found;
      labels := labels - {h};
      var i := 0;
      assert rows[..0] + RemoveRow(rows[0..], h) == RemoveRow(rows, h) by {
        assert rows[0..] == rows;
      }
      hide RemoveRow, Destroy;
      while i < |rows| && rows[i] != h
        invariant 0 <= i <= |rows| && rows == old(rows) && labels == old(labels) - {h} && unchanged(table)
        invariant rows[..i] + RemoveRow(rows[i..], h) == RemoveRow(rows, h)
      {
        RemoveRowStep(rows, i, h);
        i := i + 1;
      }
      if i < |rows| {
        RemoveRowStep(rows, i, h);
        rows := rows[..i] + rows[i + 1..];
      } else {
        RemoveNoRow(rows, h);
        assert rows[..i] + [] == rows && rows[i..] == [];
      }
      table.DestroyPeer(h);
    }
  }

  lemma SoundOrdered(c: State)
    requires Sound(c)
    ensures Ordered(c.peers)
  {
  }
}
