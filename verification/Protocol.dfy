/** What the tracker does with the requests of its peers, on its peer table: who is told
    what, in order (tmtracker.c, `handle_msg`). */
module Protocol {
  import opened Bytes
  import opened Peers
  import opened Messages

  /** The destination and the news. */
  type Send = (nat, News)

  function PeerOnline(p: Peer): News {
    Online(p.alias, p.hostname, p.fromaddr, p.toaddr)
  }

  /** `send_msg_to_peers`: the same news to every active peer, in table order. */
  function Broadcast(peers: seq<Peer>, n: News): seq<Send> {
    if peers == [] then []
    else
      var p := peers[|peers| - 1];
      var sends := Broadcast(peers[..|peers| - 1], n);
      if p.active then sends + [(p.toaddr, n)] else sends
  }

  /** Every active peer, to one destination. */
  function Replay(peers: seq<Peer>, toaddr: nat): seq<Send> {
    if peers == [] then []
    else
      var p := peers[|peers| - 1];
      var sends := Replay(peers[..|peers| - 1], toaddr);
      if p.active then sends + [(toaddr, PeerOnline(p))] else sends
  }

  /** The table and what is sent when `fromaddr`, listening at `toaddr`, knocks: the active peers hear of it, it
      hears of them, and then it joins. */
  function KnockStep(peers: seq<Peer>, fromaddr: nat, alias: seq<byte>, hostname: seq<byte>, toaddr: nat)
    : (seq<Peer>, seq<Send>)
  {
    (Create(peers, alias, hostname, fromaddr, toaddr),
     Broadcast(peers, Online(alias, hostname, fromaddr, toaddr)) + Replay(peers, toaddr))
  }

  /** The table without `fromaddr` among the active. */
  function Leave(peers: seq<Peer>, fromaddr: nat): seq<Peer> {
    var i := FindFrom(peers, fromaddr);
    if i >= 0 then Destroy(peers, peers[i].hpeer) else peers
  }

  /** When `fromaddr` says goodbye it leaves first, and those who stay hear of it. */
  function ByeStep(peers: seq<Peer>, fromaddr: nat): (seq<Peer>, seq<Send>) {
    (Leave(peers, fromaddr), Broadcast(Leave(peers, fromaddr), Offline(fromaddr)))
  }

  lemma BroadcastNext(peers: seq<Peer>, i: nat, n: News)
    requires i < |peers|
    ensures var sends := Broadcast(peers[..i], n);
            Broadcast(peers[..i + 1], n) == if peers[i].active then sends + [(peers[i].toaddr, n)] else sends
  {
    assert peers[..i + 1][..i] == peers[..i];
  }

  lemma ReplayNext(peers: seq<Peer>, i: nat, toaddr: nat)
    requires i < |peers|
    ensures var sends := Replay(peers[..i], toaddr);
            Replay(peers[..i + 1], toaddr)
            == if peers[i].active then sends + [(toaddr, PeerOnline(peers[i]))] else sends
  {
    assert peers[..i + 1][..i] == peers[..i];
  }

  /** The active peers, in table order. */
  function ActiveOnes(peers: seq<Peer>): seq<Peer> {
    if peers == [] then []
    else
      var p := peers[|peers| - 1];
      ActiveOnes(peers[..|peers| - 1]) + if p.active then [p] else []
  }

  lemma {:induction false} BroadcastIs(peers: seq<Peer>, n: News)
    ensures var act := ActiveOnes(peers);
            Broadcast(peers, n) == seq(|act|, i requires 0 <= i < |act| => (act[i].toaddr, n))
  {
    if peers != [] {
      BroadcastIs(peers[..|peers| - 1], n);
    }
  }

  lemma {:induction false} ReplayIs(peers: seq<Peer>, toaddr: nat)
    ensures var act := ActiveOnes(peers);
            Replay(peers, toaddr) == seq(|act|, i requires 0 <= i < |act| =>
              (toaddr, Online(act[i].alias, act[i].hostname, act[i].fromaddr, act[i].toaddr)))
  {
    if peers != [] {
      ReplayIs(peers[..|peers| - 1], toaddr);
    }
  }

  /** Any knock, also of a peer that is active already: first every active peer is told of the
      sender, with the names as they came, then the sender of every active peer, with the names
      in the table, both in table order. Then the table has the sender. */
  lemma KnockTells(peers: seq<Peer>, fromaddr: nat, alias: seq<byte>, hostname: seq<byte>, toaddr: nat)
    requires Ordered(peers)
    ensures var act := ActiveOnes(peers);
            var (after, sends) := KnockStep(peers, fromaddr, alias, hostname, toaddr);
            && |sends| == 2 * |act|
            && (forall i :: 0 <= i < |act| ==>
                  && sends[i] == (act[i].toaddr, Online(alias, hostname, fromaddr, toaddr))
                  && sends[|act| + i]
                     == (toaddr, Online(act[i].alias, act[i].hostname, act[i].fromaddr, act[i].toaddr)))
            && fromaddr in AsMap(after)
            && AsMap(after)[fromaddr].toaddr == toaddr && AsMap(after)[fromaddr].active
            && forall a :: a in AsMap(peers) && a != fromaddr ==>
                 a in AsMap(after) && AsMap(after)[a] == AsMap(peers)[a]
  {
    hide AsMap, Create, Broadcast, Replay, ActiveOnes, StaticCopy;
    BroadcastIs(peers, Online(alias, hostname, fromaddr, toaddr));
    ReplayIs(peers, toaddr);
    CreateInMap(peers, alias, hostname, fromaddr, toaddr);
  }

  /** Any goodbye: the sender's entry, if there is one, is turned off, and those who are active
      then are told, in table order. */
  lemma ByeTells(peers: seq<Peer>, fromaddr: nat)
    requires Ordered(peers)
    ensures var (after, sends) := ByeStep(peers, fromaddr);
            var act := ActiveOnes(after);
            && |after| == |peers| && |sends| == |act|
            && (forall i :: 0 <= i < |peers| ==>
                  after[i] == if peers[i].fromaddr == fromaddr then peers[i].(active := false) else peers[i])
            && forall i :: 0 <= i < |act| ==> sends[i] == (act[i].toaddr, Offline(fromaddr))
  {
    hide Broadcast, ActiveOnes;
    BroadcastIs(Leave(peers, fromaddr), Offline(fromaddr));
  }
}
