/** The peer table of tmcommon.c. */
module Peers {
  import opened Bytes
  import opened Lists

  const ALIAS_SIZE: nat := 16
  const HOSTNAME_SIZE: nat := 16

  /** `staticstr_copy` into `destSize` bytes, the last of which is the terminator. */
  function StaticCopy(destSize: nat, src: seq<byte>): (s: seq<byte>)
    requires destSize >= 1
    ensures s <= src
    ensures if |src| < destSize then s == src else |s| == destSize - 1
  {
    src[..Min(|src|, destSize - 1)]
  }

  datatype Peer = Peer(hpeer: nat, alias: seq<byte>, hostname: seq<byte>, fromaddr: nat, toaddr: nat, active: bool)

  /** The position of the peer that sends from `fromaddr`, or -1. */
  function FindFrom(peers: seq<Peer>, fromaddr: nat): (r: int)
    ensures r == -1 || 0 <= r < |peers|
    ensures 0 <= r ==> peers[r].fromaddr == fromaddr && forall j :: 0 <= j < r ==> peers[j].fromaddr != fromaddr
    ensures r == -1 ==> forall j :: 0 <= j < |peers| ==> peers[j].fromaddr != fromaddr
  {
    FirstWith(peers, (p: Peer) => p.fromaddr, fromaddr)
  }

  function NewPeer(hpeer: nat, alias: seq<byte>, hostname: seq<byte>, fromaddr: nat, toaddr: nat): Peer {
    Peer(hpeer, StaticCopy(ALIAS_SIZE + 1, alias), StaticCopy(HOSTNAME_SIZE + 1, hostname), fromaddr, toaddr, true)
  }

  /** A new entry is active and has the names as they came, or their first 16 bytes. */
  lemma NamesCut(hpeer: nat, alias: seq<byte>, hostname: seq<byte>, fromaddr: nat, toaddr: nat)
    ensures var p := NewPeer(hpeer, alias, hostname, fromaddr, toaddr);
            && p.alias == (if |alias| <= 16 then alias else alias[..16])
            && p.hostname == (if |hostname| <= 16 then hostname else hostname[..16])
            && p.hpeer == hpeer && p.fromaddr == fromaddr && p.toaddr == toaddr && p.active
  {
  }

  /** The table after `create_peer`: an entry for `fromaddr` keeps its place and handle. */
  function Create(peers: seq<Peer>, alias: seq<byte>, hostname: seq<byte>, fromaddr: nat, toaddr: nat): (r: seq<Peer>)
    ensures |r| == if FindFrom(peers, fromaddr) >= 0 then |peers| else |peers| + 1
  {
    var i := FindFrom(peers, fromaddr);
    if i >= 0 then peers[i := NewPeer(peers[i].hpeer, alias, hostname, fromaddr, toaddr)]
    else peers + [NewPeer(|peers| + 1, alias, hostname, fromaddr, toaddr)]
  }

  /** The table after `destroy_peer`; the entry stays, inactive. */
  function Destroy(peers: seq<Peer>, hpeer: int): (r: seq<Peer>)
    ensures |r| == |peers|
  {
    if 1 <= hpeer <= |peers| then peers[hpeer - 1 := peers[hpeer - 1].(active := false)] else peers
  }

  /** Handles count the entries from 1, and no two entries have the same `fromaddr`. */
  predicate Ordered(peers: seq<Peer>) {
    && (forall i :: 0 <= i < |peers| ==> peers[i].hpeer == i + 1)
    && (forall i, j :: 0 <= i < |peers| && 0 <= j < |peers| && peers[i].fromaddr == peers[j].fromaddr ==> i == j)
  }

  /** What the table says about one address. */
  datatype Record = Record(hpeer: nat, alias: seq<byte>, hostname: seq<byte>, toaddr: nat, active: bool)

  function RecordOf(p: Peer): Record {
    Record(p.hpeer, p.alias, p.hostname, p.toaddr, p.active)
  }

  function Addrs(peers: seq<Peer>): set<nat> {
    set p <- peers :: p.fromaddr
  }

  /** The table as a map from `fromaddr`. */
  function AsMap(peers: seq<Peer>): (m: map<nat, Record>)
    ensures m.Keys == Addrs(peers)
  {
    map a | a in Addrs(peers) :: RecordOf(peers[FindFrom(peers, a)])
  }

  /** Every entry is in the map as it stands. */
  lemma AsMapEntry(peers: seq<Peer>, i: nat)
    requires Ordered(peers) && i < |peers|
    ensures peers[i].fromaddr in AsMap(peers) && AsMap(peers)[peers[i].fromaddr] == RecordOf(peers[i])
  {
    assert peers[i] in peers;
  }

  lemma CreateOrdered(peers: seq<Peer>, alias: seq<byte>, hostname: seq<byte>, fromaddr: nat, toaddr: nat)
    requires Ordered(peers)
    ensures Ordered(Create(peers, alias, hostname, fromaddr, toaddr))
  {
  }

  /** A map with the same addresses that has every entry as it stands is the map of the table. */
  lemma AsMapEqual(peers: seq<Peer>, m: map<nat, Record>)
    requires Ordered(peers) && m.Keys == Addrs(peers)
    requires forall j :: 0 <= j < |peers| ==> m[peers[j].fromaddr] == RecordOf(peers[j])
    ensures AsMap(peers) == m
  {
  }

  /** A table that differs in one entry, or has one more, differs in that address. */
  lemma PutInMap(peers: seq<Peer>, r: seq<Peer>, k: nat)
    requires Ordered(peers) && Ordered(r) && k <= |peers| && |r| == (if k == |peers| then k + 1 else |peers|)
    requires forall j :: 0 <= j < |peers| && j != k ==> r[j] == peers[j]
    requires Addrs(r) == Addrs(peers) + {r[k].fromaddr}
    ensures AsMap(r) == AsMap(peers)[r[k].fromaddr := RecordOf(r[k])]
  {
    hide AsMap, RecordOf, Addrs;
    var m := AsMap(peers)[r[k].fromaddr := RecordOf(r[k])];
    forall j | 0 <= j < |r|
      ensures r[j].fromaddr in m && m[r[j].fromaddr] == RecordOf(r[j])
    {
      if j != k {
        AsMapEntry(peers, j);
        assert r[j].fromaddr != r[k].fromaddr;
      }
    }
    AsMapEqual(r, m);
  }

  /** `create_peer` overwrites the entry of `fromaddr`, under the handle it had, or the
      next unused one; the names are cut to what the table can hold. */
  lemma CreateInMap(peers: seq<Peer>, alias: seq<byte>, hostname: seq<byte>, fromaddr: nat, toaddr: nat)
    requires Ordered(peers)
    ensures var m := AsMap(peers);
            var h := if fromaddr in m then m[fromaddr].hpeer else |m| + 1;
            AsMap(Create(peers, alias, hostname, fromaddr, toaddr))
              == m[fromaddr := RecordOf(NewPeer(h, alias, hostname, fromaddr, toaddr))]
  {
    hide AsMap, FindFrom, Ordered, StaticCopy, Addrs;
    var r, i := Create(peers, alias, hostname, fromaddr, toaddr), FindFrom(peers, fromaddr);
    AsMapSize(peers);
    CreateOrdered(peers, alias, hostname, fromaddr, toaddr);
    CreateAddrs(peers, alias, hostname, fromaddr, toaddr);
    if i >= 0 {
      AsMapEntry(peers, i);
    }
    PutInMap(peers, r, if i >= 0 then i else |peers|);
  }

  lemma CreateAddrs(peers: seq<Peer>, alias: seq<byte>, hostname: seq<byte>, fromaddr: nat, toaddr: nat)
    ensures Addrs(Create(peers, alias, hostname, fromaddr, toaddr)) == Addrs(peers) + {fromaddr}
    ensures fromaddr in Addrs(peers) <==> FindFrom(peers, fromaddr) >= 0
  {
    var r := Create(peers, alias, hostname, fromaddr, toaddr);
    var i := FindFrom(peers, fromaddr);
    assert r[if i >= 0 then i else |peers|].fromaddr == fromaddr;
    forall a | a in Addrs(peers) && a != fromaddr
      ensures a in Addrs(r)
    {
      var j :| 0 <= j < |peers| && peers[j].fromaddr == a;
      assert r[j] == peers[j];
    }
  }

  lemma {:induction false} AddrsSize(peers: seq<Peer>)
    requires Ordered(peers)
    ensures |Addrs(peers)| == |peers|
  {
    hide Addrs;
    if peers == [] {
      NoAddrs();
    } else {
      var init, last := peers[..|peers| - 1], peers[|peers| - 1];
      AddrsSize(init);
      AddrsLast(init, last);
      NotAmong(peers);
      assert peers == init + [last];
    }
  }

  lemma NoAddrs()
    ensures Addrs([]) == {}
  {
  }

  lemma NotAmong(peers: seq<Peer>)
    requires Ordered(peers) && peers != []
    ensures peers[|peers| - 1].fromaddr !in Addrs(peers[..|peers| - 1])
  {
  }

  lemma AddrsLast(init: seq<Peer>, last: Peer)
    ensures Addrs(init + [last]) == Addrs(init) + {last.fromaddr}
  {
    assert (init + [last])[|init|] == last;
    assert forall p :: p in init + [last] <==> p in init || p == last;
  }

  lemma AsMapSize(peers: seq<Peer>)
    requires Ordered(peers)
    ensures |AsMap(peers)| == |peers|
  {
    hide AsMap, Ordered;
    AddrsSize(peers);
    assert |AsMap(peers)| == |AsMap(peers).Keys|;
  }

  function TurnedOff(m: map<nat, Record>, hpeer: int): (r: map<nat, Record>)
    ensures r.Keys == m.Keys
  {
    map a | a in m :: if m[a].hpeer == hpeer then m[a].(active := false) else m[a]
  }

  /** `destroy_peer` turns off the one entry with the handle, if there is one. */
  lemma DestroyInMap(peers: seq<Peer>, hpeer: int)
    requires Ordered(peers)
    ensures Ordered(Destroy(peers, hpeer))
    ensures AsMap(Destroy(peers, hpeer)) == TurnedOff(AsMap(peers), hpeer)
  {
    hide AsMap, FindFrom;
    var m, r := AsMap(peers), Destroy(peers, hpeer);
    var want := TurnedOff(m, hpeer);
    SameAddrs(peers, r);
    forall j | 0 <= j < |r|
      ensures want[r[j].fromaddr] == RecordOf(r[j])
    {
      AsMapEntry(peers, j);
    }
    AsMapEqual(r, want);
  }

  lemma SameAddrs(p: seq<Peer>, q: seq<Peer>)
    requires |p| == |q| && forall i :: 0 <= i < |p| ==> p[i].fromaddr == q[i].fromaddr
    ensures Addrs(p) == Addrs(q)
  {
    forall a | a in Addrs(p)
      ensures a in Addrs(q)
    {
      var j :| 0 <= j < |p| && p[j].fromaddr == a;
      assert q[j] in q;
    }
    forall a | a in Addrs(q)
      ensures a in Addrs(p)
    {
      var j :| 0 <= j < |q| && q[j].fromaddr == a;
      assert p[j] in p;
    }
  }

  /** Entries are never moved or dropped, so a handle means the same address for good. */
  predicate HandlesKept(before: seq<Peer>, after: seq<Peer>) {
    && |before| <= |after|
    && forall i :: 0 <= i < |before| ==> after[i].hpeer == before[i].hpeer && after[i].fromaddr == before[i].fromaddr
  }

  /** `sizeof(Peer)`, the size of the peers' arena, and how many peers the first array holds. */
  const PEER_SIZE := 64
  const PEERS_ARENA := 64 * 1024
  const FIRST_PEERS := 64

  /** Arrays for 64, 128, 256 and 512 peers fit in the arena; the next one does not. */
  const MOST_PEERS := 512

  class PeerTable {
    var peers: seq<Peer>
    var nextHandle: nat
    /** The capacity of the peers' array, 0 before there is one, and how much of their arena is taken. */
    var cap: nat
    var pos: nat

    predicate Valid()
      reads this
    {
      && Ordered(peers) && nextHandle == |peers| + 1
      && (cap == 0 <==> peers == []) && |peers| <= cap
      && cap in {0, 64, 128, 256, 512} && pos == if cap == 0 then 0 else PEER_SIZE * (2 * cap - FIRST_PEERS)
    }

    constructor ()
      ensures Valid() && peers == []
    {
      peers, cap, pos := [], 0, 0;
      nextHandle := 1;
    }

    lemma Small()
      requires Valid()
      ensures |peers| <= MOST_PEERS
    {
    }

    /** Room for one more peer in the array; `ok` is false where the program aborts. */
    method MorePeers() returns (ok: bool)
      requires Valid()
      modifies `cap, `pos
      ensures ok <==> |peers| < MOST_PEERS
      ensures ok ==> |peers| < cap && cap in {64, 128, 256, 512} && pos == PEER_SIZE * (2 * cap - FIRST_PEERS)
      ensures !ok ==> cap == old(cap) && pos == old(pos)
    {
      if cap == 0 {
        cap, pos := FIRST_PEERS, PEER_SIZE * FIRST_PEERS;
      }
      ok := true;
      if |peers| == cap {
        ok := pos + PEER_SIZE * cap * 2 <= PEERS_ARENA;
        if ok {
          cap, pos := 2 * cap, pos + PEER_SIZE * cap * 2;
        }
      }
    }

    /** `create_peer`; `ok` is false where the program aborts: the peer is new and the
        arena has no room for a larger array. */
    method CreatePeer(alias: seq<byte>, hostname: seq<byte>, fromaddr: nat, toaddr: nat) returns (ok: bool, hpeer: nat)
      requires Valid()
      modifies this
      ensures Valid()
      ensures ok <==> |Create(old(peers), alias, hostname, fromaddr, toaddr)| <= MOST_PEERS
      ensures ok <==> fromaddr in AsMap(old(peers)) || |old(peers)| < MOST_PEERS
      ensures peers == if ok then Create(old(peers), alias, hostname, fromaddr, toaddr) else old(peers)
      ensures HandlesKept(old(peers), peers)
      ensures ok ==> 1 <= hpeer <= |peers| && peers[hpeer - 1].fromaddr == fromaddr && peers[hpeer - 1].hpeer == hpeer
    {
      hide AsMap;
      CreateAddrs(peers, alias, hostname, fromaddr, toaddr);
      ok, hpeer := true, 0;
      var i := 0;
      while i < |peers|
        invariant 0 <= i <= |peers|
        invariant forall j :: 0 <= j < i ==> peers[j].fromaddr != fromaddr
      {
        if peers[i].fromaddr == fromaddr {
          hpeer := peers[i].hpeer;
          assert i == FindFrom(peers, fromaddr);
          peers := peers[i := NewPeer(hpeer, alias, hostname, fromaddr, toaddr)];
          return;
        }
        i := i + 1;
      }
      ok := MorePeers();
      if ok {
        hpeer := nextHandle;
        nextHandle := nextHandle + 1;
        peers := peers + [NewPeer(hpeer, alias, hostname, fromaddr, toaddr)];
      }
    }

    /** `destroy_peer`. */
    method DestroyPeer(hpeer: int)
      requires Valid()
      modifies `peers
      ensures Valid() && peers == Destroy(old(peers), hpeer) && HandlesKept(old(peers), peers)
    {
      var i := 0;
      while i < |peers|
        invariant 0 <= i <= |peers| && peers == old(peers)
        invariant hpeer < 1 || hpeer > i
      {
        if peers[i].hpeer == hpeer {
          peers := peers[i := peers[i].(active := false)];
          return;
        }
        i := i + 1;
      }
    }

    /** `find_peer_fromaddr`: the handle under which the map has the address. */
    method FindPeerFromaddr(fromaddr: nat) returns (hpeer: int)
      requires Valid()
      ensures var m := AsMap(peers);
              hpeer == if fromaddr in m then m[fromaddr].hpeer else -1
      ensures hpeer == FindFrom(peers, fromaddr) + 1 || (hpeer == -1 && FindFrom(peers, fromaddr) == -1)
    {
      var i := 0;
      while i < |peers|
        invariant 0 <= i <= |peers|
        invariant forall j :: 0 <= j < i ==> peers[j].fromaddr != fromaddr
      {
        if peers[i].fromaddr == fromaddr {
          AsMapEntry(peers, i);
          return peers[i].hpeer;
        }
        i := i + 1;
      }
      return -1;
    }

    /** `get_peer_data`: finds the entry with the handle. */
    method GetPeerData(hpeer: int) returns (found: bool, p: Peer)
      requires Valid()
      ensures found <==> 1 <= hpeer <= |peers|
      ensures found ==> p == peers[hpeer - 1] && p.fromaddr in AsMap(peers) && AsMap(peers)[p.fromaddr] == RecordOf(p)
    {
      p := Peer(0, [], [], 0, 0, false);
      var i := 0;
      while i < |peers|
        invariant 0 <= i <= |peers|
        invariant hpeer < 1 || hpeer > i
      {
        if peers[i].hpeer == hpeer {
          AsMapEntry(peers, i);
          return true, peers[i];
        }
        i := i + 1;
      }
      found := false;
    }
  }
}
