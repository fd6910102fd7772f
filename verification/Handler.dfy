/** The message handler of the tracker in memory: the packing and sending that `Scratch`
    does with one buffer in a scratch arena is what `Tracker` says a message leads to. */
module Handler {
  import opened Bytes
  import opened Format
  import opened Memory
  import opened Sockets
  import opened Peers
  import opened Messages
  import opened Protocol
  import opened Scratch
  import HostAddr
  import ST = SocketTable
  import Tracker

  /** Where the active peers listen, in table order. */
  function ActiveDests(peers: seq<Peer>): seq<nat> {
    if peers == [] then []
    else
      var p, dests := peers[|peers| - 1], ActiveDests(peers[..|peers| - 1]);
      if p.active then dests + [p.toaddr] else dests
  }

  /** The active peers one by one, to one destination. */
  function ReplayJobs(peers: seq<Peer>, toaddr: nat): seq<Job> {
    if peers == [] then []
    else
      var p, jobs := peers[|peers| - 1], ReplayJobs(peers[..|peers| - 1], toaddr);
      if p.active then jobs + [Job(OnlineArgs(PeerOnline(p)), [toaddr])] else jobs
  }

  /** A KNOCK: one message packed for all active peers, then one for each of them, packed
      over the last. */
  function KnockJobs(peers: seq<Peer>, fromaddr: nat, alias: seq<byte>, hostname: seq<byte>, toaddr: nat): seq<Job> {
    [Job(OnlineArgs(Online(alias, hostname, fromaddr, toaddr)), ActiveDests(peers))] + ReplayJobs(peers, toaddr)
  }

  /** A BYE: one message packed for all who stay. */
  function ByeJobs(peers: seq<Peer>, fromaddr: nat): seq<Job> {
    [Job(OfflineArgs(Offline(fromaddr)), ActiveDests(Leave(peers, fromaddr)))]
  }

  lemma {:induction false} SameIsBroadcast(peers: seq<Peer>, n: News)
    ensures Same(ActiveDests(peers), Pack.Passed(Pack.LengthPatched(Body(n)))) == Tracker.Packed(Broadcast(peers, n))
  {
    hide Pack.LengthPatched, Body, Pack.Passed;
    if peers != [] {
      var init, p := peers[..|peers| - 1], peers[|peers| - 1];
      SameIsBroadcast(init, n);
      Tracker.PackedSum(Broadcast(init, n), [(p.toaddr, n)]);
    }
  }

  lemma OnlineBlock(n: News, dests: seq<nat>)
    requires n.Online?
    ensures Matches(Items(ONLINE_FORMAT), OnlineArgs(n))
    ensures Block(ONLINE_FORMAT, Job(OnlineArgs(n), dests)) == Pack.LengthPatched(Body(n))
  {
    hide Encode, Pack.LengthPatched, Matches;
    Formats();
    OnlineFields(OnlineArgs(n));
  }

  lemma SendsOne(fmt: string, jobs: seq<Job>, job: Job)
    requires Packable(fmt, jobs) && Matches(Items(fmt), job.args)
    ensures Packable(fmt, jobs + [job])
    ensures Sends(fmt, jobs + [job]) == Sends(fmt, jobs) + Same(job.dests, Pack.Passed(Block(fmt, job)))
  {
    hide Block;
    assert (jobs + [job])[..|jobs|] == jobs;
  }

  lemma {:induction false} SendsSum(fmt: string, a: seq<Job>, b: seq<Job>)
    requires Packable(fmt, a) && Packable(fmt, b)
    ensures Packable(fmt, a + b) && Sends(fmt, a + b) == Sends(fmt, a) + Sends(fmt, b)
    decreases |b|
  {
    hide Block, Same, Sends, Items, Matches, Pack.Passed;
    if b == [] {
      assert a + b == a && Sends(fmt, b) == [] by {
        SendsNone(fmt);
      }
    } else {
      var init, job := b[..|b| - 1], b[|b| - 1];
      assert b == init + [job] && job == b[|b| - 1];
      SendsSum(fmt, a, init);
      SendsOne(fmt, init, job);
      SendsOne(fmt, a + init, job);
      assert (a + init) + [job] == a + b;
    }
  }

  lemma SendsNone(fmt: string)
    ensures Sends(fmt, []) == []
  {
  }

  lemma {:induction false} JobsAreReplay(peers: seq<Peer>, toaddr: nat)
    ensures Packable(ONLINE_FORMAT, ReplayJobs(peers, toaddr))
    ensures Sends(ONLINE_FORMAT, ReplayJobs(peers, toaddr)) == Tracker.Packed(Replay(peers, toaddr))
  {
    hide Pack.LengthPatched, Pack.Passed, Body, Block, Items, OnlineArgs;
    if peers != [] {
      var init, p := peers[..|peers| - 1], peers[|peers| - 1];
      JobsAreReplay(init, toaddr);
      if p.active {
        var n := PeerOnline(p);
        OnlineBlock(n, [toaddr]);
        SendsOne(ONLINE_FORMAT, ReplayJobs(init, toaddr), Job(OnlineArgs(n), [toaddr]));
        Tracker.PackedSum(Replay(init, toaddr), [(toaddr, n)]);
        assert Same([toaddr], Pack.Passed(Pack.LengthPatched(Body(n)))) == Tracker.Packed([(toaddr, n)]);
      }
    }
  }

  lemma OneJob(fmt: string, job: Job)
    requires Matches(Items(fmt), job.args)
    ensures Packable(fmt, [job]) && Sends(fmt, [job]) == Same(job.dests, Pack.Passed(Block(fmt, job)))
  {
    SendsOne(fmt, [], job);
    assert [] + [job] == [job];
    assert Sends(fmt, []) == [];
  }

  /** What the handler packs and sends for a KNOCK is what the protocol says, in order. */
  lemma KnockSends(peers: seq<Peer>, fromaddr: nat, alias: seq<byte>, hostname: seq<byte>, toaddr: nat)
    ensures var jobs := KnockJobs(peers, fromaddr, alias, hostname, toaddr);
            && Packable(ONLINE_FORMAT, jobs)
            && Sends(ONLINE_FORMAT, jobs) == Tracker.Packed(KnockStep(peers, fromaddr, alias, hostname, toaddr).1)
  {
    var n := Online(alias, hostname, fromaddr, toaddr);
    hide Pack.LengthPatched, Pack.Passed, Body, Block, Items, Same, Replay, Broadcast, Tracker.Packed, OnlineArgs;
    var first := Job(OnlineArgs(n), ActiveDests(peers));
    OnlineBlock(n, ActiveDests(peers));
    OneJob(ONLINE_FORMAT, first);
    SameIsBroadcast(peers, n);
    JobsAreReplay(peers, toaddr);
    SendsSum(ONLINE_FORMAT, [first], ReplayJobs(peers, toaddr));
    Tracker.PackedSum(Broadcast(peers, n), Replay(peers, toaddr));
  }

  lemma ByeSends(peers: seq<Peer>, fromaddr: nat)
    ensures Packable(OFFLINE_FORMAT, ByeJobs(peers, fromaddr))
    ensures Sends(OFFLINE_FORMAT, ByeJobs(peers, fromaddr)) == Tracker.Packed(ByeStep(peers, fromaddr).1)
  {
    hide Pack.LengthPatched, Pack.Passed, Encode, Matches, Same, Tracker.Packed, Leave;
    var n := Offline(fromaddr);
    Formats();
    OfflineFields(OfflineArgs(n)[0], OfflineArgs(n)[1]);
    assert OfflineArgs(n) == [OfflineArgs(n)[0], OfflineArgs(n)[1]];
    OneJob(OFFLINE_FORMAT, ByeJobs(peers, fromaddr)[0]);
    SameIsBroadcast(Leave(peers, fromaddr), n);
  }

  /** The names that the handler of a KNOCK uses, and where the newcomer listens. */
  function Newcomer(fromaddr: nat, body: seq<byte>): (seq<byte>, seq<byte>, nat)
    requires body != []
  {
    var u := Tracker.KnockOf(body);
    (TextOf(u.outs[1]), TextOf(u.outs[2]), HostAddr.WithPort(fromaddr, Tracker.Number16(u.outs[3])))
  }

  /** What a message makes the handler pack: the format and the jobs. */
  function JobsFor(peers: seq<Peer>, fromaddr: nat, body: seq<byte>): (r: (string, seq<Job>))
    requires body != []
    ensures Packable(r.0, r.1)
  {
    if body[0] == KNOCK && !Tracker.KnockOf(body).overread then
      var (alias, hostname, toaddr) := Newcomer(fromaddr, body);
      KnockSends(peers, fromaddr, alias, hostname, toaddr);
      (ONLINE_FORMAT, KnockJobs(peers, fromaddr, alias, hostname, toaddr))
    else if body[0] == BYE then
      ByeSends(peers, fromaddr);
      (OFFLINE_FORMAT, ByeJobs(peers, fromaddr))
    else ("", [])
  }

  /** Doing the jobs leaves the contexts that the tracker's reaction leaves. */
  lemma JobsHandle(w: World, s: Tracker.State, fromaddr: nat, body: seq<byte>)
    requires body != [] && !(body[0] == BYE && s.peers == [])
    ensures var (fmt, jobs) := JobsFor(s.peers, fromaddr, body);
            var t := Tracker.Handled(w, s, fromaddr, body);
            && SendList(s.out, Sends(fmt, jobs), w, s.attempts) == t.out
            && t.attempts == s.attempts + |Sends(fmt, jobs)|
            && |Sends(fmt, jobs)| == |Tracker.Reaction(s.peers, fromaddr, body).1|
  {
    hide KnockStep, ByeStep, KnockJobs, ByeJobs, Tracker.KnockOf, SendList, Tracker.SendAll, Packable, Tracker.Packed;
    hide Newcomer, Items, HostAddr.WithPort;
    var sends := Tracker.Packed(Tracker.Reaction(s.peers, fromaddr, body).1);
    Tracker.SendAllIsSendList(w, s, sends);
    NothingToDo();
    if body[0] == KNOCK && !Tracker.KnockOf(body).overread {
      var (alias, hostname, toaddr) := Newcomer(fromaddr, body);
      NewcomerIs(fromaddr, body);
      KnockSends(s.peers, fromaddr, alias, hostname, toaddr);
    } else if body[0] == BYE {
      ByeSends(s.peers, fromaddr);
    }
  }

  lemma NothingToDo()
    ensures Sends("", []) == [] == Tracker.Packed([])
  {
  }

  lemma NewcomerIs(fromaddr: nat, body: seq<byte>)
    requires body != []
    ensures var u := Tracker.KnockOf(body);
            Newcomer(fromaddr, body)
            == (TextOf(u.outs[1]), TextOf(u.outs[2]), HostAddr.WithPort(fromaddr, Tracker.Number16(u.outs[3])))
  {
  }

  /** The objects are apart, and hold what `s` says. */
  ghost predicate Ready(scratch: Arena, table: ST.Table, peers: PeerTable, writefds: set<nat>, maxfd: nat,
                        s: Tracker.State)
    reads scratch, scratch.live, table, table.arena, table.arena.live, table.arena.bs, table.ctxs, peers
  {
    && scratch.Valid() && table.Valid() && peers.Valid() && scratch != table.arena && scratch.bs != table.arena.bs
    && s.out == Outbox(table.view, writefds, maxfd) && s.peers == peers.peers && s.up
  }

  /** Copies a string into the arena, with a terminator behind it. */
  method KeepText(s: Arena, text: seq<byte>) returns (ok: bool, off: nat)
    requires s.Valid()
    modifies s`pos, s.bs
    ensures s.Valid() && off == old(s.pos) <= s.bs.Length && s.bs[..off] == old(s.bs[..off])
    ensures ok <==> off + |text| + 1 <= s.bs.Length
    ensures ok ==> s.pos == off + |text| + 1 && s.bs[off..off + |text|] == text
  {
    ok, off := s.Alloc(|text| + 1);
    if ok {
      MemWrite(s.bs, off, text + [0]);
      assert s.bs[off..off + |text|] == (text + [0])[..|text|];
    }
  }

  /** The C string among the `n` bytes at `at`. */
  function ReadName(s: Arena, at: nat, n: nat): seq<byte>
    requires at + n <= s.bs.Length
    reads s, s.bs
  {
    CString(s.bs[at..at + n])
  }

  lemma NameIs(s: Arena, at: nat, text: seq<byte>)
    requires at + |text| <= s.bs.Length && s.bs[at..at + |text|] == text
    ensures ReadName(s, at, |text|) == CString(text)
  {
  }

  lemma SameName(s: Arena, bytes: seq<byte>, at: nat, n: nat)
    requires s.pos <= s.bs.Length && s.bs[..s.pos] == bytes && at + n <= s.pos
    ensures ReadName(s, at, n) == CString(bytes[at..at + n])
  {
    assert s.bs[at..at + n] == bytes[at..at + n];
  }

  lemma StillBelow(s: Arena, bytes: seq<byte>, n: nat)
    requires s.pos <= s.bs.Length && s.bs[..s.pos] == bytes && n <= s.pos
    ensures s.bs[..n] == bytes[..n]
  {
  }

  /** The names of a KNOCK, kept in the handler's copy of the scratch arena. */
  method KeepNames(scratch: Arena, alias: seq<byte>, hostname: seq<byte>) returns (ok: bool, s: Arena, a: nat, h: nat)
    requires scratch.Valid()
    modifies scratch.bs
    ensures scratch.pos <= scratch.bs.Length && scratch.bs[..scratch.pos] == old(scratch.bs[..scratch.pos])
    ensures fresh(s) && s.bs == scratch.bs && s.base == scratch.pos
    ensures ok <==> scratch.pos + |alias| + |hostname| + 2 <= scratch.bs.Length
    ensures ok ==> s.Valid() && s.pos == scratch.pos + |alias| + |hostname| + 2
    ensures ok ==> a + |alias| <= s.pos && s.bs[a..a + |alias|] == alias
    ensures ok ==> h + |hostname| <= s.pos && s.bs[h..h + |hostname|] == hostname
  {
    assert scratch.pos <= scratch.bs.Length;
    hide Arena.Valid;
    s := new Arena.Copy(scratch);
    h := 0;
    ok, a := KeepText(s, alias);
    if ok {
      ghost var bytes := s.bs[..s.pos];
      ok, h := KeepText(s, hostname);
      assert s.bs[a..a + |alias|] == bytes[a..a + |alias|] == alias;
      assert s.bs[..scratch.pos] == bytes[..scratch.pos];
    }
  }

  /** The space for the names of a message. */
  function NameSpace(body: seq<byte>): nat
    requires body != []
  {
    if body[0] != KNOCK then 0
    else
      var u := Tracker.KnockOf(body);
      |BytesOf(u.outs[1])| + |BytesOf(u.outs[2])| + 2
  }

  /** Why the program may run out of space: the scratch arena is too small for the names and
      for packing and sending the longest message behind them, or the contexts' arena has
      become crowded. */
  ghost predicate Starved(scratch: Arena, table: ST.Table, before: seq<Peer>, fromaddr: nat, body: seq<byte>)
    requires body != []
    reads scratch, table, table.arena
  {
    var (fmt, jobs) := JobsFor(before, fromaddr, body);
    var most := Longest(fmt, jobs);
    || !Spare(scratch.pos + NameSpace(body), scratch.bs.Length, most)
    || ST.Crowded(table.arena.pos, table.arena.bs.Length, most)
  }

  /** The names in the table are as long as they can be. */
  predicate NamesFit(peers: seq<Peer>) {
    forall p <- peers :: |p.alias| <= ALIAS_SIZE && |p.hostname| <= HOSTNAME_SIZE
  }

  lemma NamesStayFit(w: World, s: Tracker.State, fromaddr: nat, body: seq<byte>)
    requires body != [] && NamesFit(s.peers)
    ensures NamesFit(Tracker.Handled(w, s, fromaddr, body).peers)
  {
    hide Tracker.SendAll, Tracker.KnockOf, FindFrom, StaticCopy, HostAddr.WithPort, Broadcast, Replay;
    Tracker.SendAllKeepsPeers(w, s, Tracker.Packed(Tracker.Reaction(s.peers, fromaddr, body).1));
  }

  /** The strings of a message are not longer than the message. */
  lemma NamesInBody(body: seq<byte>)
    requires body != []
    ensures var u := Tracker.KnockOf(body);
            |BytesOf(u.outs[1])| + |BytesOf(u.outs[2])| <= |body|
  {
    hide Decode, Matches;
    var vars, outs := Tracker.KnockVars(body[0]), Tracker.KnockOf(body).outs;
    DecodedText(KNOCK_ITEMS, body, vars);
    FourTexts(vars);
    FourTexts(outs);
  }

  lemma FourTexts(a: seq<Arg>)
    requires |a| == 4
    ensures TextSize(a) == |BytesOf(a[0])| + |BytesOf(a[1])| + |BytesOf(a[2])| + |BytesOf(a[3])|
  {
    assert a[1..][1..] == a[2..] && a[2..][1..] == a[3..] && a[3..][1..] == [];
    assert TextSize(a[3..]) == |BytesOf(a[3])| + TextSize([]);
    assert TextSize(a[2..]) == |BytesOf(a[2])| + TextSize(a[3..]);
    assert TextSize(a[1..]) == |BytesOf(a[1])| + TextSize(a[2..]);
  }

  lemma {:induction false} LongestWithin(fmt: string, jobs: seq<Job>, n: nat)
    requires Packable(fmt, jobs) && AtMost(fmt, jobs, n)
    ensures Longest(fmt, jobs) <= n
  {
    hide Block, Matches;
    if jobs != [] {
      var init := jobs[..|jobs| - 1];
      assert forall j :: 0 <= j < |init| ==> jobs[j] == init[j];
      LongestWithin(fmt, init, n);
    }
  }

  lemma OnlineBlockWithin(n: News, dests: seq<nat>, room: nat)
    requires n.Online? && |n.alias| + |n.hostname| <= room
    ensures Matches(Items(ONLINE_FORMAT), OnlineArgs(n))
    ensures |Block(ONLINE_FORMAT, Job(OnlineArgs(n), dests))| <= room + 23
  {
    OnlineBlock(n, dests);
    BodyLength(n);
    hide Block, Matches, Items, Body, OnlineArgs;
  }

  lemma {:induction false} ReplayWithin(peers: seq<Peer>, toaddr: nat)
    requires NamesFit(peers)
    ensures var jobs := ReplayJobs(peers, toaddr);
            Packable(ONLINE_FORMAT, jobs) && AtMost(ONLINE_FORMAT, jobs, ALIAS_SIZE + HOSTNAME_SIZE + 23)
  {
    hide Block, Matches, Items, OnlineArgs;
    if peers != [] {
      var init, p := peers[..|peers| - 1], peers[|peers| - 1];
      assert p in peers;
      ReplayWithin(init, toaddr);
      OnlineBlockWithin(PeerOnline(p), [toaddr], ALIAS_SIZE + HOSTNAME_SIZE);
    }
  }

  /** The longest message that a request of `n` bytes makes the tracker pack is at most this long. */
  const REPLY_EXTRA := 55

  lemma JobsWithin(peers: seq<Peer>, fromaddr: nat, body: seq<byte>)
    requires body != [] && NamesFit(peers)
    ensures var (fmt, jobs) := JobsFor(peers, fromaddr, body); Longest(fmt, jobs) <= |body| + REPLY_EXTRA
  {
    var (fmt, jobs) := JobsFor(peers, fromaddr, body);
    NamesInBody(body);
    if body[0] == KNOCK && !Tracker.KnockOf(body).overread {
      var (alias, hostname, toaddr) := Newcomer(fromaddr, body);
      hide Block, Matches, Items, Tracker.KnockOf, OnlineArgs, ActiveDests, Longest;
      var n := Online(alias, hostname, fromaddr, toaddr);
      OnlineBlockWithin(n, ActiveDests(peers), |body|);
      ReplayWithin(peers, toaddr);
      var more := ReplayJobs(peers, toaddr);
      assert forall j :: 0 < j < |jobs| ==> jobs[j] == more[j - 1];
    } else if body[0] == BYE {
      var n := Offline(fromaddr);
      Formats();
      OfflineFields(OfflineArgs(n)[0], OfflineArgs(n)[1]);
      assert OfflineArgs(n) == [OfflineArgs(n)[0], OfflineArgs(n)[1]];
      hide Matches, Encode, ActiveDests, Longest;
    }
    LongestWithin(fmt, jobs, |body| + REPLY_EXTRA);
  }

  /** A scratch arena of one mebibyte, unused so far, has room for all that handling a message
      takes: the message has at most 65535 bytes, and the table holds names of at most 16. */
  lemma ScratchSuffices(peers: seq<Peer>, fromaddr: nat, body: seq<byte>)
    requires body != [] && |body| < 65536 && NamesFit(peers)
    ensures var (fmt, jobs) := JobsFor(peers, fromaddr, body);
            Spare(NameSpace(body), SCRATCH_SIZE, Longest(fmt, jobs))
  {
    hide Spare, Longest, JobsFor, Tracker.KnockOf;
    NamesInBody(body);
    JobsWithin(peers, fromaddr, body);
    SpareInMebibyte(NameSpace(body), Longest(JobsFor(peers, fromaddr, body).0, JobsFor(peers, fromaddr, body).1));
  }

  /** So a handler that runs out of space did so in the contexts' arena. */
  lemma OnlyCrowded(scratch: Arena, table: ST.Table, peers: seq<Peer>, fromaddr: nat, body: seq<byte>)
    requires body != [] && |body| < 65536 && NamesFit(peers) && scratch.pos == 0 && scratch.bs.Length == SCRATCH_SIZE
    requires Starved(scratch, table, peers, fromaddr, body)
    ensures ST.Crowded(table.arena.pos, table.arena.bs.Length, |body| + REPLY_EXTRA)
  {
    hide Spare, Longest, JobsFor, Tracker.KnockOf, NameSpace;
    ScratchSuffices(peers, fromaddr, body);
    JobsWithin(peers, fromaddr, body);
  }

  lemma IsStarved(scratch: Arena, table: ST.Table, before: seq<Peer>, fromaddr: nat, body: seq<byte>)
    requires body != []
    requires var (fmt, jobs) := JobsFor(before, fromaddr, body);
             !Spare(scratch.pos + NameSpace(body), scratch.bs.Length, Longest(fmt, jobs))
             || ST.Crowded(table.arena.pos, table.arena.bs.Length, Longest(fmt, jobs))
    ensures Starved(scratch, table, before, fromaddr, body)
  {
  }

  /** What a KNOCK leads to, said with the newcomer's names. */
  lemma KnockIs(w: World, s: Tracker.State, fromaddr: nat, body: seq<byte>)
    requires body != [] && body[0] == KNOCK && !Tracker.KnockOf(body).overread
    ensures var (alias, hostname, toaddr) := Newcomer(fromaddr, body);
            var t := Tracker.Handled(w, s, fromaddr, body);
            && JobsFor(s.peers, fromaddr, body)
               == (ONLINE_FORMAT, KnockJobs(s.peers, fromaddr, alias, hostname, toaddr))
            && (t.up <==> s.up && |Create(s.peers, alias, hostname, fromaddr, toaddr)| <= MOST_PEERS)
            && (t.up ==> t.peers == Create(s.peers, alias, hostname, fromaddr, toaddr))
  {
    hide Tracker.KnockOf, Tracker.SendAll, KnockJobs, Create, HostAddr.WithPort, CString, Packable;
    hide Broadcast, Replay, Tracker.Packed;
    Tracker.UpUnlessFatal(w, s, fromaddr, body);
  }

  lemma ByeIs(w: World, s: Tracker.State, fromaddr: nat, body: seq<byte>)
    requires body != [] && body[0] == BYE && s.peers != [] && s.up && |s.peers| <= MOST_PEERS
    ensures JobsFor(s.peers, fromaddr, body) == (OFFLINE_FORMAT, ByeJobs(s.peers, fromaddr))
    ensures var t := Tracker.Handled(w, s, fromaddr, body); t.up && t.peers == Leave(s.peers, fromaddr)
    ensures NameSpace(body) == 0
  {
    hide Tracker.SendAll, ByeJobs, Broadcast, Tracker.Packed, Packable;
    Tracker.UpUnlessFatal(w, s, fromaddr, body);
  }

  /** Table, peers and descriptors are as in `t`. */
  ghost predicate Done(table: ST.Table, peers: PeerTable, writefds: set<nat>, maxfd: nat, attempts: nat,
                       t: Tracker.State)
    reads table, table.arena, table.arena.live, table.arena.bs, table.ctxs, peers
  {
    && table.Valid() && peers.Valid()
    && t.out == Outbox(table.view, writefds, maxfd) && t.peers == peers.peers && t.attempts == attempts && t.up
  }

  /** The sends behind a KNOCK. Its names are in the handler's copy of the scratch arena, and
      stay there while others pack and send behind them. */
  method Introduce(copy: Arena, a: nat, m: nat, h: nat, n: nat, table: ST.Table, peers: seq<Peer>, w: World,
                   attempts: nat, fromaddr: nat, toaddr: nat, writefds: set<nat>, maxfd: nat)
    returns (ok: bool, ghost jobs: seq<Job>, attempts': nat, writefds': set<nat>, maxfd': nat)
    requires copy.Valid() && table.Valid() && copy != table.arena && copy.bs != table.arena.bs
    requires a + m <= copy.pos <= copy.bs.Length && h + n <= copy.pos && copy.base <= copy.pos
    modifies table, (set c <- table.ctxs :: c.writebuf), table.arena`pos, table.arena`live, table.arena.bs, copy.bs
    ensures copy.bs[..copy.base] == old(copy.bs[..copy.base])
    ensures ReadName(copy, a, m) == old(ReadName(copy, a, m)) && ReadName(copy, h, n) == old(ReadName(copy, h, n))
    ensures jobs == KnockJobs(peers, fromaddr, old(ReadName(copy, a, m)), old(ReadName(copy, h, n)), toaddr)
    ensures Packable(ONLINE_FORMAT, jobs)
    ensures var sends := Sends(ONLINE_FORMAT, jobs);
            ok ==>
              && table.Valid() && table.Added(|sends|) && attempts' == attempts + |sends|
              && Outbox(table.view, writefds', maxfd')
                 == SendList(Outbox(old(table.view), writefds, maxfd), sends, w, attempts)
    ensures ok || !Spare(copy.pos, copy.bs.Length, Longest(ONLINE_FORMAT, jobs))
            || ST.Crowded(table.arena.pos, table.arena.bs.Length, Longest(ONLINE_FORMAT, jobs))
  {
    hide Sends, SendList, Packable, KnockJobs, Spare, ST.Crowded, ST.Table.Valid, ST.Table.Added, Arena.Valid, AtMost;
    hide CString, Longest, ReadName, KnockStep;
    KnockSends(peers, fromaddr, ReadName(copy, a, m), ReadName(copy, h, n), toaddr);
    ghost var bytes := copy.bs[..copy.pos];
    SameName(copy, bytes, a, m);
    SameName(copy, bytes, h, n);
    StillBelow(copy, bytes, copy.base);
    var todo := KnockJobs(peers, fromaddr, ReadName(copy, a, m), ReadName(copy, h, n), toaddr);
    jobs := todo;
    LongestIsMost(ONLINE_FORMAT, jobs);
    ghost var most := Longest(ONLINE_FORMAT, jobs);
    ok, writefds', maxfd' := RunJobs(copy, table, ONLINE_FORMAT, todo, w, attempts, writefds, maxfd, most);
    attempts' := attempts + |Sends(ONLINE_FORMAT, todo)|;
    SameName(copy, bytes, a, m);
    SameName(copy, bytes, h, n);
    StillBelow(copy, bytes, copy.base);
  }

  /** The part of a KNOCK that needs scratch. Its strings are kept there; `alias` and `hostname`
      are the names that they still are afterwards. */
  method SendKnock(scratch: Arena, table: ST.Table, peers: seq<Peer>, w: World, attempts: nat, fromaddr: nat,
                   aliasBytes: seq<byte>, hostnameBytes: seq<byte>, toaddr: nat, writefds: set<nat>, maxfd: nat)
    returns (ok: bool, ghost jobs: seq<Job>, attempts': nat, writefds': set<nat>, maxfd': nat, alias: seq<byte>,
             hostname: seq<byte>)
    requires scratch.Valid() && table.Valid() && scratch != table.arena && scratch.bs != table.arena.bs
    modifies table, (set c <- table.ctxs :: c.writebuf), table.arena`pos, table.arena`live, table.arena.bs, scratch.bs
    ensures scratch.pos <= scratch.bs.Length && scratch.bs[..scratch.pos] == old(scratch.bs[..scratch.pos])
    ensures jobs == KnockJobs(peers, fromaddr, CString(aliasBytes), CString(hostnameBytes), toaddr)
    ensures Packable(ONLINE_FORMAT, jobs)
    ensures ok ==> (alias, hostname) == (CString(aliasBytes), CString(hostnameBytes))
    ensures var sends := Sends(ONLINE_FORMAT, jobs);
            ok ==>
              && table.Valid() && table.Added(|sends|) && attempts' == attempts + |sends|
              && Outbox(table.view, writefds', maxfd')
                 == SendList(Outbox(old(table.view), writefds, maxfd), sends, w, attempts)
    ensures var names, most := |aliasBytes| + |hostnameBytes| + 2, Longest(ONLINE_FORMAT, jobs);
            ok || !Spare(scratch.pos + names, scratch.bs.Length, most)
            || ST.Crowded(table.arena.pos, table.arena.bs.Length, most)
  {
    hide KnockJobs, Packable, Spare, ST.Crowded, ST.Table.Valid, Arena.Valid, CString, Longest, ReadName, Sends;
    hide SendList, KnockStep;
    attempts', writefds', maxfd', alias, hostname := attempts, writefds, maxfd, [], [];
    KnockSends(peers, fromaddr, CString(aliasBytes), CString(hostnameBytes), toaddr);
    jobs := KnockJobs(peers, fromaddr, CString(aliasBytes), CString(hostnameBytes), toaddr);
    var copy, a, h;
    ok, copy, a, h := KeepNames(scratch, aliasBytes, hostnameBytes);
    if !ok {
      SpareFits(scratch.pos + |aliasBytes| + |hostnameBytes| + 2, scratch.bs.Length, Longest(ONLINE_FORMAT, jobs));
      return;
    }
    var m, n := |aliasBytes|, |hostnameBytes|;
    NameIs(copy, a, aliasBytes);
    NameIs(copy, h, hostnameBytes);
    ok, jobs, attempts', writefds', maxfd' :=
      Introduce(copy, a, m, h, n, table, peers, w, attempts, fromaddr, toaddr, writefds, maxfd);
    alias, hostname := ReadName(copy, a, m), ReadName(copy, h, n);
  }

  lemma NamesOf(fromaddr: nat, body: seq<byte>)
    requires body != [] && body[0] == KNOCK
    ensures var u := Tracker.KnockOf(body);
            var alias, hostname := BytesOf(u.outs[1]), BytesOf(u.outs[2]);
            && Newcomer(fromaddr, body)
               == (CString(alias), CString(hostname), HostAddr.WithPort(fromaddr, Tracker.Number16(u.outs[3])))
            && NameSpace(body) == |alias| + |hostname| + 2
  {
  }

  /** The introductions, and then the newcomer joins. */
  method Admit(scratch: Arena, table: ST.Table, peers: PeerTable, w: World, ghost s: Tracker.State, attempts: nat,
               fromaddr: nat, ghost body: seq<byte>, aliasBytes: seq<byte>, hostnameBytes: seq<byte>, toaddr: nat,
               writefds: set<nat>, maxfd: nat)
    returns (ok: bool, attempts': nat, writefds': set<nat>, maxfd': nat)
    requires Ready(scratch, table, peers, writefds, maxfd, s) && s.attempts == attempts
    requires body != [] && body[0] == KNOCK && !Tracker.KnockOf(body).overread
    requires Newcomer(fromaddr, body) == (CString(aliasBytes), CString(hostnameBytes), toaddr)
    requires NameSpace(body) == |aliasBytes| + |hostnameBytes| + 2
    modifies table, (set c <- table.ctxs :: c.writebuf), table.arena`pos, table.arena`live, table.arena.bs
    modifies scratch.bs, peers
    ensures scratch.pos <= scratch.bs.Length && scratch.bs[..scratch.pos] == old(scratch.bs[..scratch.pos])
    ensures ok ==> Done(table, peers, writefds', maxfd', attempts', Tracker.Handled(w, s, fromaddr, body))
    ensures ok ==> table.Added(|Tracker.Reaction(s.peers, fromaddr, body).1|)
    ensures ok || !Tracker.Handled(w, s, fromaddr, body).up || Starved(scratch, table, s.peers, fromaddr, body)
  {
    hide JobsFor, Tracker.KnockOf, Tracker.Handled, Tracker.Reaction, ST.Table.Valid, ST.Table.Added, Arena.Valid;
    hide Create, Newcomer, Starved, CString, NameSpace, AsMap, Ordered, Sends, SendList, Packable, KnockJobs, Longest;
    hide Spare, ST.Crowded;
    KnockIs(w, s, fromaddr, body);
    JobsHandle(w, s, fromaddr, body);
    ghost var jobs;
    var alias, hostname;
    ok, jobs, attempts', writefds', maxfd', alias, hostname :=
      SendKnock(scratch, table, peers.peers, w, attempts, fromaddr, aliasBytes, hostnameBytes, toaddr, writefds, maxfd);
    if ok {
      var hpeer;
      ok, hpeer := peers.CreatePeer(alias, hostname, fromaddr, toaddr);
    } else {
      IsStarved(scratch, table, s.peers, fromaddr, body);
    }
  }

  predicate Ignored(body: seq<byte>)
    requires body != []
  {
    if body[0] == KNOCK then Tracker.KnockOf(body).overread else body[0] != BYE
  }

  lemma IgnoredIs(w: World, s: Tracker.State, fromaddr: nat, body: seq<byte>)
    requires body != [] && |s.peers| <= MOST_PEERS
    ensures Ignored(body) ==>
      Tracker.Handled(w, s, fromaddr, body) == s && Tracker.Reaction(s.peers, fromaddr, body).1 == []
  {
    hide Tracker.KnockOf;
    assert Tracker.Packed([]) == [];
    assert s.(peers := s.peers) == s;
  }

  /** A KNOCK; one that announces more than it has is ignored. */
  method HandleKnock(scratch: Arena, table: ST.Table, peers: PeerTable, w: World, ghost s: Tracker.State,
                     attempts: nat, fromaddr: nat, body: seq<byte>, writefds: set<nat>, maxfd: nat)
    returns (ok: bool, attempts': nat, writefds': set<nat>, maxfd': nat)
    requires Ready(scratch, table, peers, writefds, maxfd, s) && s.attempts == attempts
    requires body != [] && body[0] == KNOCK
    modifies table, (set c <- table.ctxs :: c.writebuf), table.arena`pos, table.arena`live, table.arena.bs
    modifies scratch.bs, peers
    ensures scratch.pos <= scratch.bs.Length && scratch.bs[..scratch.pos] == old(scratch.bs[..scratch.pos])
    ensures ok ==> Done(table, peers, writefds', maxfd', attempts', Tracker.Handled(w, s, fromaddr, body))
    ensures ok ==> table.Added(|Tracker.Reaction(s.peers, fromaddr, body).1|)
    ensures ok || !Tracker.Handled(w, s, fromaddr, body).up || Starved(scratch, table, s.peers, fromaddr, body)
  {
    hide Tracker.KnockOf, Tracker.Handled, Tracker.Reaction, ST.Table.Valid, Arena.Valid, JobsFor;
    hide Newcomer, Starved, HostAddr.WithPort, CString, NameSpace, PeerTable.Valid;
    scratch.Within();
    ok, attempts', writefds', maxfd' := true, attempts, writefds, maxfd;
    peers.Small();
    IgnoredIs(w, s, fromaddr, body);
    NamesOf(fromaddr, body);
    var overread, aliasBytes, hostnameBytes, listenport := Tracker.UnpackKnock(body);
    if !overread {
      var toaddr := HostAddr.WithPort(fromaddr, listenport);
      ok, attempts', writefds', maxfd' :=
        Admit(scratch, table, peers, w, s, attempts, fromaddr, body, aliasBytes, hostnameBytes, toaddr, writefds,
              maxfd);
    }
  }

  /** A BYE. */
  method HandleBye(scratch: Arena, table: ST.Table, peers: PeerTable, w: World, ghost s: Tracker.State,
                   attempts: nat, fromaddr: nat, body: seq<byte>, writefds: set<nat>, maxfd: nat)
    returns (ok: bool, attempts': nat, writefds': set<nat>, maxfd': nat)
    requires Ready(scratch, table, peers, writefds, maxfd, s) && s.attempts == attempts
    requires body != [] && body[0] == BYE && s.peers != []
    modifies table, (set c <- table.ctxs :: c.writebuf), table.arena`pos, table.arena`live, table.arena.bs
    modifies scratch.bs, peers
    ensures scratch.pos <= scratch.bs.Length && scratch.bs[..scratch.pos] == old(scratch.bs[..scratch.pos])
    ensures ok ==> Done(table, peers, writefds', maxfd', attempts', Tracker.Handled(w, s, fromaddr, body))
    ensures ok ==> table.Added(|Tracker.Reaction(s.peers, fromaddr, body).1|)
    ensures ok || Starved(scratch, table, s.peers, fromaddr, body)
  {
    hide JobsFor, Tracker.Handled, Tracker.Reaction, Sends, SendList, Packable, NameSpace, Leave, Destroy, FindFrom;
    hide Spare, ST.Crowded, ST.Table.Valid, Arena.Valid, AtMost, Longest, ActiveDests, AsMap;
    attempts', writefds', maxfd' := attempts, writefds, maxfd;
    ByeIs(w, s, fromaddr, body);
    JobsHandle(w, s, fromaddr, body);
    Tracker.LeaveIs(peers.peers, fromaddr);
    var hpeer := peers.FindPeerFromaddr(fromaddr);
    if hpeer != -1 {
      peers.DestroyPeer(hpeer);
    }
    var jobs := [Job(OfflineArgs(Offline(fromaddr)), ActiveDests(peers.peers))];
    ghost var most := Longest(OFFLINE_FORMAT, jobs);
    LongestIsMost(OFFLINE_FORMAT, jobs);
    ok, writefds', maxfd' := RunJobs(scratch, table, OFFLINE_FORMAT, jobs, w, attempts, writefds, maxfd, most);
    attempts' := attempts + |Sends(OFFLINE_FORMAT, jobs)|;
  }

  /** Sending touches no buffer of the scratch arena. */
  lemma ScratchApart(scratch: Arena, table: ST.Table)
    requires scratch.Valid() && table.Valid() && scratch != table.arena
    ensures scratch.pos <= scratch.bs.Length && forall c <- table.ctxs :: c.writebuf !in scratch.live
  {
  }

  /** `handle_msg` in memory: the contexts in their arena, the peer table, and the names and
      the buffer in scratch. What is left is the tracker's reaction to the message; scratch
      is as the caller had it. No context is moved, and the array they are in is where it was
      if there was room for as many more as there are sends. `ok` is false where the program
      aborts: with the reaction, or for lack of space. */
  method HandleMsg(scratch: Arena, table: ST.Table, peers: PeerTable, w: World, ghost s: Tracker.State,
                   attempts: nat, fromaddr: nat, body: seq<byte>, writefds: set<nat>, maxfd: nat)
    returns (ok: bool, attempts': nat, writefds': set<nat>, maxfd': nat)
    requires Ready(scratch, table, peers, writefds, maxfd, s) && s.attempts == attempts && body != []
    modifies table, (set c <- table.ctxs :: c.writebuf), table.arena`pos, table.arena`live, table.arena.bs
    modifies scratch.bs, peers
    ensures scratch.pos <= scratch.bs.Length
    ensures scratch.bs[..scratch.pos] == old(scratch.bs[..scratch.pos])
    ensures ok ==> Done(table, peers, writefds', maxfd', attempts', Tracker.Handled(w, s, fromaddr, body))
    ensures ok ==> table.Added(|Tracker.Reaction(s.peers, fromaddr, body).1|)
    ensures ok || !Tracker.Handled(w, s, fromaddr, body).up || Starved(scratch, table, s.peers, fromaddr, body)
  {
    hide JobsFor, Tracker.KnockOf, Starved, ST.Table.Valid, Arena.Valid, Tracker.Handled, Tracker.Reaction;
    scratch.Within();
    peers.Small();
    IgnoredIs(w, s, fromaddr, body);
    ok, attempts', writefds', maxfd' := true, attempts, writefds, maxfd;
    if body[0] == KNOCK {
      ok, attempts', writefds', maxfd' :=
        HandleKnock(scratch, table, peers, w, s, attempts, fromaddr, body, writefds, maxfd);
    } else if body[0] == BYE {
      if |peers.peers| == 0 {
        ok := false;
        Tracker.UpUnlessFatal(w, s, fromaddr, body);
      } else {
        ok, attempts', writefds', maxfd' :=
          HandleBye(scratch, table, peers, w, s, attempts, fromaddr, body, writefds, maxfd);
      }
    }
  }
}
