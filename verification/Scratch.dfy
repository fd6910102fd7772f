/** Packing and sending from a scratch arena that is passed by value, as the tracker's
    message handler does (tmtracker.c): nested calls work in the space behind their
    caller's blocks, and give it back by returning. */
module Scratch {
  import opened Bytes
  import opened Memory
  import opened Format
  import opened Sockets
  import opened Pack
  import ST = SocketTable

  /** A message and where it goes. */
  datatype Job = Job(args: seq<Arg>, dests: seq<nat>)

  predicate Packable(fmt: string, jobs: seq<Job>) {
    forall j :: 0 <= j < |jobs| ==> Matches(Items(fmt), jobs[j].args)
  }

  /** One message for several destinations. */
  function Same(dests: seq<nat>, msg: seq<byte>): (r: seq<Packet>)
    ensures |r| == |dests|
  {
    seq(|dests|, i requires 0 <= i < |dests| => (dests[i], msg))
  }

  /** Everything the jobs send, in order. */
  function Sends(fmt: string, jobs: seq<Job>): seq<Packet>
    requires Packable(fmt, jobs)
  {
    if jobs == [] then []
    else
      var job := jobs[|jobs| - 1];
      Sends(fmt, jobs[..|jobs| - 1]) + Same(job.dests, Passed(Block(fmt, job)))
  }

  /** What a job packs. */
  function Block(fmt: string, job: Job): seq<byte>
    requires Matches(Items(fmt), job.args)
  {
    LengthPatched(Encode(Items(fmt), job.args))
  }

  /** No job packs more than `most` bytes. */
  predicate AtMost(fmt: string, jobs: seq<Job>, most: nat)
    requires Packable(fmt, jobs)
  {
    forall j :: 0 <= j < |jobs| ==> |Block(fmt, jobs[j])| <= most
  }

  /** The most bytes that any job packs. */
  function Longest(fmt: string, jobs: seq<Job>): (n: nat)
    requires Packable(fmt, jobs)
  {
    if jobs == [] then 0
    else
      var init, n := Longest(fmt, jobs[..|jobs| - 1]), |Block(fmt, jobs[|jobs| - 1])|;
      if n > init then n else init
  }

  lemma {:induction false} LongestIsMost(fmt: string, jobs: seq<Job>)
    requires Packable(fmt, jobs)
    ensures AtMost(fmt, jobs, Longest(fmt, jobs))
  {
    hide Block, Matches;
    if jobs != [] {
      var init := jobs[..|jobs| - 1];
      LongestIsMost(fmt, init);
      assert forall j :: 0 <= j < |init| ==> jobs[j] == init[j];
    }
  }

  lemma SpareFits(base: nat, size: nat, most: nat)
    ensures Spare(base, size, most) ==> base + 1024 <= size
  {
    GrownShape(1024, most);
  }

  /** The buffer has grown in its arena from 1024 bytes, for at most `most`. */
  ghost predicate Sized(b: Buffer, s: Arena, most: nat)
    reads b, s
  {
    b.cap >= 1 && Grown(b.cap, most) == Grown(1024, most) && s.pos + 1024 <= s.base + 2 * b.cap
  }

  /** The scratch arena has room for everything that handling takes from it: the buffer
      in all its sizes, and the copy that each send makes. */
  predicate Spare(base: nat, size: nat, most: nat) {
    base + 3 * Grown(1024, most) <= size
  }

  /** The tracker's scratch arena. */
  const SCRATCH_SIZE := 0x10_0000

  /** It has room for messages of up to 128 kibibytes. */
  lemma SpareInMebibyte(base: nat, most: nat)
    requires most <= 0x2_0000 && base <= 650_000
    ensures Spare(base, SCRATCH_SIZE, most)
  {
    GrownMonotone(1024, most, 0x2_0000);
    assert Grown(0x8000, 0x2_0000) == Grown(0x1_0000, 0x2_0000) == 0x2_0000;
    assert Grown(0x2000, 0x2_0000) == Grown(0x4000, 0x2_0000) == Grown(0x8000, 0x2_0000);
    assert Grown(1024, 0x2_0000) == Grown(0x800, 0x2_0000) == Grown(0x1000, 0x2_0000) == Grown(0x2000, 0x2_0000);
  }

  lemma SizedStart(b: Buffer, s: Arena, most: nat)
    requires b.cap == 1024 && s.pos == s.base + 1024
    ensures Sized(b, s, most)
  {
  }

  lemma SizedRoom(b: Buffer, s: Arena, most: nat, n: nat)
    requires Sized(b, s, most) && Spare(s.base, s.bs.Length, most) && n <= most
    ensures s.pos + (if n == 0 then DEFAULT_CAP else n) <= s.bs.Length
  {
    GrownShape(1024, most);
  }

  lemma SizedPack(n1: Snap, base: nat, most: nat, n: nat)
    requires n1.Consistent() && n1.len == 0 && Grown(n1.cap, most) == Grown(1024, most)
             && n1.pos + 1024 <= base + 2 * n1.cap
    requires Spare(base, |n1.bytes|, most) && n <= most
    ensures Roomy(n1, n)
  {
    GrownMonotone(n1.cap, n, most);
  }

  lemma SizedAfter(b: Buffer, s: Arena, cap: nat, pos: nat, most: nat, n: nat)
    requires cap >= 1 && n <= most && Grown(cap, most) == Grown(1024, most) && pos + 1024 <= s.base + 2 * cap
    requires b.cap == Grown(cap, n) && s.pos - pos <= 2 * (b.cap - cap)
    ensures Sized(b, s, most)
  {
    GrownTwice(cap, n, most);
  }

  lemma SizedMeans(b: Buffer, s: Arena, most: nat)
    requires Sized(b, s, most)
    ensures b.cap >= 1 && Grown(b.cap, most) == Grown(1024, most) && s.pos + 1024 <= s.base + 2 * b.cap
  {
  }

  ghost predicate Ready(b: Buffer, s: Arena, table: ST.Table)
    reads b, b.arena, b.arena.live, table, table.arena, table.arena.live, table.arena.bs, table.ctxs
  {
    && b.Live() && b.arena == s && table.Valid()
    && s != table.arena && s.bs != table.arena.bs
  }

  /** Why the program may abort: the scratch arena is too small from the start, or the
      contexts' arena has become crowded. */
  ghost predicate Short(s: Arena, table: ST.Table, most: nat)
    reads table, table.arena
  {
    !Spare(s.base, s.bs.Length, most) || ST.Crowded(table.arena.pos, table.arena.bs.Length, most)
  }

  /** One send of what is packed in the caller's buffer, which stays as it is. */
  method SendOnce(b: Buffer, s: Arena, table: ST.Table, dest: nat, w: World, at: nat, writefds: set<nat>, maxfd: nat,
                  ghost most: nat)
    returns (ok: bool, writefds': set<nat>, maxfd': nat)
    requires Ready(b, s, table) && b.InBounds() && Sized(b, s, most) && |b.Contents()| <= most
    modifies table, (set c <- table.ctxs :: c.writebuf), table.arena`pos, table.arena`live, table.arena.bs, s.bs
    ensures s.pos <= s.bs.Length && s.bs[..s.pos] == old(s.bs[..s.pos]) && b.InBounds()
            && b.Contents() == old(b.Contents())
    ensures Sized(b, s, most)
    ensures ok ==> Ready(b, s, table) && table.Added(1)
    ensures ok ==> Outbox(table.view, writefds', maxfd')
                   == SendTo(Outbox(old(table.view), writefds, maxfd), dest, Passed(old(b.Contents())),
                             Answer(w, old(table.view), at)).0
    ensures ok || Short(s, table, most)
  {
    hide SendTo, Arena.Valid, ST.Table.Owned, ST.Table.Shown, ST.Crowded, Sized, Spare;
    NotTheirs(b, s, table);
    BelowPos(b, s);
    ghost var msg, bytes, pos := b.Contents(), s.bs[..s.pos], table.arena.pos;
    var dial := table.Ask(w, at);
    var code;
    ok, code, writefds', maxfd' := table.SendMsgToHostaddr(s, Passed(b.Contents()), dest, dial, writefds, maxfd);
    ContentsBelow(b, s, bytes, msg);
    if !ok {
      if Spare(s.base, s.bs.Length, most) {
        SizedRoom(b, s, most, |Passed(msg)|);
        ST.CrowdedLater(pos, table.arena.pos, table.arena.bs.Length, |Passed(msg)|, most);
      }
    }
  }

  lemma NotTheirs(b: Buffer, s: Arena, table: ST.Table)
    requires Ready(b, s, table)
    ensures forall c <- table.ctxs :: c.writebuf != b && c.writebuf !in s.live
    ensures b !in table.arena.live
  {
  }

  lemma BelowPos(b: Buffer, s: Arena)
    requires b.Live() && b.arena == s
    ensures s.Valid() && b.InBounds() && b.off + b.len <= s.pos <= s.bs.Length
    ensures b.Contents() == s.bs[..s.pos][b.off..b.off + b.len]
  {
  }

  lemma ContentsBelow(b: Buffer, s: Arena, bytes: seq<byte>, msg: seq<byte>)
    requires b.arena == s && b.off + b.len <= s.pos <= s.bs.Length && s.bs[..s.pos] == bytes
    requires msg == bytes[b.off..b.off + b.len]
    ensures b.InBounds() && b.Contents() == msg
  {
    assert b.Contents() == s.bs[..s.pos][b.off..b.off + b.len];
  }

  lemma SendToNext(t: Outbox, msg: seq<byte>, dests: seq<nat>, i: nat, w: World, at: nat)
    requires i < |dests|
    ensures var u := SendList(t, Same(dests[..i], msg), w, at);
            SendList(t, Same(dests[..i + 1], msg), w, at) == SendTo(u, dests[i], msg, Answer(w, u.ctxs, at + i)).0
  {
    hide SendTo, Answer;
    assert Same(dests[..i + 1], msg)[..i] == Same(dests[..i], msg);
  }

  /** Sends one packed message everywhere. The buffer it is packed in is the caller's, in
      the scratch arena; every send gets the same bytes, since none writes there. */
  method SendEverywhere(b: Buffer, s: Arena, table: ST.Table, dests: seq<nat>, w: World, at: nat, writefds: set<nat>,
                        maxfd: nat, ghost most: nat)
    returns (ok: bool, writefds': set<nat>, maxfd': nat)
    requires Ready(b, s, table) && b.InBounds() && Sized(b, s, most) && |b.Contents()| <= most
    modifies table, (set c <- table.ctxs :: c.writebuf), table.arena`pos, table.arena`live, table.arena.bs, s.bs
    ensures s.pos <= s.bs.Length && s.bs[..s.pos] == old(s.bs[..s.pos]) && b.InBounds()
            && b.Contents() == old(b.Contents())
    ensures Sized(b, s, most)
    ensures ok ==> Ready(b, s, table) && table.Added(|dests|)
    ensures ok ==> Outbox(table.view, writefds', maxfd')
                   == SendList(Outbox(old(table.view), writefds, maxfd), Same(dests, Passed(old(b.Contents()))), w, at)
    ensures ok || Short(s, table, most)
  {
    hide SendTo, SendList, Ready, Short, Sized;
    PosInBounds(b, s, table);
    ghost var msg, bytes := b.Contents(), s.bs[..s.pos];
    ok, writefds', maxfd' := true, writefds, maxfd;
    var i := 0;
    assert dests[..0] == [];
    SendToNone(Outbox(table.view, writefds, maxfd), Passed(msg), w, at);
    while i < |dests|
      invariant 0 <= i <= |dests| && ok && s.pos <= s.bs.Length
      invariant Ready(b, s, table) && Sized(b, s, most) && s.bs[..s.pos] == bytes && b.InBounds() && b.Contents() == msg
      invariant table.Added(i)
      invariant Outbox(table.view, writefds', maxfd')
                == SendList(Outbox(old(table.view), writefds, maxfd), Same(dests[..i], Passed(msg)), w, at)
    {
      SendToNext(Outbox(old(table.view), writefds, maxfd), Passed(msg), dests, i, w, at);
      ok, writefds', maxfd' := SendOnce(b, s, table, dests[i], w, at + i, writefds', maxfd', most);
      if !ok {
        return;
      }
      i := i + 1;
    }
    assert dests[..i] == dests;
  }

  lemma SendToNone(t: Outbox, msg: seq<byte>, w: World, at: nat)
    ensures SendList(t, Same([], msg), w, at) == t
  {
  }

  lemma PosInBounds(b: Buffer, s: Arena, table: ST.Table)
    requires Ready(b, s, table)
    ensures s.pos <= s.bs.Length && s.bs != table.arena.bs
  {
  }

  lemma BaseBelow(b: Buffer)
    requires b.Live()
    ensures b.arena.base <= b.off && b.arena.base <= b.arena.pos <= b.arena.bs.Length
  {
  }

  lemma BlockIs(fmt: string, job: Job)
    requires Matches(Items(fmt), job.args)
    ensures Block(fmt, job) == [] + LengthPatched(Encode(Items(fmt), job.args))
    ensures |Block(fmt, job)| == 2 + |Encode(Items(fmt), job.args)|
  {
  }

  /** Clears the buffer and packs the next message into it. */
  method PackAnew(b: Buffer, s: Arena, fmt: string, job: Job, ghost most: nat) returns (ok: bool)
    requires b.Live() && b.arena == s && Matches(Items(fmt), job.args) && Sized(b, s, most) && |Block(fmt, job)| <= most
    modifies b, s`pos, s.bs
    ensures b.Live() && b.InBounds()
    ensures ok ==> Sized(b, s, most) && b.Contents() == Block(fmt, job)
    ensures s.base <= s.bs.Length && s.bs[..s.base] == old(s.bs[..s.base])
    ensures ok || !Spare(s.base, s.bs.Length, most)
  {
    hide Arena.Valid, Kept, Spare, Grown, Roomy, Encode, Sized, Block, LengthPatched, Matches, Items;
    SizedMeans(b, s, most);
    BlockIs(fmt, job);
    BaseBelow(b);
    ghost var n0 := b.Now();
    b.NowContents();
    b.Clear();
    b.NowContents();
    ghost var n1, body := b.Now(), Encode(Items(fmt), job.args);
    var n;
    ok, n := NetPackLenV(b, fmt, job.args);
    KeptBelow(n0, n1, s.base);
    KeptBelow(n1, b.Now(), s.base);
    if ok {
      SizedAfter(b, s, n1.cap, n1.pos, most, 2 + |body|);
    } else if Spare(s.base, s.bs.Length, most) {
      SizedPack(n1, s.base, most, 2 + |body|);
    }
  }

  /** The same beside the contexts, which it does not touch. */
  method Repack(b: Buffer, s: Arena, table: ST.Table, fmt: string, job: Job, ghost most: nat) returns (ok: bool)
    requires Ready(b, s, table) && Matches(Items(fmt), job.args) && Sized(b, s, most) && |Block(fmt, job)| <= most
    modifies b, s`pos, s.bs
    ensures ok ==> Ready(b, s, table) && b.InBounds() && Sized(b, s, most) && b.Contents() == Block(fmt, job)
    ensures s.base <= s.bs.Length && s.bs[..s.base] == old(s.bs[..s.base])
    ensures ok || Short(s, table, most)
  {
    hide Arena.Valid, ST.Table.Owned, ST.Table.Shown, Block, Matches, Sized, Spare;
    NotTheirs(b, s, table);
    ok := PackAnew(b, s, fmt, job, most);
  }

  /** One job. Only the space from where the handler's copy of the arena started is used. */
  method DoJob(b: Buffer, s: Arena, table: ST.Table, fmt: string, job: Job, w: World, at: nat, writefds: set<nat>,
               maxfd: nat, ghost most: nat)
    returns (ok: bool, writefds': set<nat>, maxfd': nat)
    requires Ready(b, s, table) && Matches(Items(fmt), job.args) && Sized(b, s, most) && |Block(fmt, job)| <= most
    modifies b, s`pos, s.bs
    modifies table, (set c <- table.ctxs :: c.writebuf), table.arena`pos, table.arena`live, table.arena.bs
    ensures s.base <= s.bs.Length && s.bs[..s.base] == old(s.bs[..s.base])
    ensures ok ==> Ready(b, s, table) && Sized(b, s, most) && table.Added(|job.dests|)
    ensures ok ==> Outbox(table.view, writefds', maxfd')
                   == SendList(Outbox(old(table.view), writefds, maxfd),
                               Same(job.dests, Passed(Block(fmt, job))), w, at)
    ensures ok || Short(s, table, most)
  {
    hide SendTo, SendList, Same, Encode, Matches, Block, Ready, Short, Sized;
    writefds', maxfd' := writefds, maxfd;
    ok := Repack(b, s, table, fmt, job, most);
    if !ok {
      return;
    }
    ReadyBase(b, s, table);
    ghost var now := s.bs[..s.pos];
    ok, writefds', maxfd' := SendEverywhere(b, s, table, job.dests, w, at, writefds, maxfd, most);
    assert s.bs[..s.base] == now[..s.base];
  }

  lemma ReadyBase(b: Buffer, s: Arena, table: ST.Table)
    requires Ready(b, s, table)
    ensures s.base <= s.pos <= s.bs.Length && s.bs != table.arena.bs && s != table.arena && table.Valid()
  {
  }

  lemma MakeReady(b: Buffer, s: Arena, table: ST.Table)
    requires b.arena == s && s.Valid() && b in s.live && table.Valid() && s != table.arena && s.bs != table.arena.bs
    ensures Ready(b, s, table)
  {
  }

  /** Job `j`, behind the jobs before it. */
  method NextJob(b: Buffer, s: Arena, table: ST.Table, fmt: string, jobs: seq<Job>, j: nat, w: World, ghost at: nat,
                 next: nat, ghost t: Outbox, writefds: set<nat>, maxfd: nat, ghost most: nat)
    returns (ok: bool, writefds': set<nat>, maxfd': nat)
    requires Ready(b, s, table) && Packable(fmt, jobs) && Sized(b, s, most) && AtMost(fmt, jobs, most) && j < |jobs|
    requires Packable(fmt, jobs[..j]) && next == at + |Sends(fmt, jobs[..j])|
    requires Outbox(table.view, writefds, maxfd) == SendList(t, Sends(fmt, jobs[..j]), w, at)
    modifies b, s`pos, s.bs
    modifies table, (set c <- table.ctxs :: c.writebuf), table.arena`pos, table.arena`live, table.arena.bs
    ensures s.base <= s.bs.Length && s.bs[..s.base] == old(s.bs[..s.base])
    ensures ok ==> Ready(b, s, table) && Sized(b, s, most) && table.Added(|jobs[j].dests|)
    ensures Packable(fmt, jobs[..j + 1])
            && |Sends(fmt, jobs[..j + 1])| == |Sends(fmt, jobs[..j])| + |jobs[j].dests|
    ensures ok ==> Outbox(table.view, writefds', maxfd') == SendList(t, Sends(fmt, jobs[..j + 1]), w, at)
    ensures ok || Short(s, table, most)
  {
    hide SendTo, SendList, Sends, Same, Encode, Matches, Block, Ready, Short, Grown, Sized, Passed, Items, AtMost;
    hide ST.Table.Added;
    SendsNext(fmt, jobs, j);
    JobAt(fmt, jobs, j, most);
    SendListSum(t, Sends(fmt, jobs[..j]), Same(jobs[j].dests, Passed(Block(fmt, jobs[j]))), w, at);
    ok, writefds', maxfd' := DoJob(b, s, table, fmt, jobs[j], w, next, writefds, maxfd, most);
  }

  /** All jobs, with one buffer. */
  method DoJobs(b: Buffer, s: Arena, table: ST.Table, fmt: string, jobs: seq<Job>, w: World, at: nat,
                writefds: set<nat>, maxfd: nat, ghost most: nat)
    returns (ok: bool, writefds': set<nat>, maxfd': nat)
    requires Ready(b, s, table) && Packable(fmt, jobs) && Sized(b, s, most) && AtMost(fmt, jobs, most)
    modifies b, s`pos, s.bs
    modifies table, (set c <- table.ctxs :: c.writebuf), table.arena`pos, table.arena`live, table.arena.bs
    ensures s.base <= s.bs.Length && s.bs[..s.base] == old(s.bs[..s.base])
    ensures ok ==> Ready(b, s, table) && table.Added(|Sends(fmt, jobs)|)
    ensures ok ==> Outbox(table.view, writefds', maxfd')
                   == SendList(Outbox(old(table.view), writefds, maxfd), Sends(fmt, jobs), w, at)
    ensures ok || Short(s, table, most)
  {
    hide SendTo, SendList, Sends, Block, Ready, Short, Sized, Packable, AtMost;
    ReadyBase(b, s, table);
    ok, writefds', maxfd' := true, writefds, maxfd;
    ghost var t, bytes := Outbox(table.view, writefds, maxfd), s.bs[..s.base];
    var j, k := 0, at;
    NothingSent(t, fmt, w, at);
    assert jobs[..0] == [];
    while j < |jobs|
      invariant 0 <= j <= |jobs| && ok && Packable(fmt, jobs[..j]) && k == at + |Sends(fmt, jobs[..j])|
      invariant Ready(b, s, table) && Sized(b, s, most) && s.bs[..s.base] == bytes
      invariant table.Added(|Sends(fmt, jobs[..j])|)
      invariant Outbox(table.view, writefds', maxfd') == SendList(t, Sends(fmt, jobs[..j]), w, at)
    {
      ok, writefds', maxfd' := NextJob(b, s, table, fmt, jobs, j, w, at, k, t, writefds', maxfd', most);
      if !ok {
        return;
      }
      k := k + |jobs[j].dests|;
      j := j + 1;
    }
    assert jobs[..j] == jobs;
  }

  /** The handler's copy of the scratch arena and the buffer it packs in. */
  method StartBuffer(scratch: Arena, ghost table: ST.Table, ghost most: nat) returns (s: Arena, b: Buffer?)
    requires scratch.Valid() && table.Valid() && scratch != table.arena && scratch.bs != table.arena.bs
    ensures scratch.pos <= scratch.bs.Length
    ensures fresh(s) && s.bs == scratch.bs && s.base == scratch.pos
    ensures b != null <==> scratch.pos + 1024 <= scratch.bs.Length
    ensures b != null ==> fresh(b) && Ready(b, s, table) && Sized(b, s, most)
  {
    assert scratch.pos <= scratch.bs.Length;
    hide Arena.Valid, ST.Table.Owned, ST.Table.Shown, Ready, Sized;
    s := new Arena.Copy(scratch);
    b := s.NewBuffer(1024);
    if b != null {
      MakeReady(b, s, table);
      SizedStart(b, s, most);
    }
  }

  /** The sending half of the message handler: one buffer in the scratch arena, packed
      anew for every job. The scratch arena came by value, so its owner has all its bytes
      and its position back; what has to last was copied into the contexts' buffers.
      `ok` is false where the program aborts, for which the scratch arena must have been
      too small for the largest message, or the contexts' arena have become crowded. */
  method RunJobs(scratch: Arena, table: ST.Table, fmt: string, jobs: seq<Job>, w: World, at: nat,
                writefds: set<nat>, maxfd: nat, ghost most: nat)
    returns (ok: bool, writefds': set<nat>, maxfd': nat)
    requires scratch.Valid() && table.Valid() && scratch != table.arena && scratch.bs != table.arena.bs
    requires Packable(fmt, jobs) && AtMost(fmt, jobs, most)
    modifies table, (set c <- table.ctxs :: c.writebuf), table.arena`pos, table.arena`live, table.arena.bs, scratch.bs
    ensures scratch.pos <= scratch.bs.Length && scratch.bs[..scratch.pos] == old(scratch.bs[..scratch.pos])
    ensures ok ==> table.Valid() && table.Added(|Sends(fmt, jobs)|)
    ensures ok ==> Outbox(table.view, writefds', maxfd')
                   == SendList(Outbox(old(table.view), writefds, maxfd), Sends(fmt, jobs), w, at)
    ensures ok || !Spare(scratch.pos, scratch.bs.Length, most)
            || ST.Crowded(table.arena.pos, table.arena.bs.Length, most)
  {
    hide SendTo, SendList, Sends, Packable, AtMost, ST.Table.Valid, Arena.Valid, Ready, Sized, Grown, ST.Crowded;
    ok, writefds', maxfd' := false, writefds, maxfd;
    GrownShape(1024, most);
    var s, b := StartBuffer(scratch, table, most);
    if b != null {
      ok, writefds', maxfd' := DoJobs(b, s, table, fmt, jobs, w, at, writefds, maxfd, most);
      if ok {
        ReadyBase(b, s, table);
      }
    }
  }

  lemma NothingSent(t: Outbox, fmt: string, w: World, at: nat)
    ensures Packable(fmt, []) && Sends(fmt, []) == [] && SendList(t, [], w, at) == t
  {
  }

  lemma JobAt(fmt: string, jobs: seq<Job>, j: nat, most: nat)
    requires Packable(fmt, jobs) && AtMost(fmt, jobs, most) && j < |jobs|
    ensures Matches(Items(fmt), jobs[j].args) && |Block(fmt, jobs[j])| <= most
  {
  }

  lemma SendsNext(fmt: string, jobs: seq<Job>, j: nat)
    requires Packable(fmt, jobs) && j < |jobs|
    ensures Packable(fmt, jobs[..j]) && Packable(fmt, jobs[..j + 1])
    ensures Sends(fmt, jobs[..j + 1]) == Sends(fmt, jobs[..j]) + Same(jobs[j].dests, Passed(Block(fmt, jobs[j])))
  {
    assert jobs[..j + 1][..j] == jobs[..j];
  }
}
