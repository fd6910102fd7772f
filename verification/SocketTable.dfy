/** The context array of tmcommon.c with its buffers in one arena. Every method is tied
    to what `Sockets` says about the values; that it can be, is the separation of the
    buffers: no operation on one context shows in another. */
module SocketTable {
  import opened Bytes
  import opened Memory
  import opened Net
  import opened Framing
  import opened Sockets

  class SocketCtx {
    const fd: nat
    const fromaddr: nat
    const toaddr: nat
    const readbuf: Buffer
    const writebuf: Buffer
    var msglen: nat
    var shutRd: bool

    constructor (fd: nat, fromaddr: nat, toaddr: nat, readbuf: Buffer, writebuf: Buffer)
      ensures this.fd == fd && this.fromaddr == fromaddr && this.toaddr == toaddr
      ensures this.readbuf == readbuf && this.writebuf == writebuf && msglen == 0 && !shutRd
    {
      this.fd, this.fromaddr, this.toaddr := fd, fromaddr, toaddr;
      this.readbuf, this.writebuf := readbuf, writebuf;
      msglen, shutRd := 0, false;
    }

    ghost predicate Owns(b: Buffer) {
      b == readbuf || b == writebuf
    }

    ghost predicate SharesNothing(c: SocketCtx) {
      this != c && !c.Owns(readbuf) && !c.Owns(writebuf)
    }

    /** The context holds the value `v`. */
    ghost predicate Shows(v: Ctx)
      reads this, readbuf, writebuf, readbuf.arena.bs, writebuf.arena.bs
    {
      && fd == v.fd && fromaddr == v.fromaddr && toaddr == v.toaddr
      && msglen == v.rx.msglen && shutRd == v.shutRd
      && readbuf.InBounds() && readbuf.Contents() == v.rx.buf
      && writebuf.InBounds() && writebuf.Contents() == v.wbuf
    }
  }

  /** The buffers of the contexts are the live buffers of the arena, each in one place. */
  ghost predicate Placed(ctxs: seq<SocketCtx>, live: set<Buffer>, arena: Arena) {
    && (forall c <- ctxs :: c.readbuf in live && c.writebuf in live && c.readbuf != c.writebuf)
    && (forall c <- ctxs :: c.readbuf.arena == arena && c.writebuf.arena == arena)
    && (forall i, j :: 0 <= i < |ctxs| && 0 <= j < |ctxs| && i != j ==> ctxs[i].SharesNothing(ctxs[j]))
    && |live| == 2 * |ctxs|
  }

  lemma PlacedAdd(ctxs: seq<SocketCtx>, live: set<Buffer>, arena: Arena, c: SocketCtx)
    requires Placed(ctxs, live, arena) && c.readbuf !in live && c.writebuf !in live && c.readbuf != c.writebuf
    requires c.readbuf.arena == arena && c.writebuf.arena == arena
    ensures Placed(ctxs + [c], live + {c.readbuf} + {c.writebuf}, arena)
  {
    forall d | d in ctxs
      ensures d.SharesNothing(c) && c.SharesNothing(d)
    {
    }
    assert c.readbuf !in live && c.writebuf !in live + {c.readbuf};
  }

  lemma PlacedRemove(ctxs: seq<SocketCtx>, live: set<Buffer>, arena: Arena, i: nat)
    requires Placed(ctxs, live, arena) && i < |ctxs|
    ensures Placed(ctxs[..i] + ctxs[i + 1..], live - {ctxs[i].readbuf} - {ctxs[i].writebuf}, arena)
  {
    var c, rest := ctxs[i], ctxs[..i] + ctxs[i + 1..];
    forall j | 0 <= j < |rest|
      ensures rest[j] == ctxs[if j < i then j else j + 1] && rest[j].SharesNothing(c)
    {
    }
    assert c in ctxs;
    assert c.writebuf in live - {c.readbuf};
  }

  lemma PlacedNone(live: set<Buffer>, arena: Arena)
    ensures Placed([], live, arena) <==> live == {}
  {
  }

  /** More than about a third of an arena is taken: `n` bytes may not fit, wherever they go. */
  predicate Crowded(pos: nat, size: nat, n: nat) {
    3 * pos + 4 * n + 193 > size
  }

  /** Where there is no room to append to a buffer, the arena is crowded. */
  lemma NotRoomyCrowded(s: Snap, n: nat)
    requires s.Consistent() && !Roomy(s, n)
    ensures Crowded(s.pos, |s.bytes|, n)
  {
    GrownShape(s.cap, s.len + n);
  }

  /** There is room to append `n` bytes to the buffer, where it is or in a larger range. */
  ghost predicate Takes(b: Buffer, n: nat)
    requires b.cap >= 1
    reads b, b.arena
  {
    b.len + n <= b.cap || b.arena.pos + Grown(b.cap, b.len + n) <= b.arena.bs.Length
  }

  /** What a queue that starts with 64 bytes takes for `n` bytes beside these. */
  function TailSpace(n: nat): nat {
    if n <= 64 then 0 else Grown(64, n)
  }

  lemma GrownFrom64(n: nat)
    ensures Grown(64, n) <= 64 + 2 * n
  {
    GrownShape(64, n);
  }

  lemma TailTakes(b: Buffer, n: nat)
    requires b.cap == 64 && b.len == 0
    ensures Takes(b, n) <==> n <= 64 || b.arena.pos + TailSpace(n) <= b.arena.bs.Length
  {
  }

  /** Where a context for a message's tail does not fit, the arena was crowded before. */
  lemma TailCrowded(pos: nat, space: nat, size: nat, n: nat)
    requires space <= 2 * pos && pos + 65 + space + TailSpace(n) > size
    ensures Crowded(pos, size, n)
  {
    GrownFrom64(n);
  }

  lemma CrowdedLater(pos: nat, pos': nat, size: nat, n: nat, m: nat)
    requires Crowded(pos, size, n) && pos <= pos' && n <= m
    ensures Crowded(pos', size, m)
  {
  }

  const ARENA_SIZE: nat := 0x10_0000

  /** How many contexts the array has room for at first, and the space that each takes. */
  const FIRST_SLOTS: nat := 64
  const SLOT_SIZE: nat := 96

  class Table {
    const arena: Arena
    /** The contexts, in an array with room for `slots`. */
    var ctxs: seq<SocketCtx>
    var slots: nat
    /** The values of the contexts. */
    ghost var view: seq<Ctx>

    ghost predicate Owned()
      reads this, arena, arena.live
    {
      && arena.Valid() && arena.base == 0 && arena.bs.Length == ARENA_SIZE && Placed(ctxs, arena.live, arena)
      && |ctxs| <= slots && FIRST_SLOTS <= slots && SLOT_SIZE * slots <= arena.pos
    }

    ghost predicate Shown()
      requires Owned() && |view| == |ctxs|
      reads this, arena, arena.live, arena.bs, ctxs
    {
      forall i :: 0 <= i < |ctxs| ==> ctxs[i].Shows(view[i])
    }

    ghost predicate Valid()
      reads this, arena, arena.live, arena.bs, ctxs
    {
      Owned() && |view| == |ctxs| && Shown()
    }

    constructor ()
      ensures Valid() && fresh(arena) && fresh(arena.bs) && view == []
    {
      arena := new Arena.New(ARENA_SIZE);
      ctxs, slots, view := [], FIRST_SLOTS, [];
      new;
      var _, _ := arena.Alloc(SLOT_SIZE * FIRST_SLOTS);
    }

    lemma BuffersOf(i: nat)
      requires Owned() && i < |ctxs|
      ensures ctxs[i].readbuf.Live() && ctxs[i].writebuf.Live() && ctxs[i].readbuf != ctxs[i].writebuf
      ensures ctxs[i].readbuf.arena == arena && ctxs[i].writebuf.arena == arena
    {
      assert ctxs[i] in ctxs;
    }

    /** The reserved ranges of any two buffers of the contexts do not overlap. */
    lemma Separated(i: nat, j: nat, a: Buffer, b: Buffer)
      requires Valid() && i < |ctxs| && j < |ctxs| && ctxs[i].Owns(a) && ctxs[j].Owns(b) && a != b
      ensures Apart(a, b) && a.off + a.cap <= arena.bs.Length && a.len <= a.cap
    {
      assert ctxs[i] in ctxs && ctxs[j] in ctxs;
    }

    /** Nothing but the fields and the buffers of context `i` has changed. */
    twostate predicate OnlyChanged(i: nat)
      requires old(i < |ctxs|)
      reads this, arena, arena.live, arena.bs, ctxs
    {
      && ctxs == old(ctxs) && slots == old(slots) && arena.live == old(arena.live) && old(arena.pos) <= arena.pos
      && (forall c <- ctxs :: c != ctxs[i] ==> unchanged(c))
      && (forall a :: a in arena.live && !ctxs[i].Owns(a) ==> unchanged(a))
      && (forall a :: a in arena.live && !ctxs[i].Owns(a) && a.arena == arena && old(a.InBounds()) ==>
            a.InBounds() && a.Contents() == old(a.Contents()))
    }

    /** After a change of one context, which shows its new value, the others show what they did. */
    twostate lemma StillValid(i: nat)
      requires old(Valid()) && old(i < |ctxs|) && OnlyChanged(i) && arena.Valid()
      requires |view| == |ctxs| && ctxs[i].Shows(view[i])
      requires forall j :: 0 <= j < |view| && j != i ==> view[j] == old(view)[j]
      ensures Valid()
    {
      hide Arena.Valid;
      forall j | 0 <= j < |ctxs| && j != i
        ensures ctxs[j].Shows(view[j])
      {
        var c := ctxs[j];
        assert c in ctxs && c.SharesNothing(ctxs[i]);
        assert old(c.Shows(view[j]));
        assert c.readbuf.Contents() == old(c.readbuf.Contents());
        assert c.writebuf.Contents() == old(c.writebuf.Contents());
      }
    }

    /** At most `n` contexts were added behind those that were there. The array was only moved
        where it had no room for so many. */
    twostate predicate Added(n: nat)
      reads `ctxs, `slots
    {
      && old(ctxs) <= ctxs && |ctxs| <= old(|ctxs|) + n
      && old(slots) <= slots && (old(|ctxs|) + n <= old(slots) ==> slots == old(slots))
      && forall c <- ctxs :: c in old(ctxs) || (fresh(c) && fresh(c.readbuf) && fresh(c.writebuf))
    }

    /** A context that was not there before is new, and so are its buffers. */
    twostate predicate OnlyNew()
      reads `ctxs
    {
      forall c <- ctxs :: c in old(ctxs) || (fresh(c) && fresh(c.readbuf) && fresh(c.writebuf))
    }

    twostate lemma AddedBehind(n: nat)
      requires Added(n)
      ensures OnlyNew() && |old(ctxs)| <= |ctxs| && forall i :: 0 <= i < |old(ctxs)| ==> ctxs[i] == old(ctxs)[i]
    {
    }

    twostate lemma AddedOne(new c: SocketCtx)
      requires ctxs == old(ctxs) + [c] && fresh(c) && fresh(c.readbuf) && fresh(c.writebuf)
      requires old(slots) <= slots && (old(|ctxs|) < old(slots) ==> slots == old(slots))
      ensures Added(1)
    {
    }

    /** Adds `msg` to the bytes a destination has not taken yet. */
    method Queue(i: nat, msg: seq<byte>) returns (ok: bool)
      requires Valid() && i < |ctxs|
      modifies this`view, ctxs[i].writebuf, arena`pos, arena.bs
      ensures Valid() && ctxs == old(ctxs)
      ensures old(ctxs[i].writebuf.cap) >= 1 && (ok <==> old(Takes(ctxs[i].writebuf, |msg|)))
      ensures !ok ==> view == old(view)
      ensures ok ==> view == old(view)[i := old(view)[i].(wbuf := old(view)[i].wbuf + msg)]
      ensures old(arena.pos) <= arena.pos && (!ok ==> Crowded(old(arena.pos), arena.bs.Length, |msg|))
    {
      hide Arena.Valid, Owned, Extended, Roomy, Grown, Kept, Buffer.Contents;
      BuffersOf(i);
      assert ctxs[i].Shows(view[i]);
      ghost var b := ctxs[i].writebuf;
      b.NowContents();
      ok := ctxs[i].writebuf.Append(msg);
      if !ok {
        NotRoomyCrowded(old(b.Now()), |msg|);
      }
      if ok {
        view := view[i := view[i].(wbuf := view[i].wbuf + msg)];
      }
      StillValid(i);
    }

    /** Reads what has arrived into the context's read buffer. */
    method Receive(i: nat, io: seq<RecvEvent>) returns (ok: bool, z: Status)
      requires Valid() && i < |ctxs|
      modifies this`view, ctxs[i].readbuf, arena`pos, arena.bs
      ensures !ok ==> !Roomy(old(ctxs[i].readbuf.Now()), |Received(io).0|)
      ensures old(arena.pos) <= arena.pos && (!ok ==> Crowded(old(arena.pos), arena.bs.Length, |Received(io).0|))
      ensures ok ==> Valid() && ctxs == old(ctxs) && z == Received(io).1
      ensures ok ==> var v := old(view)[i];
                     view == old(view)[i := v.(rx := v.rx.(buf := v.rx.buf + Received(io).0))]
    {
      hide Arena.Valid, Owned, Extended, Roomy, Grown, Kept, Received, Buffer.Contents;
      BuffersOf(i);
      assert ctxs[i].Shows(view[i]);
      ghost var v, b := view[i], ctxs[i].readbuf;
      b.NowContents();
      ok, z := NetRecv(ctxs[i].readbuf, io);
      if !ok {
        NotRoomyCrowded(old(b.Now()), |Received(io).0|);
      }
      if ok {
        ghost var w := v.(rx := v.rx.(buf := v.rx.buf + Received(io).0));
        view := view[i := w];
        assert ctxs[i].Shows(w);
        StillValid(i);
      }
    }

    /** Drops the first `n` unread bytes. */
    method ShiftRead(i: nat, n: nat)
      requires Valid() && i < |ctxs| && n <= |view[i].rx.buf|
      modifies this`view, ctxs[i].readbuf, arena.bs
      ensures Valid() && ctxs == old(ctxs)
      ensures view == old(view)[i := old(view)[i].(rx := old(view)[i].rx.(buf := old(view)[i].rx.buf[n..]))]
    {
      hide Arena.Valid, Owned, Kept, Buffer.Contents;
      BuffersOf(i);
      assert ctxs[i].Shows(view[i]);
      ghost var v := view[i];
      ctxs[i].readbuf.Shift(n);
      ghost var w := v.(rx := v.rx.(buf := v.rx.buf[n..]));
      view := view[i := w];
      assert ctxs[i].Shows(w);
      StillValid(i);
    }

    method SetMsglen(i: nat, n: nat)
      requires Valid() && i < |ctxs|
      modifies this`view, ctxs[i]
      ensures Valid() && ctxs == old(ctxs)
      ensures view == old(view)[i := old(view)[i].(rx := old(view)[i].rx.(msglen := n))]
    {
      hide Arena.Valid, Owned, Buffer.Contents;
      BuffersOf(i);
      assert ctxs[i].Shows(view[i]);
      var c := ctxs[i];
      c.msglen := n;
      view := view[i := view[i].(rx := view[i].rx.(msglen := n))];
      StillValid(i);
    }

    /** The loop body where a length is read. */
    method ReadLength(i: nat)
      requires Valid() && i < |ctxs| && ReadsLength(view[i].rx)
      modifies this`view, ctxs[i], ctxs[i].readbuf, arena.bs
      ensures Valid() && ctxs == old(ctxs)
      ensures view == old(view)[i := old(view)[i].(rx := AfterLength(old(view)[i].rx))]
    {
      hide Owned, Shown, Value;
      var _, buf := Unread(i);
      SetMsglen(i, Value(buf[..2]));
      ShiftRead(i, 2);
    }

    /** The loop body behind `handle_msg`: the message leaves the read buffer. */
    method DropBody(i: nat)
      requires Valid() && i < |ctxs| && ReadsBody(view[i].rx)
      modifies this`view, ctxs[i], ctxs[i].readbuf, arena.bs
      ensures Valid() && ctxs == old(ctxs)
      ensures view == old(view)[i := old(view)[i].(rx := AfterBody(old(view)[i].rx))]
    {
      hide Owned, Shown;
      var msglen, _ := Unread(i);
      ShiftRead(i, msglen);
      SetMsglen(i, 0);
    }

    /** The receive loop: `msgs` are handed to `handle_msg`, in order; `ended` says that
        a zero length was met. */
    method DeframeAll(i: nat) returns (msgs: seq<seq<byte>>, ended: bool)
      requires Valid() && i < |ctxs|
      modifies this`view, ctxs[i], ctxs[i].readbuf, arena.bs
      ensures Valid() && ctxs == old(ctxs)
      ensures Deframed(msgs, view[i].rx, ended) == Drain(old(view)[i].rx)
      ensures view == old(view)[i := old(view)[i].(rx := view[i].rx)]
    {
      hide Owned, Shown, Drain, Value;
      ghost var c := ctxs[i];
      msgs, ended := [], false;
      while true
        invariant Valid() && ctxs == old(ctxs) && ctxs[i] == c && !ended
        invariant view == old(view)[i := old(view)[i].(rx := view[i].rx)]
        invariant Drain(old(view)[i].rx) == (var d := Drain(view[i].rx); d.(msgs := msgs + d.msgs))
        decreases |view[i].rx.buf|
      {
        ghost var rx := view[i].rx;
        DrainStep(rx);
        var msglen, buf := Unread(i);
        if msglen == 0 {
          if |buf| < 2 {
            break;
          }
          if Value(buf[..2]) == 0 {
            ended := true;
            break;
          }
          ReadLength(i);
        } else {
          if |buf| < msglen {
            break;
          }
          ghost var d := Drain(AfterBody(rx));
          assert msgs + ([buf[..msglen]] + d.msgs) == (msgs + [buf[..msglen]]) + d.msgs;
          msgs := msgs + [buf[..msglen]];
          DropBody(i);
        }
      }
      assert msgs + [] == msgs;
    }

    method Unread(i: nat) returns (msglen: nat, buf: seq<byte>)
      requires Valid() && i < |ctxs|
      ensures Rx(msglen, buf) == view[i].rx
    {
      assert ctxs[i].Shows(view[i]);
      msglen, buf := ctxs[i].msglen, ctxs[i].readbuf.Contents();
    }

    method NothingQueued(i: nat) returns (empty: bool)
      requires Valid() && i < |ctxs|
      ensures empty <==> view[i].wbuf == []
    {
      assert ctxs[i].Shows(view[i]);
      empty := ctxs[i].writebuf.len == 0;
    }

    method IsShut(i: nat) returns (shut: bool)
      requires Valid() && i < |ctxs|
      ensures shut == view[i].shutRd
    {
      assert ctxs[i].Shows(view[i]);
      shut := ctxs[i].shutRd;
    }

    /** What flushing does to the buffers, before the table takes note. */
    method FlushBuffer(i: nat, io: seq<SendEvent>, writefds: set<nat>, maxfd: nat)
      returns (z: Status, taken: seq<byte>, writefds': set<nat>, maxfd': nat)
      requires Valid() && i < |ctxs|
      modifies ctxs[i].writebuf, arena.bs
      ensures arena.Valid() && OnlyChanged(i)
      ensures var v := view[i];
              var (n, result) := SentCount(|v.wbuf|, io);
              && z == result && taken == v.wbuf[..n] && ctxs[i].Shows(v.(wbuf := v.wbuf[n..]))
              && (writefds', maxfd') == Watch(v.fd, result, writefds, maxfd)
    {
      hide Arena.Valid, Owned, Kept, SentCount, Watch, Buffer.Contents;
      BuffersOf(i);
      assert ctxs[i].Shows(view[i]);
      z, taken, writefds', maxfd' := NetSend2(ctxs[i].fd, ctxs[i].writebuf, io, writefds, maxfd);
      assert OnlyChanged(i);
    }

    /** Sends queued bytes and watches the descriptor as long as some are left. */
    method Flush(i: nat, io: seq<SendEvent>, writefds: set<nat>, maxfd: nat)
      returns (z: Status, taken: seq<byte>, writefds': set<nat>, maxfd': nat)
      requires Valid() && i < |ctxs|
      modifies this`view, ctxs[i].writebuf, arena.bs
      ensures Valid() && ctxs == old(ctxs)
      ensures var v := old(view)[i];
              var (n, result) := SentCount(|v.wbuf|, io);
              && z == result && taken == v.wbuf[..n] && view == old(view)[i := v.(wbuf := v.wbuf[n..])]
              && (writefds', maxfd') == Watch(v.fd, result, writefds, maxfd)
    {
      hide Arena.Valid, Owned, Shown, SentCount, Watch, SocketCtx.Shows;
      z, taken, writefds', maxfd' := FlushBuffer(i, io, writefds, maxfd);
      view := view[i := view[i].(wbuf := view[i].wbuf[SentCount(|view[i].wbuf|, io).0..])];
      StillValid(i);
    }

    /** Drops what could not be sent. */
    method ClearWrite(i: nat)
      requires Valid() && i < |ctxs|
      modifies this`view, ctxs[i].writebuf, arena.bs
      ensures Valid() && ctxs == old(ctxs)
      ensures view == old(view)[i := old(view)[i].(wbuf := [])]
    {
      hide Arena.Valid, Owned, Kept, Buffer.Contents;
      BuffersOf(i);
      assert ctxs[i].Shows(view[i]);
      ghost var w := view[i].(wbuf := []);
      ctxs[i].writebuf.Clear();
      view := view[i := w];
      assert ctxs[i].Shows(w);
      StillValid(i);
    }

    method SetShutRd(i: nat)
      requires Valid() && i < |ctxs|
      modifies this`view, ctxs[i]
      ensures Valid() && ctxs == old(ctxs)
      ensures view == old(view)[i := old(view)[i].(shutRd := true)]
    {
      hide Arena.Valid, Owned, Buffer.Contents;
      BuffersOf(i);
      assert ctxs[i].Shows(view[i]);
      var c := ctxs[i];
      c.shutRd := true;
      view := view[i := view[i].(shutRd := true)];
      StillValid(i);
    }

    method NewBuffers(readcap: nat, writecap: nat) returns (r: Buffer?, w: Buffer?)
      requires arena.Valid() && readcap >= 1 && writecap >= 1
      modifies arena`pos, arena`live
      ensures r != null && w != null <==> old(arena.pos) + readcap + writecap <= arena.bs.Length
      ensures old(arena.pos) <= arena.pos
      ensures r != null && w != null ==>
        && arena.Valid() && fresh(r) && fresh(w) && r != w && r.arena == arena == w.arena
        && arena.live == old(arena.live) + {r} + {w} && arena.pos == old(arena.pos) + readcap + writecap
        && r.InBounds() && w.InBounds() && r.Contents() == [] && w.Contents() == [] && w.cap == writecap && w.len == 0
    {
      hide Arena.Valid;
      r, w := null, null;
      r := arena.NewBuffer(readcap);
      if r != null {
        w := arena.NewBuffer(writecap);
      }
    }

    /** The space that another context takes in the array: none, or twice the array. */
    function SlotSpace(): nat
      reads this
    {
      if |ctxs| == slots then 2 * SLOT_SIZE * slots else 0
    }

    /** Room in the array for another context. */
    method MoreSlots() returns (ok: bool)
      requires arena.Valid() && arena.bs.Length == ARENA_SIZE
      requires |ctxs| <= slots && FIRST_SLOTS <= slots && SLOT_SIZE * slots <= arena.pos
      modifies this`slots, arena`pos
      ensures arena.Valid() && arena.pos == old(arena.pos) + if ok then old(SlotSpace()) else 0
      ensures ok <==> old(arena.pos) + old(SlotSpace()) <= arena.bs.Length
      ensures ok ==> |ctxs| < slots && FIRST_SLOTS <= slots && SLOT_SIZE * slots <= arena.pos
      ensures ok ==> old(slots) <= slots && (|ctxs| < old(slots) ==> slots == old(slots))
    {
      ok := true;
      if |ctxs| == slots {
        var at;
        ok, at := arena.Alloc(2 * SLOT_SIZE * slots);
        if ok {
          // the arena is too small for the 16-bit capacity to overflow
          assert 2 * slots < 65536;
          slots := 2 * slots;
        }
      }
    }

    /** Two empty buffers for another context, and a free slot for it. */
    method Reserve(readcap: nat, writecap: nat) returns (ok: bool, r: Buffer?, w: Buffer?)
      requires arena.Valid() && arena.bs.Length == ARENA_SIZE && readcap >= 1 && writecap >= 1
      requires |ctxs| <= slots && FIRST_SLOTS <= slots && SLOT_SIZE * slots <= arena.pos
      modifies this`slots, arena`pos, arena`live
      ensures ok <==> old(arena.pos) + readcap + writecap + old(SlotSpace()) <= arena.bs.Length
      ensures old(arena.pos) <= arena.pos
      ensures ok ==>
        && r != null && w != null && fresh(r) && fresh(w) && r != w && r.arena == arena == w.arena
        && r.InBounds() && w.InBounds() && r.Contents() == [] && w.Contents() == [] && w.cap == writecap && w.len == 0
        && arena.Valid() && arena.live == old(arena.live) + {r} + {w}
        && arena.pos == old(arena.pos) + readcap + writecap + old(SlotSpace())
        && |ctxs| < slots && FIRST_SLOTS <= slots && SLOT_SIZE * slots <= arena.pos
        && old(slots) <= slots && (|ctxs| < old(slots) ==> slots == old(slots))
    {
      hide Arena.Valid;
      ok := false;
      r, w := NewBuffers(readcap, writecap);
      if r != null && w != null {
        ok := MoreSlots();
      }
    }

    /** Everything about the contexts, beside `live`, their buffers. */
    ghost predicate Holds(live: set<Buffer>)
      reads this, arena, arena.live, arena.bs, ctxs
    {
      && arena.Valid() && arena.base == 0 && arena.bs.Length == ARENA_SIZE && live <= arena.live
      && Placed(ctxs, live, arena) && |view| == |ctxs| && FIRST_SLOTS <= slots && SLOT_SIZE * slots <= arena.pos
      && forall i :: 0 <= i < |ctxs| ==> ctxs[i] in ctxs && ctxs[i].Shows(view[i])
    }

    /** Two new buffers become a context. */
    method Join(fd: nat, fromaddr: nat, toaddr: nat, r: Buffer, w: Buffer, ghost live: set<Buffer>)
      requires Holds(live) && |ctxs| < slots && r.arena == arena == w.arena
      requires r !in live && w !in live && r != w && arena.live == live + {r} + {w}
      requires r.InBounds() && w.InBounds() && r.Contents() == [] && w.Contents() == []
      modifies this`ctxs, this`view
      ensures Valid() && |ctxs| == |old(ctxs)| + 1 && ctxs == old(ctxs) + [ctxs[|old(ctxs)|]]
      ensures fresh(ctxs[|old(ctxs)|]) && ctxs[|old(ctxs)|].readbuf == r && ctxs[|old(ctxs)|].writebuf == w
      ensures view == old(view) + [Sockets.NewCtx(fd, fromaddr, toaddr)]
    {
      hide Arena.Valid, Placed, Buffer.Contents;
      var c := new SocketCtx(fd, fromaddr, toaddr, r, w);
      PlacedAdd(ctxs, live, arena, c);
      ctxs := ctxs + [c];
      view := view + [Sockets.NewCtx(fd, fromaddr, toaddr)];
      assert c.Shows(Sockets.NewCtx(fd, fromaddr, toaddr));
    }

    /** `SocketCtx_new`; `ok` is false where the program aborts. */
    method NewCtx(fd: nat, fromaddr: nat, toaddr: nat, readcap: nat, writecap: nat) returns (ok: bool)
      requires Valid() && readcap >= 1 && writecap >= 1
      modifies this, arena`pos, arena`live
      ensures ok <==> old(arena.pos) + readcap + writecap + old(SlotSpace()) <= arena.bs.Length
      ensures old(arena.pos) <= arena.pos
      ensures ok ==> arena.pos == old(arena.pos) + readcap + writecap + old(SlotSpace())
      ensures ok ==> Valid() && Added(1) && |ctxs| == |old(ctxs)| + 1
      ensures ok ==> var c := ctxs[|old(ctxs)|];
                     fresh(c.writebuf) && c.writebuf.cap == writecap && c.writebuf.len == 0
      ensures ok ==> view == old(view) + [Sockets.NewCtx(fd, fromaddr, toaddr)]
    {
      hide Arena.Valid, Placed, Buffer.Contents, SlotSpace, Added;
      var r, w;
      ok, r, w := Reserve(readcap, writecap);
      if !ok {
        return;
      }
      StillHolds();
      Join(fd, fromaddr, toaddr, r, w, old(arena.live));
      AddedOne(ctxs[|old(ctxs)|]);
    }

    /** Contexts that were there show what they did, when nothing of theirs was touched. */
    twostate lemma StillHolds()
      requires old(Valid()) && ctxs == old(ctxs) && view == old(view) && arena.Valid() && old(arena.live) <= arena.live
      requires FIRST_SLOTS <= slots && SLOT_SIZE * slots <= arena.pos
      requires forall c :: c in ctxs ==> unchanged(c) && unchanged(c.readbuf) && unchanged(c.writebuf)
      requires arena.bs[..] == old(arena.bs[..])
      ensures Holds(old(arena.live))
    {
      hide Arena.Valid;
      forall j | 0 <= j < |ctxs|
        ensures ctxs[j].Shows(view[j])
      {
        var c := ctxs[j];
        assert old(c.Shows(view[j]));
      }
    }

    twostate lemma RemovedShown(i: nat)
      requires old(Valid()) && old(i < |ctxs|) && arena.bs[..] == old(arena.bs[..])
      requires ctxs == old(ctxs[..i] + ctxs[i + 1..]) && view == old(Remove(view, i))
      requires forall c :: c in old(ctxs) ==> unchanged(c) && unchanged(c.readbuf) && unchanged(c.writebuf)
      ensures forall j :: 0 <= j < |ctxs| ==> ctxs[j].Shows(view[j])
    {
      hide Arena.Valid;
      forall j | 0 <= j < |ctxs|
        ensures ctxs[j].Shows(view[j])
      {
        var k := if j < i then j else j + 1;
        var c := ctxs[j];
        assert c == old(ctxs)[k] && c in old(ctxs) && view[j] == old(view)[k];
        assert old(c.Shows(view[k]));
      }
    }

    /** `SocketCtx_close_and_remove`. */
    method RemoveCtx(i: nat)
      requires Valid() && i < |ctxs|
      modifies this`ctxs, this`view, arena`live
      ensures Valid() && view == Remove(old(view), i) && forall c <- ctxs :: c in old(ctxs)
    {
      hide Arena.Valid, Placed, Buffer.Contents;
      var c := ctxs[i];
      PlacedRemove(ctxs, arena.live, arena, i);
      arena.Release(c.readbuf);
      arena.Release(c.writebuf);
      ctxs := ctxs[..i] + ctxs[i + 1..];
      view := Remove(view, i);
      RemovedShown(i);
      hide SocketCtx.Shows;
    }

    /** The arena is reset, which no context is left to notice, and holds a new array. */
    method StartOver()
      requires Valid() && ctxs == []
      modifies this`slots, arena`pos
      ensures Valid() && arena.pos == SLOT_SIZE * FIRST_SLOTS && slots == FIRST_SLOTS
    {
      hide Arena.Valid;
      PlacedNone(arena.live, arena);
      arena.Reset();
      var _, _ := arena.Alloc(SLOT_SIZE * FIRST_SLOTS);
      slots := FIRST_SLOTS;
    }

    /** A context goes, and the last one takes everything in the arena with it. */
    method CloseAndRemove(i: nat)
      requires Valid() && i < |ctxs|
      modifies this, arena`pos, arena`live
      ensures Valid() && view == Remove(old(view), i) && forall c <- ctxs :: c in old(ctxs)
      ensures ctxs == [] ==> arena.pos == SLOT_SIZE * FIRST_SLOTS && slots == FIRST_SLOTS
    {
      hide Owned, Shown;
      RemoveCtx(i);
      if |ctxs| == 0 {
        StartOver();
      }
    }

    /** `SocketCtx_find_by_fd`, as an index. */
    method FindByFd(fd: nat) returns (r: int)
      requires Valid()
      ensures r == FindFd(view, fd)
    {
      hide Owned;
      var i := 0;
      while i < |ctxs|
        invariant 0 <= i <= |ctxs|
        invariant forall j :: 0 <= j < i ==> view[j].fd != fd
      {
        assert ctxs[i].Shows(view[i]);
        if ctxs[i].fd == fd {
          return i;
        }
        i := i + 1;
      }
      return -1;
    }

    /** What the operating system answers, given the descriptors that are in use. */
    method Ask(w: World, attempt: nat) returns (d: Dial)
      requires Valid()
      ensures d == Answer(w, view, attempt)
    {
      d := w.dials(attempt);
      var i := FindByFd(d.fd);
      d := d.(socketOk := d.socketOk && d.fd != w.listenfd && i == -1);
    }

    /** `SocketCtx_find_by_toaddr`, as an index. */
    method FindByToaddr(toaddr: nat) returns (r: int)
      requires Valid()
      ensures r == FindTo(view, toaddr)
    {
      hide Owned;
      var i := 0;
      while i < |ctxs|
        invariant 0 <= i <= |ctxs|
        invariant forall j :: 0 <= j < i ==> view[j].toaddr != toaddr
      {
        assert ctxs[i].Shows(view[i]);
        if ctxs[i].toaddr == toaddr {
          return i;
        }
        i := i + 1;
      }
      return -1;
    }

    /** Sends a message from an empty buffer that has room for it; nothing in front of the
        buffer changes. */
    static method SendFrom(b: Buffer, msg: seq<byte>, fd: nat, io: seq<SendEvent>, writefds: set<nat>, maxfd: nat)
      returns (z: Status, rest: seq<byte>, writefds': set<nat>, maxfd': nat)
      requires b.Live() && b.InBounds() && b.Contents() == [] && |msg| <= b.cap
      modifies b, b.arena`pos, b.arena.bs
      ensures old(b.off) <= b.arena.bs.Length && b.arena.bs[..old(b.off)] == old(b.arena.bs[..b.off])
      ensures var (n, result) := SentCount(|msg|, io);
              z == result && rest == msg[n..] && (writefds', maxfd') == Watch(fd, result, writefds, maxfd)
    {
      hide SentCount, Watch, Arena.Valid, Extended, Kept, Roomy, Grown, Buffer.Live;
      ghost var s0 := b.Now();
      b.NowContents();
      var ok := b.Append(msg);
      ghost var s1 := b.Now();
      NoGrowth(s0, s1, msg);
      assert [] + msg == msg;
      var taken;
      z, taken, writefds', maxfd' := NetSend2(fd, b, io, writefds, maxfd);
      rest := b.Contents();
      KeptBelow(s0, s1, s0.off);
      KeptBelow(s1, b.Now(), s0.off);
      assert b.Now().bytes[..s0.off] == s0.bytes[..s0.off];
    }

    /** The first send on a new connection, from a buffer in the caller's scratch arena.
        The scratch arena came by value: what the caller has in it stays as it is. */
    static method SendFromScratch(scratch: Arena, msg: seq<byte>, fd: nat, io: seq<SendEvent>, writefds: set<nat>,
                                  maxfd: nat)
      returns (ok: bool, z: Status, rest: seq<byte>, writefds': set<nat>, maxfd': nat)
      requires scratch.Valid()
      modifies scratch.bs
      ensures scratch.pos <= scratch.bs.Length && scratch.bs[..scratch.pos] == old(scratch.bs[..scratch.pos])
      ensures ok <==> scratch.pos + (if msg == [] then DEFAULT_CAP else |msg|) <= scratch.bs.Length
      ensures var (n, result) := SentCount(|msg|, io);
              ok ==> z == result && rest == msg[n..] && (writefds', maxfd') == Watch(fd, result, writefds, maxfd)
    {
      scratch.Within();
      hide SentCount, Watch, Arena.Valid;
      z, rest, writefds', maxfd' := Failed, [], writefds, maxfd;
      var s := new Arena.Copy(scratch);
      var b := s.NewBuffer(|msg|);
      ok := b != null;
      if ok {
        z, rest, writefds', maxfd' := SendFrom(b, msg, fd, io, writefds, maxfd);
      }
    }

    /** `SocketCtx_new` for the tail that a new connection has not taken yet. */
    method KeepTail(fd: nat, toaddr: nat, rest: seq<byte>) returns (ok: bool)
      requires Valid()
      modifies this, arena`pos, arena`live, arena.bs
      ensures ok <==> old(arena.pos) + 65 + old(SlotSpace()) + TailSpace(|rest|) <= arena.bs.Length
      ensures ok ==> Valid() && view == old(view) + [Sockets.NewCtx(fd, 0, toaddr).(wbuf := rest)]
      ensures ok ==> Added(1)
      ensures old(arena.pos) <= arena.pos && (!ok ==> Crowded(old(arena.pos), arena.bs.Length, |rest|))
    {
      SlotsInArena();
      hide Arena.Valid, Owned, Shown, Grown, Roomy, Crowded, SlotSpace, Takes, TailSpace;
      arena.Within();
      ghost var space := SlotSpace();
      ok := NewCtx(fd, 0, toaddr, 1, 64);
      if ok {
        TailTakes(ctxs[|ctxs| - 1].writebuf, |rest|);
        ok := Queue(|ctxs| - 1, rest);
        assert [] + rest == rest;
      }
      if !ok {
        TailCrowded(old(arena.pos), space, arena.bs.Length, |rest|);
      }
    }

    lemma SlotsInArena()
      requires Valid()
      ensures SlotSpace() <= 2 * arena.pos && arena.bs.Length == ARENA_SIZE
    {
    }

    /** There is room to send on a new connection: for a copy of the message in scratch, and for
        a context and the bytes that the socket does not take. */
    ghost predicate RoomOnNew(scratch: Arena, msg: seq<byte>, dial: Dial)
      reads this, arena, scratch
    {
      var (n, z) := SentCount(|msg|, dial.io);
      dial.socketOk && dial.connectOk ==>
        && scratch.pos + (if msg == [] then DEFAULT_CAP else |msg|) <= scratch.bs.Length
        && (z == Pending ==> arena.pos + 65 + SlotSpace() + TailSpace(|msg[n..]|) <= arena.bs.Length)
    }

    /** There is room to send: in the destination's queue, if it has one, or else for a new connection. */
    ghost predicate RoomToSend(scratch: Arena, msg: seq<byte>, toaddr: nat, dial: Dial)
      reads this, arena, scratch, ctxs, (set c <- ctxs :: c.writebuf)
    {
      var i := FindTo(view, toaddr);
      if 0 <= i < |ctxs| then
        var b := ctxs[i].writebuf;
        b.cap >= 1 && b.arena == arena && Takes(b, |msg|)
      else RoomOnNew(scratch, msg, dial)
    }

    /** The part of `send_msg_to_hostaddr` behind the search: a connection for this message. */
    method SendOnNew(scratch: Arena, msg: seq<byte>, toaddr: nat, dial: Dial, writefds: set<nat>, maxfd: nat)
      returns (ok: bool, code: int, writefds': set<nat>, maxfd': nat)
      requires Valid() && scratch.Valid() && scratch != arena && scratch.bs != arena.bs
      requires FindTo(view, toaddr) == -1
      modifies this, arena`pos, arena`live, arena.bs, scratch.bs
      ensures ok <==> old(RoomOnNew(scratch, msg, dial))
      ensures scratch.pos <= scratch.bs.Length && scratch.bs[..scratch.pos] == old(scratch.bs[..scratch.pos])
      ensures ok ==>
        && Valid()
        && (Outbox(view, writefds', maxfd'), code) == SendTo(Outbox(old(view), writefds, maxfd), toaddr, msg, dial)
      ensures ok ==> Added(1)
      ensures old(arena.pos) <= arena.pos
      ensures ok || scratch.pos + (if msg == [] then DEFAULT_CAP else |msg|) > scratch.bs.Length
              || Crowded(old(arena.pos), arena.bs.Length, |msg|)
    {
      assert scratch.pos <= scratch.bs.Length;
      hide Arena.Valid, Owned, Shown, Grown, Roomy, SentCount, FindTo, TailSpace, SlotSpace, Crowded;
      ok, code, writefds', maxfd' := true, -1, writefds, maxfd;
      if !dial.socketOk || !dial.connectOk {
        return;
      }
      var z, rest;
      ok, z, rest, writefds', maxfd' := SendFromScratch(scratch, msg, dial.fd, dial.io, writefds, maxfd);
      if !ok || z == Failed {
        return;
      }
      code := 0;
      if z == Pending {
        ok := KeepTail(dial.fd, toaddr, rest);
        if !ok {
          CrowdedLater(old(arena.pos), old(arena.pos), arena.bs.Length, |rest|, |msg|);
        }
      }
    }

    /** The part where a context with bytes for the same destination was found. */
    method SendOnOld(i: nat, ghost scratch: Arena, msg: seq<byte>, toaddr: nat, ghost dial: Dial,
                     ghost writefds: set<nat>, ghost maxfd: nat)
      returns (ok: bool)
      requires Valid() && i < |ctxs| && i == FindTo(view, toaddr)
      requires scratch.pos <= scratch.bs.Length && scratch != arena && scratch.bs != arena.bs
      modifies this`view, ctxs[i].writebuf, arena`pos, arena.bs
      ensures ok <==> old(ctxs[i].writebuf.cap >= 1 && Takes(ctxs[i].writebuf, |msg|))
      ensures Added(1) && scratch.bs[..scratch.pos] == old(scratch.bs[..scratch.pos])
      ensures ok ==>
        Valid() && (Outbox(view, writefds, maxfd), 1) == SendTo(Outbox(old(view), writefds, maxfd), toaddr, msg, dial)
      ensures old(arena.pos) <= arena.pos && (!ok ==> Crowded(old(arena.pos), arena.bs.Length, |msg|))
    {
      hide Arena.Valid, Owned, Shown, Roomy, SentCount, Crowded, Takes;
      ok := Queue(i, msg);
    }

    /** The part of `send_msg_to_hostaddr` behind the search. */
    method SendOn(i: int, scratch: Arena, msg: seq<byte>, toaddr: nat, dial: Dial, writefds: set<nat>, maxfd: nat)
      returns (ok: bool, code: int, writefds': set<nat>, maxfd': nat)
      requires Valid() && scratch.Valid() && scratch != arena && scratch.bs != arena.bs && i == FindTo(view, toaddr)
      modifies this, (set c <- ctxs :: c.writebuf), arena`pos, arena`live, arena.bs, scratch.bs
      ensures ok <==> old(RoomToSend(scratch, msg, toaddr, dial))
      ensures scratch.pos <= scratch.bs.Length && scratch.bs[..scratch.pos] == old(scratch.bs[..scratch.pos])
      ensures ok ==>
        && Valid()
        && (Outbox(view, writefds', maxfd'), code) == SendTo(Outbox(old(view), writefds, maxfd), toaddr, msg, dial)
      ensures ok ==> Added(1)
      ensures old(arena.pos) <= arena.pos
      ensures ok || scratch.pos + (if msg == [] then DEFAULT_CAP else |msg|) > scratch.bs.Length
              || Crowded(old(arena.pos), arena.bs.Length, |msg|)
    {
      assert scratch.pos <= scratch.bs.Length;
      hide Arena.Valid, Valid, Owned, Shown, Grown, Roomy, SentCount, Crowded, SendTo, FindTo, Added, Takes, RoomOnNew;
      RoomIs(i, scratch, msg, toaddr, dial);
      if i >= 0 {
        FoundOne(i, toaddr);
        ok := SendOnOld(i, scratch, msg, toaddr, dial, writefds, maxfd);
        code, writefds', maxfd' := 1, writefds, maxfd;
      } else {
        FoundNone(toaddr);
        ok, code, writefds', maxfd' := SendOnNew(scratch, msg, toaddr, dial, writefds, maxfd);
      }
    }

    /** `send_msg_to_hostaddr`: what `SendTo` says happens to the contexts, the watched
        descriptors and the result; nothing the caller has in its scratch arena changes.
        `ok` is false where the program aborts, for which one of the arenas must be crowded. */
    method SendMsgToHostaddr(scratch: Arena, msg: seq<byte>, toaddr: nat, dial: Dial, writefds: set<nat>, maxfd: nat)
      returns (ok: bool, code: int, writefds': set<nat>, maxfd': nat)
      requires Valid() && scratch.Valid() && scratch != arena && scratch.bs != arena.bs
      modifies this, (set c <- ctxs :: c.writebuf), arena`pos, arena`live, arena.bs, scratch.bs
      ensures ok <==> old(RoomToSend(scratch, msg, toaddr, dial))
      ensures scratch.pos <= scratch.bs.Length && scratch.bs[..scratch.pos] == old(scratch.bs[..scratch.pos])
      ensures ok ==>
        && Valid()
        && (Outbox(view, writefds', maxfd'), code) == SendTo(Outbox(old(view), writefds, maxfd), toaddr, msg, dial)
      ensures ok ==> Added(1)
      ensures old(arena.pos) <= arena.pos
      ensures ok || scratch.pos + (if msg == [] then DEFAULT_CAP else |msg|) > scratch.bs.Length
              || Crowded(old(arena.pos), arena.bs.Length, |msg|)
    {
      hide Arena.Valid, Valid, Owned, Shown, Crowded, SendTo, FindTo, RoomToSend;
      var i := FindByToaddr(toaddr);
      ok, code, writefds', maxfd' := SendOn(i, scratch, msg, toaddr, dial, writefds, maxfd);
    }

    lemma RoomIs(i: int, scratch: Arena, msg: seq<byte>, toaddr: nat, dial: Dial)
      requires Valid() && i == FindTo(view, toaddr)
      ensures i >= 0 ==> i < |ctxs|
      ensures RoomToSend(scratch, msg, toaddr, dial)
              <==> if i >= 0 then ctxs[i].writebuf.cap >= 1 && Takes(ctxs[i].writebuf, |msg|)
                   else RoomOnNew(scratch, msg, dial)
    {
      if i >= 0 {
        assert ctxs[i] in ctxs;
      }
    }

    lemma FoundOne(i: nat, toaddr: nat)
      requires Valid() && i == FindTo(view, toaddr)
      ensures i < |ctxs| && ctxs[i] in ctxs
    {
    }

    lemma FoundNone(toaddr: nat)
      requires FindTo(view, toaddr) < 0
      ensures FindTo(view, toaddr) == -1
    {
    }
  }

  lemma NoGrowth(s: Snap, t: Snap, data: seq<byte>)
    requires Extended(s, t, data) && s.len + |data| <= s.cap
    ensures t.off == s.off && Kept(s, t) && t.Consistent()
  {
  }
}
