/** The flat memory layer of clib.c: a bump allocator over one byte array, and
    growable buffers that are windows into it. */
module Memory {
  import opened Bytes

  const DEFAULT_CAP: nat := 1024

  /** The capacity that doubling from `cap` stops at when `need` bytes must fit. */
  function Grown(cap: nat, need: nat): (r: nat)
    requires cap >= 1
    ensures r >= need && r >= cap
    decreases need - cap
  {
    if need <= cap then cap else Grown(2 * cap, need)
  }

  /** Either nothing was doubled, or the result is less than twice what was needed. */
  lemma {:induction false} GrownShape(cap: nat, need: nat)
    requires cap >= 1
    ensures Grown(cap, need) == cap <==> need <= cap
    ensures need > cap ==> 2 * cap <= Grown(cap, need) < 2 * need
    decreases need - cap
  {
    if need > cap {
      GrownShape(2 * cap, need);
    }
  }

  lemma {:induction false} GrownMonotone(cap: nat, m: nat, n: nat)
    requires cap >= 1 && m <= n
    ensures Grown(cap, m) <= Grown(cap, n)
    decreases n - cap
  {
    if m > cap {
      GrownMonotone(2 * cap, m, n);
    }
  }

  /** Growing for `m` bytes first makes no difference to the capacity for `n`. */
  lemma {:induction false} GrownTwice(cap: nat, m: nat, n: nat)
    requires cap >= 1 && m <= n
    ensures Grown(Grown(cap, m), n) == Grown(cap, n)
    decreases m - cap
  {
    if m > cap {
      GrownTwice(2 * cap, m, n);
    }
  }

  /** `memcpy` between ranges that do not overlap. */
  method MemCopy(bs: array<byte>, dst: nat, src: nat, n: nat)
    requires dst + n <= bs.Length && src + n <= bs.Length
    requires src + n <= dst || dst + n <= src
    modifies bs
    ensures bs[dst..dst + n] == old(bs[src..src + n])
    ensures forall i :: 0 <= i < bs.Length && !(dst <= i < dst + n) ==> bs[i] == old(bs[i])
  {
    forall i | 0 <= i < n {
      bs[dst + i] := bs[src + i];
    }
  }

  /** `memcpy` from memory outside the array. */
  method MemWrite(bs: array<byte>, dst: nat, data: seq<byte>)
    requires dst + |data| <= bs.Length
    modifies bs
    ensures bs[dst..dst + |data|] == data
    ensures forall i :: 0 <= i < bs.Length && !(dst <= i < dst + |data|) ==> bs[i] == old(bs[i])
  {
    forall i | 0 <= i < |data| {
      bs[dst + i] := data[i];
    }
  }

  /** `memset` to zero. */
  method MemZero(bs: array<byte>, dst: nat, n: nat)
    requires dst + n <= bs.Length
    modifies bs
    ensures forall i :: dst <= i < dst + n ==> bs[i] == 0
    ensures forall i :: 0 <= i < bs.Length && !(dst <= i < dst + n) ==> bs[i] == old(bs[i])
  {
    forall i | 0 <= i < n {
      bs[dst + i] := 0;
    }
  }

  /** Moves `n` bytes down to a lower address, first byte first, so that the two
      ranges may overlap. */
  method MoveDown(bs: array<byte>, dst: nat, src: nat, n: nat)
    requires dst <= src && src + n <= bs.Length
    modifies bs
    ensures forall j :: dst <= j < dst + n ==> bs[j] == old(bs[j + (src - dst)])
    ensures forall i :: 0 <= i < bs.Length && !(dst <= i < dst + n) ==> bs[i] == old(bs[i])
  {
    var k := 0;
    while k < n
      invariant 0 <= k <= n
      invariant forall j :: dst <= j < dst + k ==> bs[j] == old(bs[j + (src - dst)])
      invariant forall i :: 0 <= i < bs.Length && !(dst <= i < dst + k) ==> bs[i] == old(bs[i])
    {
      bs[dst + k] := bs[src + k];
      k := k + 1;
    }
  }

  datatype Snap = Snap(bytes: seq<byte>, pos: nat, off: nat, len: nat, cap: nat) {
    ghost predicate Consistent() {
      1 <= cap && len <= cap && off + cap <= pos <= |bytes|
    }

    ghost function Contents(): seq<byte>
      requires Consistent()
    {
      bytes[off..off + len]
    }
  }

  /** Everything allocated outside the buffer's range is the same. */
  ghost predicate Kept(s: Snap, t: Snap) {
    && |t.bytes| == |s.bytes| && s.pos <= t.pos
    && (forall i :: 0 <= i < s.pos && i < |s.bytes| && !(s.off <= i < s.off + s.cap) ==> t.bytes[i] == s.bytes[i])
  }

  /** Changes to the buffer's own range after an extension. */
  lemma KeptOwn(s: Snap, t: Snap, u: Snap, d: seq<byte>)
    requires Extended(s, t, d) && Kept(t, u)
    ensures Kept(s, u)
  {
    hide Snap.Contents, Grown;
  }

  lemma KeptBelow(s: Snap, t: Snap, n: nat)
    requires Kept(s, t) && n <= s.off && n <= s.pos <= |s.bytes|
    ensures t.bytes[..n] == s.bytes[..n]
  {
  }

  lemma KeptInPlace(s: Snap, t: Snap, u: Snap)
    requires Kept(s, t) && Kept(t, u) && t.off == s.off && t.cap == s.cap && t.pos == s.pos
    ensures Kept(s, u)
  {
  }

  lemma KeptPosition(s: Snap, t: Snap)
    requires Kept(s, t)
    ensures s.pos <= t.pos
  {
  }

  lemma KeptSelf(s: Snap)
    ensures Kept(s, s)
  {
  }

  /** The buffer may have moved to a range of at least twice the capacity. */
  ghost predicate Regrown(s: Snap, t: Snap) {
    && s.Consistent() && t.Consistent() && Kept(s, t)
    && t.len == s.len && t.Contents() == s.Contents()
    && (|| (t.off == s.off && t.cap == s.cap && t.pos == s.pos)
        || (t.off == s.pos && t.cap >= 2 * s.cap && t.pos == s.pos + t.cap))
  }

  /** `data` was added in place. */
  ghost predicate Written(s: Snap, t: Snap, data: seq<byte>) {
    && s.Consistent() && t.Consistent() && Kept(s, t)
    && t.len == s.len + |data| && t.Contents() == s.Contents() + data
    && t.off == s.off && t.cap == s.cap && t.pos == s.pos
  }

  /** From `s` to `t` the buffer had `data` added at the end, in one append or many:
      nothing else that was allocated changed, and the ranges reserved on the way
      took at most twice what the capacity grew by. */
  ghost predicate Extended(s: Snap, t: Snap, data: seq<byte>) {
    && s.Consistent() && t.Consistent() && Kept(s, t)
    && t.len == s.len + |data| && t.Contents() == s.Contents() + data
    && t.cap == Grown(s.cap, t.len)
    && t.pos - s.pos <= 2 * (t.cap - s.cap)
    && ((t.off == s.off && t.cap == s.cap) || t.off >= s.pos)
  }

  lemma RegrownThenWritten(s: Snap, g: Snap, t: Snap, data: seq<byte>)
    requires Regrown(s, g) && Written(g, t, data) && g.cap == Grown(s.cap, g.len + |data|)
    ensures Extended(s, t, data)
  {
    hide Snap.Contents, Grown;
  }

  /** Copying the reserved bytes to a fresh range keeps the contents. */
  lemma Relocated(s: Snap, t: Snap)
    requires s.Consistent() && t.Consistent() && |t.bytes| == |s.bytes|
    requires t.off == s.pos && t.len == s.len && t.cap >= 2 * s.cap && t.pos == s.pos + t.cap
    requires t.bytes[s.pos..s.pos + s.cap] == s.bytes[s.off..s.off + s.cap]
    requires forall i :: 0 <= i < s.pos ==> t.bytes[i] == s.bytes[i]
    ensures Regrown(s, t)
  {
    SliceOfSlice(t.bytes, s.pos, s.pos + s.cap, s.len);
    SliceOfSlice(s.bytes, s.off, s.off + s.cap, s.len);
    assert t.Contents() == s.Contents();
    hide Snap.Contents;
  }

  lemma ExtendedMeans(s: Snap, t: Snap, data: seq<byte>)
    requires Extended(s, t, data)
    ensures s.Consistent() && t.Consistent() && Kept(s, t)
    ensures t.Contents() == s.Contents() + data && t.cap == Grown(s.cap, s.len + |data|)
  {
    hide Snap.Contents, Grown;
  }

  lemma ExtendedSize(s: Snap, t: Snap, data: seq<byte>)
    requires Extended(s, t, data)
    ensures t.cap == Grown(s.cap, s.len + |data|) && t.pos - s.pos <= 2 * (t.cap - s.cap)
  {
    hide Snap.Contents, Grown;
  }

  lemma ExtendedTwice(s: Snap, t: Snap, u: Snap, d: seq<byte>, e: seq<byte>)
    requires Extended(s, t, d) && Extended(t, u, e)
    ensures Extended(s, u, d + e)
  {
    hide Snap.Contents, Grown;
    GrownTwice(s.cap, t.len, u.len);
    assert (s.Contents() + d) + e == s.Contents() + (d + e);
  }

  lemma ExtendedByNothing(s: Snap)
    requires s.Consistent()
    ensures Extended(s, s, [])
  {
    assert s.Contents() + [] == s.Contents();
  }

  /** Space for `n` more bytes however they are appended. */
  ghost predicate Roomy(s: Snap, n: nat) {
    s.cap >= 1 && s.pos + 2 * (Grown(s.cap, s.len + n) - s.cap) <= |s.bytes|
  }

  lemma NotRoomy(s: Snap, n: nat)
    requires s.cap >= 1 && s.len + n > s.cap && s.pos + Grown(s.cap, s.len + n) > |s.bytes|
    ensures !Roomy(s, n)
  {
    GrownShape(s.cap, s.len + n);
  }

  lemma RoomyAfter(s: Snap, t: Snap, d: seq<byte>, m: nat, n: nat)
    requires Extended(s, t, d) && Roomy(s, n) && |d| + m <= n
    ensures Roomy(t, m)
  {
    hide Snap.Contents, Grown;
    GrownRoom(s.cap, t.len, t.len + m, s.len + n);
  }

  /** What is still to be reserved for `m` bytes after growing for `l`, and what was
      reserved for `l`, is not more than the allowance for `n`. */
  lemma GrownRoom(cap: nat, l: nat, m: nat, n: nat)
    requires cap >= 1 && l <= m <= n
    ensures 2 * (Grown(Grown(cap, l), m) - Grown(cap, l)) + 2 * (Grown(cap, l) - cap) <= 2 * (Grown(cap, n) - cap)
  {
    GrownMonotone(cap, m, n);
    GrownTwice(cap, l, m);
  }

  /** Two buffers whose reserved ranges do not overlap. */
  ghost predicate Apart(a: Buffer, b: Buffer)
    reads a, b
  {
    a.off + a.cap <= b.off || b.off + b.cap <= a.off
  }

  /** A bump allocator. A copy made by passing the struct by value shares the bytes
      and has its own position; `base` is the position the copy started from. */
  class Arena {
    const bs: array<byte>
    const base: nat
    var pos: nat
    /** The buffers allocated here and still in use. */
    ghost var live: set<Buffer>

    ghost predicate Valid()
      reads this, live
    {
      && base <= pos <= bs.Length
      && (forall b <- live :: b.arena == this && 1 <= b.cap && b.len <= b.cap)
      && (forall b <- live :: base <= b.off && b.off + b.cap <= pos)
      && (forall a, b | a in live && b in live && a != b :: Apart(a, b))
    }

    constructor New(cap: nat)
      ensures Valid() && fresh(bs) && live == {} && base == pos == 0
      ensures bs.Length == if cap == 0 then 1024 else cap
      ensures forall i :: 0 <= i < bs.Length ==> bs[i] == 0
    {
      bs := new byte[if cap == 0 then DEFAULT_CAP else cap](_ => 0);
      base := 0;
      pos := 0;
      live := {};
    }

    /** Passing the struct by value. */
    constructor Copy(a: Arena)
      requires a.Valid()
      ensures Valid() && bs == a.bs && live == {}
      ensures base == pos == a.pos
    {
      bs := a.bs;
      base := a.pos;
      pos := a.pos;
      live := {};
    }

    lemma Within()
      requires Valid()
      ensures pos <= bs.Length
    {
    }

    /** Reserves `size` bytes; `ok` is false where the program aborts. */
    method Alloc(size: nat) returns (ok: bool, off: nat)
      requires Valid()
      modifies this`pos
      ensures Valid()
      ensures ok <==> old(pos) + size <= bs.Length
      ensures pos == if ok then old(pos) + size else old(pos)
      ensures off == old(pos)
    {
      off := pos;
      ok := pos + size <= bs.Length;
      if ok {
        pos := pos + size;
      }
    }

    /** `BufferNew`; null where the program aborts. */
    method NewBuffer(cap: nat) returns (b: Buffer?)
      requires Valid()
      modifies this`pos, this`live
      ensures Valid()
      ensures b != null <==> old(pos) + (if cap == 0 then DEFAULT_CAP else cap) <= bs.Length
      ensures b == null ==> pos == old(pos) && live == old(live)
      ensures b != null ==> fresh(b) && live == old(live) + {b} && b.arena == this && b.InBounds()
      ensures b != null ==> b.Contents() == [] && b.cap == if cap == 0 then DEFAULT_CAP else cap
      ensures b != null ==> b.off == old(pos) && pos == old(pos) + b.cap
    {
      var size := if cap == 0 then DEFAULT_CAP else cap;
      var ok, off := Alloc(size);
      if !ok {
        return null;
      }
      b := new Buffer(this, off, size);
      live := live + {b};
    }

    /** Forgets everything; the bytes of a live buffer would be handed out again. */
    method Reset()
      requires Valid() && live == {} && base == 0
      modifies this`pos
      ensures Valid() && pos == 0
    {
      pos := 0;
    }

    /** The owner of `b` drops it. */
    ghost method Release(b: Buffer)
      requires Valid()
      modifies this`live
      ensures Valid() && live == old(live) - {b}
    {
      live := live - {b};
    }
  }

  /** A growable window of `cap` reserved bytes at `off`, of which `len` are in use. */
  class Buffer {
    const arena: Arena
    var off: nat
    var len: nat
    var cap: nat

    constructor (arena: Arena, off: nat, cap: nat)
      ensures this.arena == arena && this.off == off && this.cap == cap && len == 0
    {
      this.arena := arena;
      this.off := off;
      this.cap := cap;
      len := 0;
    }

    predicate InBounds()
      reads this
    {
      off + len <= arena.bs.Length
    }

    function Contents(): (s: seq<byte>)
      requires InBounds()
      reads this, arena.bs
      ensures |s| == len
    {
      arena.bs[off..off + len]
    }

    /** The buffer is usable: its arena is consistent and still holds it. */
    ghost predicate Live()
      reads this, arena, arena.live
    {
      arena.Valid() && this in arena.live
    }

    /** The arena's bytes and this buffer's place in them, as values. */
    ghost function Now(): Snap
      reads this, arena, arena.bs
    {
      Snap(arena.bs[..], arena.pos, off, len, cap)
    }

    lemma NowContents()
      requires Live()
      ensures InBounds() && Now().Consistent() && Now().Contents() == Contents()
    {
    }

    /** The contents of every other live buffer survive. */
    twostate lemma KeepOthers()
      requires old(Live()) && Live() && arena.live == old(arena.live)
      requires forall b :: b in arena.live && b != this ==> unchanged(b)
      requires Kept(old(Now()), Now())
      ensures forall b :: b in arena.live && b != this ==> b.InBounds() && b.Contents() == old(b.Contents())
    {
      forall b | b in arena.live && b != this
        ensures b.Contents() == old(b.Contents())
      {
        assert old(Apart(this, b));
        forall i | b.off <= i < b.off + b.len
          ensures arena.bs[i] == old(arena.bs[i])
        {
          assert Now().bytes[i] == old(Now()).bytes[i];
        }
      }
    }

    /** Clears the contents. */
    method Clear()
      requires Live()
      modifies this`len, arena.bs
      ensures Live() && InBounds() && Contents() == []
      ensures Kept(old(Now()), Now()) && Now().(bytes := []) == old(Now()).(bytes := [], len := 0)
      ensures forall b :: b in arena.live && b != this ==> b.InBounds() && b.Contents() == old(b.Contents())
    {
      MemZero(arena.bs, off, len);
      len := 0;
      KeepOthers();
    }

    /** Moves the buffer to a larger range at the end of the arena; `ok` is false
        where the program aborts, before anything has changed. */
    method Grow(newcap: nat) returns (ok: bool)
      requires Live() && newcap >= 2 * cap
      modifies this`off, this`cap, arena`pos, arena.bs
      ensures Live()
      ensures ok <==> old(arena.pos) + newcap <= arena.bs.Length
      ensures ok ==> Regrown(old(Now()), Now()) && cap == newcap
      ensures !ok ==> Now() == old(Now())
    {
      hide Regrown;
      var newoff;
      ok, newoff := arena.Alloc(newcap);
      if !ok {
        return;
      }
      MemCopy(arena.bs, newoff, off, cap);
      ghost var s, bytes := old(Now()), arena.bs[..];
      assert bytes[newoff..newoff + cap] == s.bytes[off..off + cap];
      assert forall i :: 0 <= i < newoff ==> bytes[i] == s.bytes[i];
      MoveTo(newoff, newcap);
      assert Now() == Snap(bytes, newoff + newcap, newoff, s.len, newcap);
      Relocated(s, Now());
    }

    /** Takes the freshly reserved range at the end of the arena. */
    method MoveTo(newoff: nat, newcap: nat)
      requires Live() && len <= newcap && newcap >= 1 && arena.pos == newoff + newcap && arena.base <= newoff
      requires forall b <- arena.live :: b.off + b.cap <= newoff
      modifies this`off, this`cap
      ensures Live() && off == newoff && cap == newcap
    {
      off := newoff;
      cap := newcap;
    }

    /** Doubles the capacity until `n` more bytes fit. */
    method Fit(n: nat) returns (ok: bool)
      requires Live()
      modifies this`off, this`cap, arena`pos, arena.bs
      ensures Live()
      ensures ok <==> old(len) + n <= old(cap) || old(arena.pos) + Grown(old(cap), old(len) + n) <= arena.bs.Length
      ensures ok ==> Regrown(old(Now()), Now()) && cap == Grown(old(cap), old(len) + n)
      ensures !ok ==> Now() == old(Now())
    {
      var newcap := cap;
      while n > newcap - len
        invariant newcap == cap || newcap >= 2 * cap
        invariant Grown(newcap, len + n) == Grown(cap, len + n)
        decreases n - (newcap - len)
      {
        newcap := newcap * 2;
      }
      ok := true;
      if newcap > cap {
        ok := Grow(newcap);
      }
    }

    /** Adds `data` where it fits without moving. */
    method Write(data: seq<byte>)
      requires Live() && len + |data| <= cap
      modifies this`len, arena.bs
      ensures Live() && Written(old(Now()), Now(), data)
    {
      MemWrite(arena.bs, off + len, data);
      WrittenContents(data);
      len := len + |data|;
    }

    twostate lemma WrittenContents(data: seq<byte>)
      requires len == old(len) && off == old(off) && off + len + |data| <= arena.bs.Length
      requires arena.bs[off + len..off + len + |data|] == data
      requires forall i :: off <= i < off + len ==> arena.bs[i] == old(arena.bs[i])
      ensures arena.bs[..][off..off + (len + |data|)] == old(arena.bs[..])[off..off + len] + data
    {
      assert arena.bs[..][off..off + len] == old(arena.bs[..])[off..off + len];
      assert arena.bs[..][off + len..off + len + |data|] == data;
    }

    /** Grows as needed, then writes. */
    method Extend(data: seq<byte>) returns (ok: bool)
      requires Live()
      modifies this, arena`pos, arena.bs
      ensures Live()
      ensures ok <==>
        || old(len) + |data| <= old(cap)
        || old(arena.pos) + Grown(old(cap), old(len) + |data|) <= arena.bs.Length
      ensures ok ==> Extended(old(Now()), Now(), data)
      ensures ok ==> arena.pos == old(arena.pos) + if cap == old(cap) then 0 else cap
      ensures !ok ==> Now() == old(Now())
    {
      hide Live, Regrown, Written, Extended, Grown;
      ok := Fit(|data|);
      if ok {
        ghost var g := Now();
        Write(data);
        RegrownThenWritten(old(Now()), g, Now(), data);
      }
    }

    /** Adds `data` at the end; `ok` is false where the program aborts. */
    method Append(data: seq<byte>) returns (ok: bool)
      requires Live()
      modifies this, arena`pos, arena.bs
      ensures Live() && InBounds()
      ensures ok <==>
        || old(len) + |data| <= old(cap)
        || old(arena.pos) + Grown(old(cap), old(len) + |data|) <= arena.bs.Length
      ensures ok ==> Contents() == old(Contents()) + data && cap == Grown(old(cap), old(len) + |data|)
      ensures ok ==> arena.pos == old(arena.pos) + if cap == old(cap) then 0 else cap
      ensures ok ==> Extended(old(Now()), Now(), data)
      ensures !ok ==> !Roomy(old(Now()), |data|) && Now() == old(Now()) && Contents() == old(Contents())
      ensures forall b :: b in arena.live && b != this ==> b.InBounds() && b.Contents() == old(b.Contents())
    {
      hide Live, Extended, Grown, Kept, Roomy;
      NowContents();
      ok := Extend(data);
      NowContents();
      if ok {
        ExtendedMeans(old(Now()), Now(), data);
      } else {
        NotRoomy(Now(), |data|);
        KeptSelf(Now());
      }
      KeepOthers();
    }

    /** Overwrites one byte of the contents through a pointer. */
    method Poke(k: nat, b: byte)
      requires Live() && k < len
      modifies arena.bs
      ensures Live() && InBounds() && Kept(old(Now()), Now())
      ensures Contents() == old(Contents())[k := b]
    {
      arena.bs[off + k] := b;
    }

    /** Moves what follows the first `m` bytes to the front. */
    method Slide(m: nat)
      requires Live() && m <= len
      modifies this`len, arena.bs
      ensures Live() && InBounds() && Kept(old(Now()), Now())
      ensures Contents() == old(Contents())[m..]
    {
      ghost var s := arena.bs[..];
      MoveDown(arena.bs, off, off + m, len - m);
      MovedDown(s, arena.bs[..], off, m, len);
      len := len - m;
    }

    /** Clears the reserved bytes behind the contents. */
    method ZeroTail()
      requires Live()
      modifies arena.bs
      ensures Live() && InBounds() && Kept(old(Now()), Now())
      ensures Contents() == old(Contents())
      ensures forall i :: off + len <= i < off + cap ==> arena.bs[i] == 0
    {
      MemZero(arena.bs, off + len, cap - len);
    }

    /** Drops the first `n` bytes in place and clears what is behind the rest. */
    method Shift(n: nat)
      requires Live()
      modifies this`len, arena.bs
      ensures Live() && InBounds() && Kept(old(Now()), Now())
      ensures Contents() == old(Contents())[Min(n, old(len))..]
      ensures forall i :: off + len <= i < off + cap ==> arena.bs[i] == 0
      ensures forall b :: b in arena.live && b != this ==> b.InBounds() && b.Contents() == old(b.Contents())
    {
      hide Live, Kept;
      ghost var s := Now();
      Slide(if n > len then len else n);
      ghost var t := Now();
      ZeroTail();
      KeptInPlace(s, t, Now());
      KeepOthers();
    }
  }

  /** One more append to a buffer that was extended by `done` since `s`. It fails only
      if `s` had no room for `total` bytes, of which this append is a part. */
  method AppendMore(buf: Buffer, ghost s: Snap, ghost done: seq<byte>, data: seq<byte>, ghost total: nat)
    returns (ok: bool)
    requires buf.Live() && Extended(s, buf.Now(), done)
    requires |done| + |data| <= total
    modifies buf, buf.arena`pos, buf.arena.bs
    ensures buf.Live()
    ensures ok ==> Extended(s, buf.Now(), done + data)
    ensures !ok ==> !Roomy(s, total) && Kept(s, buf.Now())
  {
    hide Buffer.Live, Extended, Roomy, Kept;
    ghost var t := buf.Now();
    ok := buf.Append(data);
    if ok {
      ExtendedTwice(s, t, buf.Now(), done, data);
    } else {
      if Roomy(s, total) {
        RoomyAfter(s, t, done, |data|, total);
      }
      ExtendedMeans(s, t, done);
    }
  }
}
