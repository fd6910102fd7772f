/** How much arena space one growable buffer takes over any run of appends and shifts. */
module Growth {
  import opened Bytes
  import opened Memory

  datatype Op = Append(data: seq<byte>) | Shift(n: nat)

  /** `taken` counts the arena bytes ever handed to the buffer, `peak` the longest contents. */
  datatype Size = Size(len: nat, cap: nat, taken: nat, peak: nat)

  function AppendSize(s: Size, n: nat): (r: Size)
    requires s.cap >= 1
    ensures r.cap >= s.cap
  {
    var cap := Grown(s.cap, s.len + n);
    Size(s.len + n, cap, s.taken + (if cap == s.cap then 0 else cap),
         if s.len + n > s.peak then s.len + n else s.peak)
  }

  function ShiftSize(s: Size, n: nat): Size {
    s.(len := s.len - Min(n, s.len))
  }

  function Run(cap: nat, ops: seq<Op>): (s: Size)
    requires cap >= 1
    ensures s.cap >= cap
  {
    if ops == [] then Size(0, cap, cap, 0)
    else
      var s := Run(cap, ops[..|ops| - 1]);
      match ops[|ops| - 1]
      case Append(data) => AppendSize(s, |data|)
      case Shift(n) => ShiftSize(s, n)
  }

  function Pow2(k: nat): (p: nat)
    ensures p >= 1
  {
    if k == 0 then 1 else 2 * Pow2(k - 1)
  }

  /** `k` doublings take `cap` to `Grown(cap, need)`. */
  lemma {:induction false} GrownByDoubling(cap: nat, need: nat) returns (k: nat)
    requires cap >= 1
    ensures Grown(cap, need) == cap * Pow2(k)
    decreases need - cap
  {
    if need <= cap {
      k := 0;
    } else {
      var j := GrownByDoubling(2 * cap, need);
      k := j + 1;
      assert 2 * cap * Pow2(j) == cap * (2 * Pow2(j));
    }
  }

  lemma {:induction false} Pow2Sum(i: nat, j: nat)
    ensures Pow2(i) * Pow2(j) == Pow2(i + j)
  {
    if i == 0 {
    } else {
      Pow2Sum(i - 1, j);
      assert 2 * Pow2(i - 1) * Pow2(j) == 2 * (Pow2(i - 1) * Pow2(j));
    }
  }

  ghost predicate Bounded(cap: nat, s: Size, k: nat) {
    && s.len <= s.peak && s.len <= s.cap
    && s.cap == cap * Pow2(k)
    && (s.cap == cap || s.cap < 2 * s.peak)
    && s.taken <= 2 * s.cap - cap
  }

  lemma MulAssoc(a: int, b: int, c: int)
    ensures a * b * c == a * (b * c)
  {
  }

  lemma DoubledTwice(cap: nat, i: nat, j: nat)
    ensures (cap * Pow2(i)) * Pow2(j) == cap * Pow2(i + j)
  {
    MulAssoc(cap, Pow2(i), Pow2(j));
    Pow2Sum(i, j);
  }

  lemma AppendBounded(cap: nat, s: Size, i: nat, n: nat) returns (k: nat)
    requires s.cap >= 1 && Bounded(cap, s, i)
    ensures Bounded(cap, AppendSize(s, n), k)
  {
    var j := GrownByDoubling(s.cap, s.len + n);
    k := i + j;
    DoubledTwice(cap, i, j);
    GrownShape(s.cap, s.len + n);
  }

  /** The capacity is the initial one doubled some number of times; it is the
      initial one or below twice the longest contents; and all the ranges the
      buffer ever had add up to at most 2 * cap - initial. */
  lemma {:induction false} GrowthBound(cap: nat, ops: seq<Op>) returns (k: nat)
    requires cap >= 1
    ensures Bounded(cap, Run(cap, ops), k)
  {
    if ops == [] {
      k := 0;
    } else {
      k := GrowthBound(cap, ops[..|ops| - 1]);
      match ops[|ops| - 1]
      case Append(data) => k := AppendBounded(cap, Run(cap, ops[..|ops| - 1]), k, |data|);
      case Shift(n) =>
    }
  }

  /** What a buffer holds after the operations. */
  function Left(ops: seq<Op>): seq<byte> {
    if ops == [] then []
    else
      var s := Left(ops[..|ops| - 1]);
      match ops[|ops| - 1]
      case Append(data) => s + data
      case Shift(n) => s[Min(n, |s|)..]
  }

  lemma {:induction false} TakenGrows(cap: nat, ops: seq<Op>, k: nat)
    requires cap >= 1 && k <= |ops|
    ensures Run(cap, ops[..k]).taken <= Run(cap, ops).taken
    decreases |ops|
  {
    hide Grown;
    if k == |ops| {
      assert ops[..k] == ops;
    } else {
      TakenGrows(cap, ops[..|ops| - 1], k);
      assert ops[..|ops| - 1][..k] == ops[..k];
    }
  }

  /** The buffer has the size, the contents and the arena space of a run from position `start`. */
  ghost predicate Follows(b: Buffer, start: nat, cap: nat, ops: seq<Op>)
    requires cap >= 1
    reads b, b.arena, b.arena.bs
  {
    var s := Run(cap, ops);
    && b.len == s.len && b.cap == s.cap && b.arena.pos == start + s.taken
    && b.InBounds() && b.Contents() == Left(ops)
  }

  /** One more operation. */
  method DoNext(b: Buffer, ghost start: nat, ghost cap: nat, ops: seq<Op>, i: nat) returns (ok: bool)
    requires cap >= 1 && b.Live() && i < |ops| && Follows(b, start, cap, ops[..i])
    modifies b, b.arena`pos, b.arena.bs
    ensures b.Live()
    ensures ok <==> start + Run(cap, ops[..i + 1]).taken <= b.arena.bs.Length
    ensures ok ==> Follows(b, start, cap, ops[..i + 1])
    ensures forall c :: c in b.arena.live && c != b ==> c.InBounds() && c.Contents() == old(c.Contents())
  {
    hide Buffer.Live, Grown, Extended, Kept, Roomy;
    assert ops[..i + 1][..i] == ops[..i] && ops[..i + 1][i] == ops[i];
    b.NowContents();
    InArena(b);
    match ops[i] {
      case Append(data) =>
        GrownShape(b.cap, b.len + |data|);
        ok := b.Append(data);
      case Shift(n) =>
        b.Shift(n);
        ok := true;
    }
  }

  lemma InArena(b: Buffer)
    requires b.Live()
    ensures b.arena.pos <= b.arena.bs.Length && b.cap >= 1 && b.len <= b.cap
  {
  }

  /** A new buffer of `cap` bytes, which the operations are done to in order, has the size,
      the contents and the arena space of `Run`. It is null where the program aborts, which
      is exactly where the space does not suffice. */
  method RunOn(arena: Arena, cap: nat, ops: seq<Op>) returns (b: Buffer?)
    requires arena.Valid() && cap >= 1
    modifies arena`pos, arena`live, arena.bs
    ensures b != null <==> old(arena.pos) + Run(cap, ops).taken <= arena.bs.Length
    ensures b != null ==> fresh(b) && b.arena == arena && b.Live() && Follows(b, old(arena.pos), cap, ops)
    ensures forall c :: c in old(arena.live) && old(c.InBounds()) ==> c.InBounds() && c.Contents() == old(c.Contents())
  {
    hide Follows, Run, Arena.Valid;
    ghost var start, live := arena.pos, arena.live;
    RunStart(cap, ops);
    b := arena.NewBuffer(cap);
    if b == null {
      return;
    }
    FreshFollows(b, start, cap);
    var i := 0;
    assert ops[..0] == [];
    while i < |ops|
      invariant 0 <= i <= |ops| && b != null && fresh(b) && b.arena == arena && arena.live == live + {b}
      invariant b.Live() && Follows(b, start, cap, ops[..i])
      invariant forall c :: c in live && old(c.InBounds()) ==> c.InBounds() && c.Contents() == old(c.Contents())
    {
      TakenGrows(cap, ops, i + 1);
      var ok := DoNext(b, start, cap, ops, i);
      if !ok {
        b := null;
        return;
      }
      i := i + 1;
    }
    assert ops[..i] == ops;
    Fits(b, start, cap, ops);
  }

  lemma RunStart(cap: nat, ops: seq<Op>)
    requires cap >= 1
    ensures Run(cap, []) == Size(0, cap, cap, 0) && Run(cap, ops).taken >= cap
  {
    TakenGrows(cap, ops, 0);
    assert ops[..0] == [];
  }

  lemma FreshFollows(b: Buffer, start: nat, cap: nat)
    requires cap >= 1 && b.InBounds() && b.Contents() == [] && b.cap == cap && b.arena.pos == start + cap
    ensures Follows(b, start, cap, [])
  {
  }

  lemma Fits(b: Buffer, start: nat, cap: nat, ops: seq<Op>)
    requires cap >= 1 && b.Live() && Follows(b, start, cap, ops)
    ensures start + Run(cap, ops).taken <= b.arena.bs.Length
  {
  }
}
