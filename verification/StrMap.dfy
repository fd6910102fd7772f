/** The string map of clib.c: keys and values alternate in one array of slots. */
module StrMap {
  import opened Memory

  datatype Slot = Empty | Key(k: string) | Val(v: nat)

  type Pair = (string, nat)

  predicate UniqueKeys(pairs: seq<Pair>) {
    forall p, q :: 0 <= p < q < |pairs| ==> pairs[p].0 != pairs[q].0
  }

  function Find(pairs: seq<Pair>, k: string): (r: int)
    ensures r == -1 || (0 <= r < |pairs| && pairs[r].0 == k)
    ensures r == -1 ==> forall p :: 0 <= p < |pairs| ==> pairs[p].0 != k
  {
    if pairs == [] then -1
    else if pairs[|pairs| - 1].0 == k then |pairs| - 1
    else Find(pairs[..|pairs| - 1], k)
  }

  function AsMap(pairs: seq<Pair>): (m: map<string, nat>)
    ensures forall k :: k in m <==> Find(pairs, k) >= 0
  {
    map p | p in pairs :: p.0 := pairs[Find(pairs, p.0)].1
  }

  /** The pairs after `MapRemove`: the last one takes the place of the removed one. */
  function Removed(pairs: seq<Pair>, k: string): seq<Pair> {
    var p := Find(pairs, k);
    if p == -1 then pairs else pairs[p := pairs[|pairs| - 1]][..|pairs| - 1]
  }

  function WithSet(pairs: seq<Pair>, k: string, v: nat): seq<Pair> {
    var p := Find(pairs, k);
    if p == -1 then pairs + [(k, v)] else pairs[p := (k, v)]
  }

  lemma FindUnique(pairs: seq<Pair>, p: nat)
    requires UniqueKeys(pairs) && p < |pairs|
    ensures Find(pairs, pairs[p].0) == p
  {
  }

  /** A map that has every pair, and nothing else, is the map of the pairs. */
  lemma AsMapIs(pairs: seq<Pair>, m: map<string, nat>)
    requires UniqueKeys(pairs)
    requires forall p :: 0 <= p < |pairs| ==> pairs[p].0 in m && m[pairs[p].0] == pairs[p].1
    requires forall k :: k in m ==> Find(pairs, k) >= 0
    ensures AsMap(pairs) == m
  {
    hide AsMap, Find;
    var n := AsMap(pairs);
    forall k | k in n
      ensures k in m
    {
      assert pairs[Find(pairs, k)].0 == k;
    }
    forall k | k in m
      ensures k in n && n[k] == m[k]
    {
      AsMapAt(pairs, Find(pairs, k));
    }
    assert n.Keys == m.Keys;
  }

  lemma AsMapAt(pairs: seq<Pair>, p: nat)
    requires UniqueKeys(pairs) && p < |pairs|
    ensures pairs[p].0 in AsMap(pairs) && AsMap(pairs)[pairs[p].0] == pairs[p].1
  {
    FindUnique(pairs, p);
    assert pairs[p] in pairs;
  }

  lemma SetInMap(pairs: seq<Pair>, k: string, v: nat)
    requires UniqueKeys(pairs)
    ensures UniqueKeys(WithSet(pairs, k, v)) && AsMap(WithSet(pairs, k, v)) == AsMap(pairs)[k := v]
  {
    hide AsMap, Find;
    var r, i := WithSet(pairs, k, v), Find(pairs, k);
    var at := if i == -1 then |pairs| else i;
    forall p | 0 <= p < |r| && p != at
      ensures r[p] == pairs[p] && r[p].0 in AsMap(pairs) && AsMap(pairs)[r[p].0] == r[p].1
    {
      AsMapAt(pairs, p);
    }
    forall x | x in AsMap(pairs)[k := v]
      ensures Find(r, x) >= 0
    {
      if x == k {
        assert r[at].0 == k;
      } else {
        assert r[Find(pairs, x)].0 == x;
      }
    }
    AsMapIs(r, AsMap(pairs)[k := v]);
  }

  lemma RemoveInMap(pairs: seq<Pair>, k: string)
    requires UniqueKeys(pairs)
    ensures UniqueKeys(Removed(pairs, k)) && AsMap(Removed(pairs, k)) == AsMap(pairs) - {k}
  {
    hide AsMap, Find;
    var r, i, last := Removed(pairs, k), Find(pairs, k), |pairs| - 1;
    if i == -1 {
      assert k !in AsMap(pairs);
    } else {
      forall p | 0 <= p < |r|
        ensures r[p] == pairs[if p == i then last else p] && r[p].0 in AsMap(pairs) && AsMap(pairs)[r[p].0] == r[p].1
                && r[p].0 != k
      {
        AsMapAt(pairs, if p == i then last else p);
      }
      forall x | x in AsMap(pairs) - {k}
        ensures Find(r, x) >= 0
      {
        var q := Find(pairs, x);
        assert r[if q == last then i else q].0 == x;
      }
      AsMapIs(r, AsMap(pairs) - {k});
    }
  }

  lemma WithSetAt(pairs: seq<Pair>, k: string, v: nat)
    ensures var p, r := Find(pairs, k), WithSet(pairs, k, v);
            if p == -1 then r == pairs + [(k, v)]
            else
              && |r| == |pairs| && pairs[p].0 == k
              && forall q :: 0 <= q < |r| ==> r[q] == if q == p then (k, v) else pairs[q]
  {
  }

  /** The slots of `MapNew`, two for each pair, counted in 16 bits. */
  function Slots(cap: nat): (n: nat)
    ensures n % 2 == 0 && n < 65536
  {
    2 * (if cap == 0 then 32 else cap) % 65536
  }

  /** The items are held as values; the arena is where the room for them comes from. */
  class Map {
    const arena: Arena
    var items: array<Slot>
    var len: nat
    var cap: nat
    ghost var pairs: seq<Pair>

    ghost predicate Valid()
      reads this, items
    {
      && cap == items.Length && cap % 2 == 0 && len <= cap < 65536
      && len == 2 * |pairs| && UniqueKeys(pairs)
      && (forall p :: 0 <= p < |pairs| ==> items[2 * p] == Key(pairs[p].0) && items[2 * p + 1] == Val(pairs[p].1))
    }

    constructor (arena: Arena, cap: nat)
      requires cap % 2 == 0 && cap < 65536
      ensures Valid() && fresh(items) && pairs == [] && this.cap == cap && this.arena == arena
    {
      this.arena := arena;
      items := new Slot[cap](_ => Empty);
      len, this.cap, pairs := 0, cap, [];
    }

    /** `MapNew`; null where the program aborts. */
    static method New(arena: Arena, cap: nat) returns (m: Map?)
      requires arena.Valid() && cap < 65536
      modifies arena`pos
      ensures arena.Valid()
      ensures m != null <==> old(arena.pos) + 8 * Slots(cap) <= arena.bs.Length
      ensures m != null ==> arena.pos == old(arena.pos) + 8 * Slots(cap)
      ensures m != null ==> fresh(m) && m.Valid() && fresh(m.items) && m.arena == arena
      ensures m != null ==> m.pairs == [] && m.cap == Slots(cap)
      ensures m != null ==> m.cap == if cap == 0 then 64 else 2 * cap % 65536
    {
      var ok, off := arena.Alloc(8 * Slots(cap));
      if !ok {
        return null;
      }
      m := new Map(arena, Slots(cap));
    }

    /** `MapClear`. */
    method Clear()
      requires Valid()
      modifies this, items
      ensures Valid() && items == old(items) && AsMap(pairs) == map[]
    {
      forall i | 0 <= i < len {
        items[i] := Empty;
      }
      len, pairs := 0, [];
    }

    /** The slot of a key, or -1. */
    method Lookup(k: string) returns (i: int)
      requires Valid()
      ensures i == -1 <==> Find(pairs, k) == -1
      ensures i != -1 ==> 0 <= i < len && i == 2 * Find(pairs, k)
    {
      i := 0;
      ghost var p := 0;
      while i < len
        invariant 0 <= p <= |pairs| && i == 2 * p
        invariant forall q :: 0 <= q < p ==> pairs[q].0 != k
      {
        if items[i] == Key(k) {
          FindUnique(pairs, p);
          return;
        }
        i, p := i + 2, p + 1;
      }
      i := -1;
    }

    /** `MapGet`; 0 is the null pointer. */
    method Get(k: string) returns (v: nat)
      requires Valid()
      ensures v == if k in AsMap(pairs) then AsMap(pairs)[k] else 0
    {
      var i := Lookup(k);
      if i == -1 {
        return 0;
      }
      AsMapAt(pairs, Find(pairs, k));
      v := items[i + 1].v;
    }

    /** What `MapSet` takes from the arena for a new key: the doubled slots where all are
        taken, and a copy of the key with its terminator. */
    function Space(k: string): nat
      reads this
    {
      (if len == cap then 16 * cap else 0) + |k| + 1
    }

    /** `MapSet`. `ok` is false where the program aborts: the key is new, and the arena has
        no room for it, or all slots are taken and doubling overflows their 16-bit count. */
    method Set(k: string, v: nat) returns (ok: bool)
      requires Valid() && arena.Valid()
      modifies this, items, arena`pos
      ensures arena.Valid()
      ensures ok <==>
        || k in old(AsMap(pairs))
        || (&& old(arena.pos) + old(Space(k)) <= arena.bs.Length
            && (old(len) < old(cap) || 0 < 2 * old(cap) < 65536))
      ensures ok ==> arena.pos == old(arena.pos) + if k in old(AsMap(pairs)) then 0 else old(Space(k))
      ensures ok ==> Valid() && (items == old(items) || fresh(items))
      ensures ok ==> pairs == WithSet(old(pairs), k, v) && AsMap(pairs) == old(AsMap(pairs))[k := v]
    {
      hide AsMap, Find, WithSet, Arena.Valid;
      SetInMap(pairs, k, v);
      var i := Lookup(k);
      if i != -1 {
        Overwrite(i, k, v);
        return true;
      }
      ok := Reserve();
      if ok {
        var off;
        ok, off := arena.Alloc(|k| + 1);
      }
      if ok {
        Add(k, v);
      }
    }

    /** Makes room for one more pair. */
    method Reserve() returns (ok: bool)
      requires Valid() && arena.Valid()
      modifies this`items, this`cap, arena`pos
      ensures arena.Valid()
      ensures var more := if len == old(cap) then 16 * old(cap) else 0;
              && (ok <==> old(arena.pos) + more <= arena.bs.Length && (len < old(cap) || 0 < 2 * old(cap) < 65536))
              && (ok ==> arena.pos == old(arena.pos) + more)
      ensures ok ==> len < cap && Valid() && (items == old(items) || fresh(items))
    {
      hide AsMap, Find;
      arena.Within();
      hide Arena.Valid;
      ok := true;
      if len == cap {
        var off;
        ok, off := arena.Alloc(16 * cap);
        var wide := 2 * cap % 65536;
        if ok && wide <= len {
          ok := false;
        } else if ok {
          Widen(wide);
        }
      }
    }

    method Overwrite(i: nat, k: string, v: nat)
      requires Valid() && Find(pairs, k) != -1 && i == 2 * Find(pairs, k)
      modifies this`pairs, items
      ensures Valid() && pairs == WithSet(old(pairs), k, v)
    {
      hide AsMap, Find, WithSet;
      SetInMap(pairs, k, v);
      WithSetAt(pairs, k, v);
      items[i + 1] := Val(v);
      pairs := WithSet(pairs, k, v);
    }

    method Add(k: string, v: nat)
      requires Valid() && Find(pairs, k) == -1 && len < cap
      modifies this`pairs, this`len, items
      ensures Valid() && pairs == WithSet(old(pairs), k, v)
    {
      hide AsMap, Find, WithSet;
      SetInMap(pairs, k, v);
      WithSetAt(pairs, k, v);
      items[len] := Key(k);
      items[len + 1] := Val(v);
      len, pairs := len + 2, pairs + [(k, v)];
    }

    method Widen(wide: nat)
      requires Valid() && cap < wide < 65536 && wide % 2 == 0
      modifies this`items, this`cap
      ensures Valid() && fresh(items) && pairs == old(pairs) && cap == wide && len == old(len)
    {
      var more := new Slot[wide](_ => Empty);
      forall i | 0 <= i < cap {
        more[i] := items[i];
      }
      items, cap := more, wide;
    }

    /** Moves the last pair over pair `p` and clears where it was. */
    method MoveLastOver(ghost p: nat, i: nat)
      requires Valid() && i == 2 * p && p < |pairs|
      modifies this`len, this`pairs, items
      ensures Valid() && pairs == Removed(old(pairs), old(pairs)[p].0) && len == old(len) - 2
    {
      ghost var r := Removed(pairs, pairs[p].0);
      RemovedPairs(pairs, p);
      hide Removed, AsMap, Find;
      items[i], items[i + 1] := items[len - 2], items[len - 1];
      items[len - 2], items[len - 1] := Empty, Empty;
      len, pairs := len - 2, r;
    }

    /** `MapRemove`: the scan goes on behind the removed pair, and finds no other. */
    method Remove(k: string)
      requires Valid()
      modifies this`len, this`pairs, items
      ensures Valid() && pairs == Removed(old(pairs), k) && AsMap(pairs) == old(AsMap(pairs)) - {k}
    {
      hide AsMap, Find;
      RemoveInMap(pairs, k);
      var i := 0;
      ghost var p, removed := 0, false;
      while i < len
        invariant Valid() && i == 2 * p
        invariant pairs == if removed then Removed(old(pairs), k) else old(pairs)
        invariant forall q :: 0 <= q < |pairs| && (removed || q < p) ==> pairs[q].0 != k
        decreases len - i
      {
        if items[i] == Key(k) {
          assert !removed;
          MoveLastOver(p, i);
          removed := true;
          RemovedKey(old(pairs), k);
        }
        i, p := i + 2, p + 1;
      }
      if !removed {
        assert Find(pairs, k) == -1;
      }
    }
  }

  lemma RemovedPairs(pairs: seq<Pair>, p: nat)
    requires UniqueKeys(pairs) && p < |pairs|
    ensures var r := Removed(pairs, pairs[p].0);
            && |r| == |pairs| - 1 && UniqueKeys(r)
            && forall q :: 0 <= q < |r| ==> r[q] == pairs[if q == p then |pairs| - 1 else q]
  {
    hide AsMap;
    RemoveInMap(pairs, pairs[p].0);
    FindUnique(pairs, p);
  }

  lemma RemovedKey(pairs: seq<Pair>, k: string)
    requires UniqueKeys(pairs)
    ensures forall q :: 0 <= q < |Removed(pairs, k)| ==> Removed(pairs, k)[q].0 != k
  {
  }
}
