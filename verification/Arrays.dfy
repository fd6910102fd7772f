/** The growable array of clib.c, with a backing store of `cap` items of which `len` are
    in use, taken from an arena. Lengths and capacities are 16 bits wide. */
module Arrays {
  import opened Memory

  /** `ArrayNew` takes 32 for no capacity. */
  function Capacity(cap: nat): nat {
    if cap == 0 then 32 else cap
  }

  /** The items are held as values; the arena is where the room for them comes from. */
  class Array<T(0)> {
    const arena: Arena
    const itemsize: nat
    /** An item of zero bytes. */
    const zero: T
    var items: array<T>
    var len: nat
    var cap: nat

    predicate Valid()
      reads this
    {
      len <= cap == items.Length && 1 <= cap < 65536
    }

    function Contents(): (s: seq<T>)
      requires Valid()
      reads this, items
      ensures |s| == len
    {
      items[..len]
    }

    constructor (arena: Arena, cap: nat, itemsize: nat, zero: T)
      requires 1 <= cap < 65536
      ensures Valid() && fresh(items) && Contents() == [] && this.cap == cap
      ensures this.arena == arena && this.itemsize == itemsize && this.zero == zero
    {
      this.arena, this.itemsize, this.zero := arena, itemsize, zero;
      items := new T[cap];
      len, this.cap := 0, cap;
    }

    /** `ArrayNew`; null where the program aborts. */
    static method New(arena: Arena, cap: nat, itemsize: nat, zero: T) returns (a: Array?<T>)
      requires arena.Valid() && cap < 65536
      modifies arena`pos
      ensures arena.Valid()
      ensures a != null <==> old(arena.pos) + itemsize * Capacity(cap) <= arena.bs.Length
      ensures a != null ==> arena.pos == old(arena.pos) + itemsize * Capacity(cap)
      ensures a != null ==> fresh(a) && a.Valid() && fresh(a.items) && a.Contents() == [] && a.cap == Capacity(cap)
      ensures a != null ==> a.cap == if cap == 0 then 32 else cap
      ensures a != null ==> a.arena == arena && a.itemsize == itemsize && a.zero == zero
    {
      var ok, off := arena.Alloc(itemsize * Capacity(cap));
      if !ok {
        return null;
      }
      a := new Array(arena, Capacity(cap), itemsize, zero);
    }

    /** `ArrayClear`. */
    method Clear()
      requires Valid()
      modifies this`len, items
      ensures Valid() && Contents() == [] && cap == old(cap)
      ensures forall i :: 0 <= i < old(len) ==> items[i] == zero
    {
      forall i | 0 <= i < len {
        items[i] := zero;
      }
      len := 0;
    }

    /** Copies the items to a store of `wide` items. */
    method Widen(wide: nat)
      requires Valid() && cap <= wide < 65536
      modifies this`items, this`cap
      ensures Valid() && fresh(items) && cap == wide && Contents() == old(Contents())
    {
      var more := new T[wide];
      forall i | 0 <= i < cap {
        more[i] := items[i];
      }
      items, cap := more, wide;
    }

    /** What `ArrayAppend` takes from the arena. */
    function Doubling(): nat
      reads this
    {
      if len == cap then itemsize * cap * 2 else 0
    }

    /** Makes room for one more item. */
    method Reserve() returns (ok: bool)
      requires Valid() && arena.Valid()
      modifies this`items, this`cap, arena`pos
      ensures arena.Valid() && Valid() && Contents() == old(Contents())
      ensures ok <==>
        && old(arena.pos) + old(Doubling()) <= arena.bs.Length
        && (old(len) < old(cap) || 2 * old(cap) < 65536)
      ensures ok ==> arena.pos == old(arena.pos) + old(Doubling()) && len < cap
      ensures ok ==> cap == if old(len) == old(cap) then 2 * old(cap) else old(cap)
      ensures items == old(items) || fresh(items)
    {
      arena.Within();
      hide Arena.Valid;
      ok := true;
      if len == cap {
        var off;
        ok, off := arena.Alloc(itemsize * cap * 2);
        var wide := (2 * cap) % 65536;
        if ok && wide <= len {
          ok := false;
        } else if ok {
          Widen(wide);
        }
      }
    }

    /** `ArrayAppend`. `ok` is false where the program aborts: the array is full and there
        is no room for one of twice the size, or doubling overflows the 16-bit capacity. */
    method Append(x: T) returns (ok: bool)
      requires Valid() && arena.Valid()
      modifies this`items, this`len, this`cap, items, arena`pos
      ensures arena.Valid()
      ensures ok <==>
        && old(arena.pos) + old(Doubling()) <= arena.bs.Length
        && (old(len) < old(cap) || 2 * old(cap) < 65536)
      ensures ok ==> arena.pos == old(arena.pos) + old(Doubling())
      ensures ok ==> cap == if old(len) == old(cap) then 2 * old(cap) else old(cap)
      ensures Valid() && Contents() == if ok then old(Contents()) + [x] else old(Contents())
      ensures items == old(items) || fresh(items)
    {
      hide Arena.Valid, Doubling;
      ok := Reserve();
      if ok {
        items[len] := x;
        len := len + 1;
      }
    }

    /** `ArrayRemove`; an index out of range changes nothing. The program moves one item
        more than there are behind the removed one, and clears it again at once. Where the
        array is full this item lies behind the store, and is left out here. */
    method Remove(index: int)
      requires Valid()
      modifies this`len, items
      ensures Valid() && cap == old(cap)
      ensures var s := old(Contents());
              Contents() == if 0 <= index < |s| then s[..index] + s[index + 1..] else s
      ensures forall i :: len <= i < old(len) ==> items[i] == zero
    {
      if index < 0 || index >= len {
        return;
      }
      if len > 1 {
        Down(index, if len < cap then len - index else len - index - 1);
      }
      items[len - 1] := zero;
      len := len - 1;
    }

    /** `memmove` of `n` items to one place lower. */
    method Down(at: nat, n: nat)
      requires Valid() && at + 1 + n <= cap
      modifies items
      ensures forall j :: at <= j < at + n ==> items[j] == old(items[j + 1])
      ensures forall j :: 0 <= j < at || at + n <= j < cap ==> items[j] == old(items[j])
    {
      var k := 0;
      while k < n
        invariant 0 <= k <= n
        invariant forall j :: at <= j < at + k ==> items[j] == old(items[j + 1])
        invariant forall j :: 0 <= j < at || at + k <= j < cap ==> items[j] == old(items[j])
      {
        items[at + k] := items[at + k + 1];
        k := k + 1;
      }
    }

    /** `ArrayReplace`. */
    method Replace(index: int, x: T)
      requires Valid()
      modifies items
      ensures Contents() == if 0 <= index < len then old(Contents())[index := x] else old(Contents())
    {
      if 0 <= index < len {
        items[index] := x;
      }
    }

    /** `ArrayItem`; the program aborts on an index out of range. */
    method Item(index: int) returns (ok: bool, x: T)
      requires Valid()
      ensures ok <==> 0 <= index < len
      ensures ok ==> x == Contents()[index]
    {
      ok, x := 0 <= index < len, zero;
      if ok {
        x := items[index];
      }
    }
  }
}
