/** Bytes on the wire and the big-endian integers made of them. */
module Bytes {
  type byte = x: int | 0 <= x < 256

  function Min(a: nat, b: nat): nat {
    if a < b then a else b
  }

  /** 256 to the power `w`: one more than the largest `w`-byte integer. */
  function Pow256(w: nat): (p: nat)
    ensures p >= 1
  {
    if w == 0 then 1 else 256 * Pow256(w - 1)
  }

  /** The low `w` bytes of `n`, most significant byte first. */
  function BigEndian(n: nat, w: nat): (s: seq<byte>)
    ensures |s| == w
  {
    if w == 0 then [] else BigEndian(n / 256, w - 1) + [(n % 256) as byte]
  }

  /** The integer that `s` writes, most significant byte first. */
  function Value(s: seq<byte>): (n: nat)
    ensures n < Pow256(|s|)
  {
    if s == [] then 0 else 256 * Value(s[..|s| - 1]) + s[|s| - 1]
  }

  lemma ModSplit(n: nat, p: nat)
    requires p >= 1
    ensures n % (256 * p) == 256 * ((n / 256) % p) + n % 256
  {
    var q, r := n / 256, n % 256;
    var k, m := q / p, q % p;
    assert q == k * p + m;
    assert n == (256 * p) * k + (256 * m + r) by {
      assert 256 * (k * p) == (256 * p) * k;
    }
    ModUnique(n, 256 * p, k, 256 * m + r);
  }

  lemma MulBounds(d: nat, e: int)
    ensures e >= 1 ==> d * e >= d
    ensures e <= -1 ==> d * e + d <= 0
  {
    if e >= 1 {
      assert d * (e - 1) >= 0;
    } else if e <= -1 {
      assert d * (-e - 1) >= 0;
    }
  }

  lemma ModUnique(n: nat, d: nat, k: nat, r: nat)
    requires n == d * k + r && r < d
    ensures n % d == r && n / d == k
  {
    var k', r' := n / d, n % d;
    assert d * (k' - k) == r - r';
    if k' - k >= 1 || k' - k <= -1 {
      MulBounds(d, k' - k);
    }
  }

  lemma ModRange(n: int, d: nat)
    requires d >= 1
    ensures 0 <= n % d < d
  {
  }

  lemma ModSmall(r: nat, d: nat)
    requires r < d
    ensures r % d == r
  {
    ModUnique(r, d, 0, r);
  }

  /** Writing `n` on `w` bytes and reading it back keeps `n` modulo 256^w. */
  lemma {:induction false} ValueOfBigEndian(n: nat, w: nat)
    ensures Value(BigEndian(n, w)) == n % Pow256(w)
  {
    if w == 0 {
    } else {
      var s := BigEndian(n, w);
      assert s[..|s| - 1] == BigEndian(n / 256, w - 1);
      ValueOfBigEndian(n / 256, w - 1);
      ModSplit(n, Pow256(w - 1));
    }
  }

  lemma Pow256Of2()
    ensures Pow256(2) == 65536
  {
    assert Pow256(2) == 256 * Pow256(1) == 65536 * Pow256(0);
  }

  /** A number on two bytes at the front of some bytes. */
  lemma ValueInFront(n: nat, rest: seq<byte>)
    requires n < 65536
    ensures var s := BigEndian(n, 2) + rest;
            |s| >= 2 && s[..2] == BigEndian(n, 2) && Value(s[..2]) == n && s[2..] == rest
  {
    hide BigEndian, Value, Pow256;
    assert (BigEndian(n, 2) + rest)[..2] == BigEndian(n, 2);
    ValueOfBigEndian(n, 2);
    Pow256Of2();
  }

  /** Reading bytes and writing them back on as many bytes is the identity. */
  lemma {:induction false} BigEndianOfValue(s: seq<byte>)
    ensures BigEndian(Value(s), |s|) == s
  {
    if s == [] {
    } else {
      var init := s[..|s| - 1];
      BigEndianOfValue(init);
      assert Value(s) / 256 == Value(init) && Value(s) % 256 == s[|s| - 1];
      assert s == init + [s[|s| - 1]];
    }
  }

  lemma Scaled(x: nat, p: nat, y: nat)
    ensures 256 * (x * p + y) == x * (256 * p) + 256 * y
  {
    assert 256 * (x * p) == x * (256 * p);
  }

  lemma ValueNext(s: seq<byte>, b: byte)
    ensures Value(s + [b]) == 256 * Value(s) + b
  {
    assert (s + [b])[..|s|] == s;
  }

  /** Bytes behind others count below them. */
  lemma {:induction false} ValueSum(a: seq<byte>, b: seq<byte>)
    ensures Value(a + b) == Value(a) * Pow256(|b|) + Value(b)
    decreases |b|
  {
    hide Value;
    if b == [] {
      assert a + b == a;
      ValueOfNothing();
    } else {
      var init, last := b[..|b| - 1], b[|b| - 1];
      assert a + b == (a + init) + [last] && b == init + [last];
      ValueSum(a, init);
      ValueNext(a + init, last);
      ValueNext(init, last);
      Scaled(Value(a), Pow256(|init|), Value(init));
    }
  }

  lemma ValueOfNothing()
    ensures Value([]) == 0
  {
  }

  lemma ValueOfTwoBytes(s: seq<byte>)
    requires |s| == 2
    ensures Value(s) == 256 * (s[0] as int) + s[1] as int
  {
    var init := s[..1];
    assert init[..0] == [];
    assert Value(init) == s[0];
  }

  lemma DivTwice(n: nat, p: nat)
    requires p >= 1
    ensures n / 256 / p == n / (256 * p)
  {
    var q, r := n / 256, n % 256;
    var k, m := q / p, q % p;
    assert n == (256 * p) * k + (256 * m + r) by {
      assert 256 * (k * p) == (256 * p) * k;
    }
    ModUnique(n, 256 * p, k, 256 * m + r);
  }

  /** The low byte of `n` shifted right by `k` bytes. */
  function Shifted(n: nat, k: nat): byte {
    ((n / Pow256(k)) % 256) as byte
  }

  /** The bytes of the big-endian form are the ones that shifting right selects. */
  lemma {:induction false} Digit(n: nat, w: nat, k: nat)
    requires k < w
    ensures BigEndian(n, w)[k] == Shifted(n, w - 1 - k)
    decreases w
  {
    if k == w - 1 {
      assert Pow256(0) == 1;
    } else {
      Digit(n / 256, w - 1, k);
      DivTwice(n, Pow256(w - 2 - k));
    }
  }

  lemma SliceOfSlice<T>(s: seq<T>, a: nat, b: nat, n: nat)
    requires a + n <= b <= |s|
    ensures s[a..b][..n] == s[a..a + n]
  {
  }

  /** What lies behind the first `m` of `n` elements has been moved over them. */
  lemma MovedDown<T>(s: seq<T>, t: seq<T>, at: nat, m: nat, n: nat)
    requires m <= n && at + n <= |s| && |t| == |s|
    requires forall j :: at <= j < at + (n - m) ==> t[j] == s[j + m]
    ensures t[at..at + (n - m)] == s[at..at + n][m..]
  {
    var a, b := t[at..at + (n - m)], s[at..at + n][m..];
    forall k | 0 <= k < n - m
      ensures a[k] == b[k]
    {
      assert t[at + k] == s[at + k + m];
    }
  }

  lemma TakeOneMore<T>(s: seq<T>, k: nat)
    requires k < |s|
    ensures s[..k + 1] == s[..k] + [s[k]]
  {
  }
}
