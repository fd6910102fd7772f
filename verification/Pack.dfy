/** Packing into a buffer and unpacking into variables: cnet.c's loops over the
    format string, each tied to what `Format` says the format means. */
module Pack {
  import opened Bytes
  import opened Memory
  import opened Format

  /** What the format still asks for, in state 0 (plain) or 1 (behind a `%`). */
  function Rest(state: nat, fmt: string): seq<Item> {
    if state == 0 then Items(fmt)
    else if fmt == [] then []
    else [Spec(fmt[0])] + Items(fmt[1..])
  }

  /** Appends the low `w` bytes of `n`, the highest shift first. */
  method PackNumber(buf: Buffer, ghost s: Snap, ghost done: seq<byte>, n: nat, w: nat, ghost total: nat)
    returns (ok: bool)
    requires buf.Live() && Extended(s, buf.Now(), done)
    requires |done| + w <= total
    modifies buf, buf.arena`pos, buf.arena.bs
    ensures buf.Live()
    ensures ok ==> Extended(s, buf.Now(), done + BigEndian(n, w))
    ensures !ok ==> !Roomy(s, total) && Kept(s, buf.Now())
  {
    hide Buffer.Live, Extended, Roomy, Kept;
    ghost var want := BigEndian(n, w);
    assert done + want[..0] == done;
    var k := 0;
    while k < w
      invariant 0 <= k <= w
      invariant buf.Live() && Extended(s, buf.Now(), done + want[..k])
    {
      ok := AppendMore(buf, s, done + want[..k], [Shifted(n, w - 1 - k)], total);
      if !ok {
        return;
      }
      Digit(n, w, k);
      TakeOneMore(want, k);
      assert done + want[..k] + [want[k]] == done + want[..k + 1];
      k := k + 1;
    }
    ok := true;
    assert want[..w] == want;
  }

  /** Appends a string: the low 16 bits of its length, then that many bytes. */
  method PackText(buf: Buffer, ghost s: Snap, ghost done: seq<byte>, text: seq<byte>, ghost total: nat)
    returns (ok: bool)
    requires buf.Live() && Extended(s, buf.Now(), done)
    requires |done| + |TextBytes(text)| <= total
    modifies buf, buf.arena`pos, buf.arena.bs
    ensures buf.Live()
    ensures ok ==> Extended(s, buf.Now(), done + TextBytes(text))
    ensures !ok ==> !Roomy(s, total) && Kept(s, buf.Now())
  {
    hide Buffer.Live, Extended, Roomy, Kept, BigEndian;
    var n := |text| % 65536;
    ok := PackNumber(buf, s, done, n, 2, total);
    if ok {
      ok := AppendMore(buf, s, done + BigEndian(n, 2), text[..n], total);
      assert done + BigEndian(n, 2) + text[..n] == done + TextBytes(text);
    }
  }

  /** Handles the character behind a `%`. */
  method PackField(buf: Buffer, ghost s: Snap, ghost done: seq<byte>, item: Item, arg: Arg, ghost total: nat)
    returns (ok: bool)
    requires IsField(item) && (item.Number? <==> arg.Num?)
    requires buf.Live() && Extended(s, buf.Now(), done)
    requires |done| + |FieldBytes(item, arg)| <= total
    modifies buf, buf.arena`pos, buf.arena.bs
    ensures buf.Live()
    ensures ok ==> Extended(s, buf.Now(), done + FieldBytes(item, arg))
    ensures !ok ==> !Roomy(s, total) && Kept(s, buf.Now())
  {
    hide Buffer.Live, Extended, Roomy, Kept, BigEndian;
    match item {
      case Number(w) =>
        ModRange(arg.n, Pow256(w));
        ok := PackNumber(buf, s, done, arg.n % Pow256(w), w, total);
      case Text =>
        ok := PackText(buf, s, done, arg.s, total);
    }
  }

  /** What one character of the format adds to the packed bytes. */
  lemma EncodeStep(state: nat, fmt: string, i: nat, args: seq<Arg>)
    requires i < |fmt| && state <= 1 && Matches(Rest(state, fmt[i..]), args)
    ensures var rest := Rest(0, fmt[i + 1..]);
            var bytes := Encode(Rest(state, fmt[i..]), args);
            if state == 0 && fmt[i] == '%' then Rest(state, fmt[i..]) == Rest(1, fmt[i + 1..])
            else
              var item := if state == 0 then Literal(fmt[i]) else Spec(fmt[i]);
              if IsField(item) then
                && args != [] && (item.Number? <==> args[0].Num?) && Matches(rest, args[1..])
                && bytes == FieldBytes(item, args[0]) + Encode(rest, args[1..])
              else
                && Matches(rest, args)
                && bytes == (if item.Literal? then [LiteralByte(item.c)] else []) + Encode(rest, args)
  {
    hide FieldBytes, Rest;
    RestStep(state, fmt, i, args);
  }

  lemma Regroup(done: seq<byte>, b: seq<byte>, rest: seq<byte>, want: seq<byte>)
    requires done + (b + rest) == want
    ensures (done + b) + rest == want && |done| + |b| <= |want|
  {
  }

  /** `NetPackV`: appends what the format and the arguments encode to, and counts it.
      `ok` is false where the program aborts for lack of arena space, which happens
      only if the arena has no room for twice what the capacity grows by. */
  method NetPackV(buf: Buffer, fmt: string, args: seq<Arg>) returns (ok: bool, n: nat)
    requires buf.Live() && Matches(Items(fmt), args)
    modifies buf, buf.arena`pos, buf.arena.bs
    ensures buf.Live()
    ensures ok ==> Extended(old(buf.Now()), buf.Now(), Encode(Items(fmt), args)) && n == |Encode(Items(fmt), args)|
    ensures !ok ==> !Roomy(old(buf.Now()), |Encode(Items(fmt), args)|) && Kept(old(buf.Now()), buf.Now())
  {
    hide Buffer.Live, Extended, Roomy, Kept, FieldBytes, Encode, Matches, Rest;
    ghost var s, want, done := buf.Now(), Encode(Items(fmt), args), [];
    var state, i, k := 0, 0, 0;
    n := 0;
    StartPack(buf);
    RestOfAll(fmt);
    assert fmt[0..] == fmt && args[0..] == args;
    while i < |fmt|
      invariant 0 <= i <= |fmt| && (state == 0 || state == 1) && k <= |args| && n == |done|
      invariant buf.Live() && Extended(s, buf.Now(), done)
      invariant Matches(Rest(state, fmt[i..]), args[k..])
      invariant done + Encode(Rest(state, fmt[i..]), args[k..]) == want
    {
      EncodeStep(state, fmt, i, args[k..]);
      if state == 0 {
        if fmt[i] == '%' {
          state := 1;
        } else {
          var b := [LiteralByte(fmt[i])];
          Regroup(done, b, Encode(Rest(0, fmt[i + 1..]), args[k..]), want);
          ok := AppendMore(buf, s, done, b, |want|);
          if !ok {
            return;
          }
          n, done := n + 1, done + b;
        }
      } else {
        var item := Spec(fmt[i]);
        if IsField(item) {
          ghost var b := FieldBytes(item, args[k]);
          assert args[k..][1..] == args[k + 1..];
          Regroup(done, b, Encode(Rest(0, fmt[i + 1..]), args[k + 1..]), want);
          ok := PackField(buf, s, done, item, args[k], |want|);
          if !ok {
            return;
          }
          n, k, done := n + FieldLength(item, args[k]), k + 1, done + b;
        } else {
          Regroup(done, [], Encode(Rest(0, fmt[i + 1..]), args[k..]), want);
          assert done + [] == done;
        }
        state := 0;
      }
      i := i + 1;
    }
    ok := true;
    assert fmt[i..] == [];
    NothingToPack(state, args[k..]);
    assert done + [] == done;
  }

  lemma NothingToPack(state: nat, args: seq<Arg>)
    requires Matches(Rest(state, []), args)
    ensures Encode(Rest(state, []), args) == []
  {
  }

  function FieldLength(item: Item, arg: Arg): (n: nat)
    requires IsField(item) && (item.Number? <==> arg.Num?)
    ensures n == |FieldBytes(item, arg)|
  {
    match item
    case Number(w) => w
    case Text => 2 + |arg.s| % 65536
  }

  lemma StartPack(buf: Buffer)
    requires buf.Live()
    ensures Extended(buf.Now(), buf.Now(), [])
  {
    ExtendedByNothing(buf.Now());
  }

  /** One character of the format string. */
  lemma RestStep(state: nat, fmt: string, i: nat, args: seq<Arg>)
    requires i < |fmt| && state <= 1 && Matches(Rest(state, fmt[i..]), args)
    ensures var rest := Rest(state, fmt[i..]);
            if state == 0 && fmt[i] == '%' then rest == Rest(1, fmt[i + 1..])
            else
              && rest != []
              && rest[0] == (if state == 0 then Literal(fmt[i]) else Spec(fmt[i]))
              && rest[1..] == Rest(0, fmt[i + 1..])
  {
    assert fmt[i..][1..] == fmt[i + 1..];
    if i + 1 < |fmt| {
      assert fmt[i..][2..] == fmt[i + 2..] == fmt[i + 1..][1..];
    }
  }

  /** A frame: the length of the body on two bytes, then the body. */
  function Frame(body: seq<byte>): seq<byte> {
    BigEndian(|body|, 2) + body
  }

  /** What `NetPackLenV` appends: two zero bytes and the body, then the 16-bit length
      written over the two bytes that are that length and two away from the end. */
  function LengthPatched(body: seq<byte>): (b: seq<byte>)
    ensures |b| == |body| + 2
  {
    var m := |body| % 65536;
    var block := [0, 0] + body;
    block[..|body| - m] + BigEndian(m, 2) + block[|body| - m + 2..]
  }

  /** Two bytes of length, the higher one first, in front of the body. */
  lemma FrameBytes(body: seq<byte>)
    requires |body| < 65536
    ensures Frame(body) == [(|body| / 256) as byte, |body| % 256] + body
  {
    var n := |body|;
    assert BigEndian(n, 1) == BigEndian(n / 256, 0) + [n % 256];
    assert BigEndian(n / 256, 1) == BigEndian(n / 256 / 256, 0) + [(n / 256) as byte];
    assert BigEndian(n, 2) == BigEndian(n / 256, 1) + [n % 256];
  }

  /** Where the length goes, however long the body is, and that nothing else is written over. */
  lemma PatchedBytes(body: seq<byte>)
    ensures var m, b, block := |body| % 65536, LengthPatched(body), [0, 0] + body;
            var at := |body| - m;
            && b[at..at + 2] == BigEndian(m, 2)
            && forall i :: 0 <= i < |b| && !(at <= i < at + 2) ==> b[i] == block[i]
  {
    var m, b := |body| % 65536, LengthPatched(body);
    var at := |body| - m;
    hide BigEndian;
    assert b[at..at + 2] == BigEndian(m, 2);
  }

  /** The result is a frame that announces its body if and only if the length of the
      body fits in 16 bits. */
  lemma LengthPatchedIsFrame(body: seq<byte>)
    ensures (LengthPatched(body)[2..] == body && Value(LengthPatched(body)[..2]) == |body|) <==> |body| < 65536
    ensures |body| < 65536 ==> LengthPatched(body) == Frame(body)
  {
    if |body| < 65536 {
      assert LengthPatched(body) == BigEndian(|body|, 2) + body;
      assert LengthPatched(body)[..2] == BigEndian(|body|, 2);
      ValueInFront(|body|, body);
    }
  }

  /** The length of a packed message is handed on as 16 bits: only that many bytes are sent. */
  function Passed(bs: seq<byte>): (r: seq<byte>)
    ensures r <= bs && |r| == |bs| % 65536
  {
    bs[..|bs| % 65536]
  }

  /** What is sent for a body is its frame if and only if the length of the frame, two
      more than that of the body, fits in 16 bits. */
  lemma PassedIsFrame(body: seq<byte>)
    ensures Passed(LengthPatched(body)) == Frame(body) <==> |body| < 65534
  {
    LengthPatchedIsFrame(body);
  }

  /** Writes the length over the two bytes reserved for it. */
  method PatchLength(buf: Buffer, m: nat, ghost s: Snap, ghost body: seq<byte>)
    requires m == |body| % 65536 && buf.Live() && Extended(s, buf.Now(), [0, 0] + body)
    modifies buf.arena.bs
    ensures buf.Live() && buf.InBounds() && Kept(s, buf.Now())
    ensures buf.Contents() == s.Contents() + LengthPatched(body)
  {
    hide Buffer.Live, Extended, Kept;
    ghost var t := buf.Now();
    buf.NowContents();
    ExtendedMeans(s, t, [0, 0] + body);
    var at := buf.len - m - 2;
    assert at == |s.Contents()| + (|body| - m);
    buf.Poke(at, Shifted(m, 1));
    KeptOwn(s, t, buf.Now(), [0, 0] + body);
    ghost var u := buf.Now();
    buf.Poke(at + 1, Shifted(m, 0));
    KeptSameRange(s, t, u, buf.Now(), [0, 0] + body);
    Digit(m, 2, 0);
    Digit(m, 2, 1);
    PatchedBlock(s.Contents(), body);
  }

  lemma KeptSameRange(s: Snap, t: Snap, u: Snap, v: Snap, d: seq<byte>)
    requires Extended(s, t, d) && Kept(t, u) && Kept(u, v) && u.(bytes := t.bytes) == t
    ensures Kept(s, v)
  {
  }

  lemma PatchedBlock(prior: seq<byte>, body: seq<byte>)
    ensures var m := |body| % 65536;
            var at := |prior| + |body| - m;
            (prior + ([0, 0] + body))[at := BigEndian(m, 2)[0]][at + 1 := BigEndian(m, 2)[1]]
              == prior + LengthPatched(body)
  {
  }

  /** Appends two bytes to be overwritten, and the packed message. */
  method PackBehindLength(buf: Buffer, fmt: string, args: seq<Arg>) returns (ok: bool, n: nat)
    requires buf.Live() && Matches(Items(fmt), args)
    modifies buf, buf.arena`pos, buf.arena.bs
    ensures buf.Live()
    ensures var body := Encode(Items(fmt), args);
            && (ok ==> Extended(old(buf.Now()), buf.Now(), [0, 0] + body) && n == |body|)
            && (!ok ==> Kept(old(buf.Now()), buf.Now()) && !Roomy(old(buf.Now()), 2 + |body|))
  {
    hide Buffer.Live, Extended, Roomy, Kept, Encode;
    ghost var s, body := buf.Now(), Encode(Items(fmt), args);
    n := 0;
    StartPack(buf);
    ok := AppendMore(buf, s, [], [0, 0], 2 + |body|);
    if ok {
      ghost var t := buf.Now();
      assert [] + [0 as byte, 0] == [0, 0];
      ok, n := NetPackV(buf, fmt, args);
      if ok {
        ExtendedTwice(s, t, buf.Now(), [0, 0], body);
      } else {
        KeptOwn(s, t, buf.Now(), [0, 0]);
        if Roomy(s, 2 + |body|) {
          RoomyAfter(s, t, [0, 0], |body|, 2 + |body|);
        }
      }
    }
  }

  /** `NetPackLenV`: appends the packed message behind its length. */
  method NetPackLenV(buf: Buffer, fmt: string, args: seq<Arg>) returns (ok: bool, n: nat)
    requires buf.Live() && Matches(Items(fmt), args)
    modifies buf, buf.arena`pos, buf.arena.bs
    ensures buf.Live() && buf.InBounds() && Kept(old(buf.Now()), buf.Now())
    ensures var body := Encode(Items(fmt), args);
            && (ok ==> buf.Contents() == old(buf.Contents()) + LengthPatched(body) && n == |body| % 65536 + 2)
            && (!ok ==> !Roomy(old(buf.Now()), 2 + |body|))
            && (ok ==> buf.cap == Grown(old(buf.cap), old(buf.len) + 2 + |body|))
    ensures ok ==> buf.arena.pos - old(buf.arena.pos) <= 2 * (buf.cap - old(buf.cap))
    ensures forall b :: b in buf.arena.live && b != buf ==> b.InBounds() && b.Contents() == old(b.Contents())
  {
    hide Buffer.Live, Extended, Roomy, Kept, Encode, Grown;
    ghost var s, body := buf.Now(), Encode(Items(fmt), args);
    buf.NowContents();
    ok, n := PackBehindLength(buf, fmt, args);
    if ok {
      ExtendedSize(s, buf.Now(), [0, 0] + body);
      PatchLength(buf, n % 65536, s, body);
      n := n % 65536 + 2;
    }
    buf.NowContents();
    buf.KeepOthers();
  }

  /** Reads up to `w` bytes at `p` into a number, high places first. */
  method UnpackNumber(bs: seq<byte>, p: nat, w: Width) returns (v: nat, p': nat)
    requires p < |bs|
    ensures v == NumberFrom(bs[p..], w) && p' == p + Min(|bs| - p, w)
  {
    var j := 0;
    v := 0;
    while j < w && p + j < |bs|
      invariant 0 <= j <= w && p + j <= |bs|
      invariant v == Value(bs[p..][..j]) * Pow256(w - j)
    {
      NextByte(bs[p..], j, w);
      v := v + bs[p + j] * Pow256(w - 1 - j);
      j := j + 1;
    }
    p' := p + j;
  }

  lemma NextByte(bs: seq<byte>, j: nat, w: nat)
    requires j < w && j < |bs|
    ensures Value(bs[..j + 1]) * Pow256(w - (j + 1)) == Value(bs[..j]) * Pow256(w - j) + bs[j] * Pow256(w - 1 - j)
  {
    var a, q := Value(bs[..j]), Pow256(w - 1 - j);
    assert bs[..j + 1][..j] == bs[..j];
    assert Value(bs[..j + 1]) == 256 * a + bs[j];
    assert Pow256(w - j) == 256 * q;
    Distribute(a, bs[j], q);
  }

  lemma Distribute(a: nat, b: nat, q: nat)
    ensures (256 * a + b) * q == a * (256 * q) + b * q
  {
  }

  function Prefixed(outs: seq<Arg>, u: Unpacked): Unpacked {
    Unpacked(outs + u.outs, u.overread)
  }

  lemma PrefixedByNothing(u: Unpacked)
    ensures Prefixed([], u) == u
  {
    assert [] + u.outs == u.outs;
  }

  lemma PrefixedPrepend(outs: seq<Arg>, a: Arg, u: Unpacked)
    ensures Prefixed(outs, u.Prepend(a)) == Prefixed(outs + [a], u)
  {
    assert outs + ([a] + u.outs) == (outs + [a]) + u.outs;
  }

  /** Reads a string at `p`: whether a byte follows its length, whether the length
      points behind the end, the bytes and the position behind them. */
  method UnpackText(bs: seq<byte>, p: nat) returns (follows: bool, overread: bool, text: seq<byte>, p': nat)
    requires p < |bs|
    ensures follows <==> |bs[p..]| > 2
    ensures overread <==> follows && 2 + Value(bs[p..][..2]) > |bs[p..]|
    ensures follows && !overread ==>
      var n := Value(bs[p..][..2]);
      text == bs[p..][2..2 + n] && p' == p + 2 + n && bs[p'..] == bs[p..][2 + n..]
  {
    follows, overread, text, p' := |bs| - p > 2, false, [], p;
    if follows {
      var n := 256 * (bs[p] as int) + bs[p + 1] as int;
      ValueOfTwoBytes(bs[p..][..2]);
      overread := p + 2 + n > |bs|;
      if !overread {
        text := bs[p + 2..p + 2 + n];
        p' := p + 2 + n;
      }
    }
  }

  lemma RestOfAll(fmt: string)
    ensures Rest(0, fmt) == Items(fmt)
  {
  }

  lemma NothingLeft(items: seq<Item>, o: seq<Arg>)
    requires Matches(items, o)
    ensures Decode(items, [], o) == Unpacked(o, false)
  {
  }

  lemma NothingAsked(items: seq<Item>, bs: seq<byte>, o: seq<Arg>, state: nat)
    requires Matches(items, o) && items == Rest(state, [])
    ensures Decode(items, bs, o) == Unpacked(o, false)
  {
  }

  /** What unpacking does at one character of the format, in terms of the rest. */
  lemma DecodeStep(state: nat, fmt: string, i: nat, bs: seq<byte>, p: nat, o: seq<Arg>, k: nat)
    requires i < |fmt| && state <= 1 && p < |bs| && k <= |o|
    requires Matches(Rest(state, fmt[i..]), o[k..])
    ensures state == 0 && fmt[i] == '%' ==> Rest(state, fmt[i..]) == Rest(1, fmt[i + 1..])
    ensures state == 1 || fmt[i] != '%' ==>
      var u := Decode(Rest(state, fmt[i..]), bs[p..], o[k..]);
      var rest := Rest(0, fmt[i + 1..]);
      match if state == 0 then Literal(fmt[i]) else Spec(fmt[i])
      case Literal(_) => Matches(rest, o[k..]) && u == Decode(rest, bs[p + 1..], o[k..])
      case Ignored => Matches(rest, o[k..]) && u == Decode(rest, bs[p..], o[k..])
      case Number(w) =>
        && k < |o| && o[k].Num? && Matches(rest, o[k + 1..])
        && u == Decode(rest, bs[p + Min(|bs| - p, w)..], o[k + 1..]).Prepend(Num(NumberFrom(bs[p..], w)))
      case Text =>
        && k < |o| && o[k].Str? && Matches(rest, o[k + 1..])
        && if |bs| - p <= 2 then u == Unpacked(o[k..], false)
           else
             var n := Value(bs[p..][..2]);
             if p + 2 + n > |bs| then u == Unpacked(o[k..], true)
             else u == Decode(rest, bs[p + 2 + n..], o[k + 1..]).Prepend(Str(bs[p..][2..2 + n]))
  {
    RestStep(state, fmt, i, o[k..]);
    if k < |o| {
      assert o[k..][1..] == o[k + 1..];
    }
    forall q | 0 <= q <= |bs| - p
      ensures bs[p..][q..] == bs[p + q..]
    {
    }
  }

  lemma StoredNext(got: seq<Arg>, o: seq<Arg>, k: nat, a: Arg)
    requires k < |o| && |got| == k
    ensures (got + o[k..])[k := a] == (got + [a]) + o[k + 1..]
  {
  }

  /** `NetUnpack`: stores into the variables what `Decode` says. `overread` reports
      a string whose length points behind the received bytes. */
  method NetUnpack(bs: seq<byte>, fmt: string, outs: array<Arg>) returns (overread: bool)
    requires Matches(Items(fmt), outs[..])
    modifies outs
    ensures Unpacked(outs[..], overread) == Decode(Items(fmt), bs, old(outs[..]))
  {
    hide Decode, Matches, Rest, NumberFrom, Value, Pow256;
    ghost var o := outs[..];
    var state: nat, i: nat, k: nat, p: nat := 0, 0, 0, 0;
    assert fmt[0..] == fmt && o[0..] == o && bs[0..] == bs && [] + o == o;
    ghost var u, got := Decode(Items(fmt), bs, o), [];
    PrefixedByNothing(u);
    assert Items(fmt) == Rest(0, fmt) by {
      RestOfAll(fmt);
    }
    while i < |fmt|
      invariant 0 <= i <= |fmt| && (state == 0 || state == 1) && k <= outs.Length == |o| && p <= |bs|
      invariant |got| == k && outs[..] == got + o[k..]
      invariant Matches(Rest(state, fmt[i..]), o[k..])
      invariant u == Prefixed(got, Decode(Rest(state, fmt[i..]), bs[p..], o[k..]))
    {
      if p >= |bs| {
        NothingLeft(Rest(state, fmt[i..]), o[k..]);
        assert bs[p..] == [];
        return false;
      }
      DecodeStep(state, fmt, i, bs, p, o, k);
      if state == 0 {
        if fmt[i] == '%' {
          state := 1;
        } else {
          p := p + 1;
        }
      } else {
        match Spec(fmt[i]) {
          case Number(w) =>
            var v;
            v, p := UnpackNumber(bs, p, w);
            PrefixedPrepend(got, Num(v), Decode(Rest(0, fmt[i + 1..]), bs[p..], o[k + 1..]));
            outs[k] := Num(v);
            StoredNext(got, o, k, Num(v));
            k, got := k + 1, got + [Num(v)];
          case Text =>
            var follows, overread', text, p' := UnpackText(bs, p);
            if !follows || overread' {
              return overread';
            }
            PrefixedPrepend(got, Str(text), Decode(Rest(0, fmt[i + 1..]), bs[p'..], o[k + 1..]));
            outs[k] := Str(text);
            StoredNext(got, o, k, Str(text));
            p, k, got := p', k + 1, got + [Str(text)];
          case _ =>
        }
        state := 0;
      }
      i := i + 1;
    }
    assert fmt[i..] == [];
    NothingAsked(Rest(state, fmt[i..]), bs[p..], o[k..], state);
    return false;
  }
}
