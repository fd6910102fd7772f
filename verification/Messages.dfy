/** The messages of the protocol (tmcommon.h) as they are packed and unpacked. */
module Messages {
  import opened Bytes
  import opened Format
  import Framing
  import Pack

  const PEER_ONLINE: byte := 1
  const PEER_OFFLINE: byte := 2
  const KNOCK: byte := 3
  const BYE: byte := 4

  const ONLINE_FORMAT := "%b%s%s%L%L"
  const OFFLINE_FORMAT := "%b%L"
  const KNOCK_FORMAT := "%b%s%s%w"
  const BYE_FORMAT := "%b"

  /** What the tracker tells its peers. */
  datatype News = Online(alias: seq<byte>, hostname: seq<byte>, fromaddr: nat, toaddr: nat) | Offline(fromaddr: nat)

  /** What a peer tells the tracker. */
  datatype Request = Knock(alias: seq<byte>, hostname: seq<byte>, listenport: nat) | Bye

  /** One spec at the front of a format. */
  lemma ItemsFront(c: char, rest: string, fmt: string)
    requires fmt == "%" + [c] + rest
    ensures Items(fmt) == [Spec(c)] + Items(rest)
  {
    assert fmt[2..] == rest;
  }

  lemma NumbersLast()
    ensures Items("%w") == [Number(2)] && Items("%L") == [Number(8)] && Items("%L%L") == [Number(8), Number(8)]
    ensures Items(BYE_FORMAT) == [Number(1)]
  {
    assert Items("") == [];
    hide Items;
    ItemsFront('w', "", "%w");
    ItemsFront('b', "", BYE_FORMAT);
    ItemsFront('L', "", "%L");
    ItemsFront('L', "%L", "%L%L");
  }

  lemma KnockFormat()
    ensures Items(KNOCK_FORMAT) == KNOCK_ITEMS
  {
    hide Items;
    NumbersLast();
    ItemsFront('s', "%w", "%s%w");
    ItemsFront('s', "%s%w", "%s%s%w");
    ItemsFront('b', "%s%s%w", KNOCK_FORMAT);
  }

  lemma OnlineFormat()
    ensures Items(ONLINE_FORMAT) == ONLINE_ITEMS
  {
    hide Items;
    NumbersLast();
    ItemsFront('s', "%L%L", "%s%L%L");
    ItemsFront('s', "%s%L%L", "%s%s%L%L");
    ItemsFront('b', "%s%s%L%L", ONLINE_FORMAT);
  }

  lemma Formats()
    ensures Items(ONLINE_FORMAT) == ONLINE_ITEMS
    ensures Items(OFFLINE_FORMAT) == OFFLINE_ITEMS
    ensures Items(KNOCK_FORMAT) == KNOCK_ITEMS
    ensures Items(BYE_FORMAT) == [Number(1)]
  {
    hide Items;
    NumbersLast();
    KnockFormat();
    OnlineFormat();
    ItemsFront('b', "%L", OFFLINE_FORMAT);
  }

  const ONLINE_ITEMS: seq<Item> := [Number(1), Text, Text, Number(8), Number(8)]
  const OFFLINE_ITEMS: seq<Item> := [Number(1), Number(8)]
  const KNOCK_ITEMS: seq<Item> := [Number(1), Text, Text, Number(2)]

  predicate IsOnlineArgs(a: seq<Arg>) {
    |a| == 5 && a[0].Num? && a[1].Str? && a[2].Str? && a[3].Num? && a[4].Num?
  }

  predicate IsKnockArgs(a: seq<Arg>) {
    |a| == 4 && a[0].Num? && a[1].Str? && a[2].Str? && a[3].Num?
  }

  lemma LastNumber(w: Width, a: Arg)
    requires a.Num?
    ensures Matches([Number(w)], [a]) && Encode([Number(w)], [a]) == NumberBytes(a.n, w)
    ensures InRange([Number(w)], [a]) <==> 0 <= a.n < Pow256(w)
  {
    hide Pow256, NumberBytes;
    FieldInFront(Number(w), [], a, []);
    assert NumberBytes(a.n, w) + [] == NumberBytes(a.n, w);
  }

  lemma LastFields(a: Arg, b: Arg)
    requires a.Num? && b.Num?
    ensures Matches([Number(8), Number(8)], [a, b])
    ensures Encode([Number(8), Number(8)], [a, b]) == NumberBytes(a.n, 8) + NumberBytes(b.n, 8)
    ensures InRange([Number(8), Number(8)], [a, b]) <==> 0 <= a.n < Pow256(8) && 0 <= b.n < Pow256(8)
  {
    hide Pow256, NumberBytes;
    LastNumber(8, b);
    FieldInFront(Number(8), [Number(8)], a, [b]);
  }

  lemma OnlineFields(a: seq<Arg>)
    requires IsOnlineArgs(a)
    ensures Matches(ONLINE_ITEMS, a)
    ensures Encode(ONLINE_ITEMS, a)
      == NumberBytes(a[0].n, 1)
         + (TextBytes(a[1].s) + (TextBytes(a[2].s) + (NumberBytes(a[3].n, 8) + NumberBytes(a[4].n, 8))))
    ensures InRange(ONLINE_ITEMS, a)
      <==> 0 <= a[0].n < Pow256(1) && |a[1].s| < 65536 && |a[2].s| < 65536
           && 0 <= a[3].n < Pow256(8) && 0 <= a[4].n < Pow256(8)
  {
    hide Pow256, NumberBytes, TextBytes, Matches, Encode, InRange;
    LastFields(a[3], a[4]);
    FieldInFront(Text, [Number(8), Number(8)], a[2], [a[3], a[4]]);
    FieldInFront(Text, [Text, Number(8), Number(8)], a[1], [a[2], a[3], a[4]]);
    FieldInFront(Number(1), [Text, Text, Number(8), Number(8)], a[0], [a[1], a[2], a[3], a[4]]);
    assert [Number(8), Number(8)] == [Number(8)] + [Number(8)];
    assert [Text] + [Number(8), Number(8)] == [Text, Number(8), Number(8)]
      && [a[2]] + [a[3], a[4]] == [a[2], a[3], a[4]];
    assert [Text] + [Text, Number(8), Number(8)] == [Text, Text, Number(8), Number(8)];
    assert [a[1]] + [a[2], a[3], a[4]] == [a[1], a[2], a[3], a[4]];
    assert [Number(1)] + [Text, Text, Number(8), Number(8)] == ONLINE_ITEMS && [a[0]] + [a[1], a[2], a[3], a[4]] == a;
  }

  lemma OfflineFields(a: Arg, b: Arg)
    requires a.Num? && b.Num?
    ensures Matches(OFFLINE_ITEMS, [a, b]) && Encode(OFFLINE_ITEMS, [a, b]) == NumberBytes(a.n, 1) + NumberBytes(b.n, 8)
    ensures InRange(OFFLINE_ITEMS, [a, b]) <==> 0 <= a.n < Pow256(1) && 0 <= b.n < Pow256(8)
  {
    hide Pow256, NumberBytes;
    LastNumber(8, b);
    FieldInFront(Number(1), [Number(8)], a, [b]);
  }

  lemma KnockFields(a: seq<Arg>)
    requires IsKnockArgs(a)
    ensures Matches(KNOCK_ITEMS, a)
    ensures Encode(KNOCK_ITEMS, a) == NumberBytes(a[0].n, 1)
            + (TextBytes(a[1].s) + (TextBytes(a[2].s) + NumberBytes(a[3].n, 2)))
    ensures InRange(KNOCK_ITEMS, a)
      <==> 0 <= a[0].n < Pow256(1) && |a[1].s| < 65536 && |a[2].s| < 65536 && 0 <= a[3].n < Pow256(2)
  {
    hide Pow256, NumberBytes, TextBytes, Matches, Encode, InRange;
    LastNumber(2, a[3]);
    FieldInFront(Text, [Number(2)], a[2], [a[3]]);
    FieldInFront(Text, [Text, Number(2)], a[1], [a[2], a[3]]);
    FieldInFront(Number(1), [Text, Text, Number(2)], a[0], [a[1], a[2], a[3]]);
    assert [Text] + [Number(2)] == [Text, Number(2)] && [a[2]] + [a[3]] == [a[2], a[3]];
    assert [Text] + [Text, Number(2)] == [Text, Text, Number(2)] && [a[1]] + [a[2], a[3]] == [a[1], a[2], a[3]];
    assert [Number(1)] + [Text, Text, Number(2)] == KNOCK_ITEMS && [a[0]] + [a[1], a[2], a[3]] == a;
  }

  function OnlineArgs(n: News): (a: seq<Arg>)
    requires n.Online?
    ensures IsOnlineArgs(a)
  {
    [Num(PEER_ONLINE as int), Str(n.alias), Str(n.hostname), Num(n.fromaddr), Num(n.toaddr)]
  }

  function OfflineArgs(n: News): seq<Arg>
    requires n.Offline?
  {
    [Num(PEER_OFFLINE as int), Num(n.fromaddr)]
  }

  function KnockArgs(r: Request): (a: seq<Arg>)
    requires r.Knock?
    ensures IsKnockArgs(a)
  {
    [Num(KNOCK as int), Str(r.alias), Str(r.hostname), Num(r.listenport)]
  }

  /** The packed message, without its length. */
  function Body(n: News): (b: seq<byte>) {
    match n
    case Online(_, _, _, _) =>
      OnlineFields(OnlineArgs(n));
      Encode(ONLINE_ITEMS, OnlineArgs(n))
    case Offline(_) =>
      OfflineFields(OfflineArgs(n)[0], OfflineArgs(n)[1]);
      Encode(OFFLINE_ITEMS, OfflineArgs(n))
  }

  /** Names as C strings, short enough together for a message that names them. */
  predicate Nameable(alias: seq<byte>, hostname: seq<byte>) {
    0 !in alias && 0 !in hostname && |alias| + |hostname| <= 65512
  }

  /** The numbers are what a `HostAddr` can be, and the names fit. */
  predicate Sendable(n: News) {
    && n.fromaddr < 0x1_0000_0000_0000
    && (n.Online? ==> n.toaddr < 0x1_0000_0000_0000 && Nameable(n.alias, n.hostname))
  }

  lemma BodyLength(n: News)
    ensures |Body(n)| >= 1 && Body(n)[0] == (if n.Online? then PEER_ONLINE else PEER_OFFLINE)
    ensures n.Offline? ==> |Body(n)| == 9
    ensures n.Online? ==> |Body(n)| == 21 + |n.alias| % 65536 + |n.hostname| % 65536
  {
    match n
    case Online(_, _, _, _) =>
      OnlineFields(OnlineArgs(n));
      OneByte(PEER_ONLINE as int);
    case Offline(_) =>
      OfflineFields(OfflineArgs(n)[0], OfflineArgs(n)[1]);
      OneByte(PEER_OFFLINE as int);
  }

  lemma OneByte(b: int)
    requires 0 <= b < 256
    ensures NumberBytes(b, 1) == [b as byte]
  {
    assert Pow256(1) == 256 * Pow256(0) == 256;
    assert BigEndian(b, 1) == BigEndian(b / 256, 0) + [(b % 256) as byte];
  }

  lemma Pow256Of8()
    ensures Pow256(8) == 0x1_0000_0000_0000_0000 && Pow256(2) == 0x1_0000
  {
    Pow256Of2();
    assert Pow256(4) == 256 * Pow256(3) == 65536 * Pow256(2);
    assert Pow256(6) == 256 * Pow256(5) == 65536 * Pow256(4);
    assert Pow256(8) == 256 * Pow256(7) == 65536 * Pow256(6);
  }

  /** News of names that can be packed at all is sent as a frame if and only if the two
      names have at most 65512 bytes together; other news always is. */
  lemma NewsFramed(n: News)
    requires n.Online? ==> |n.alias| < 65536 && |n.hostname| < 65536
    ensures Pack.Passed(Pack.LengthPatched(Body(n))) == Pack.Frame(Body(n))
      <==> (n.Online? ==> |n.alias| + |n.hostname| <= 65512)
    ensures (n.Online? ==> |n.alias| + |n.hostname| <= 65512) ==> Framing.Sendable(Body(n))
  {
    BodyLength(n);
    Pack.PassedIsFrame(Body(n));
  }

  lemma SmallNumbers()
    ensures Pow256(1) == 256 && Pow256(2) == 0x1_0000 && Pow256(8) == 0x1_0000_0000_0000_0000
  {
    Pow256Of8();
    assert Pow256(1) == 256 * Pow256(0);
  }

  /** Who receives sendable news unpacks exactly what was packed. */
  lemma OnlineRoundTrip(n: News, outs: seq<Arg>)
    requires n.Online? && Sendable(n) && IsOnlineArgs(outs) && outs[1] == outs[2] == Str([])
    ensures Matches(ONLINE_ITEMS, outs) && Decode(ONLINE_ITEMS, Body(n), outs) == Unpacked(OnlineArgs(n), false)
  {
    hide Decode, Encode, InRange, Matches, Pow256;
    SmallNumbers();
    Formats();
    OnlineFields(OnlineArgs(n));
    OnlineFields(outs);
    RoundTripFresh(ONLINE_FORMAT, OnlineArgs(n), outs);
  }

  lemma OfflineRoundTrip(n: News, a: Arg, b: Arg)
    requires n.Offline? && Sendable(n) && a.Num? && b.Num?
    ensures Matches(OFFLINE_ITEMS, [a, b]) && Decode(OFFLINE_ITEMS, Body(n), [a, b]) == Unpacked(OfflineArgs(n), false)
  {
    hide Decode, Encode, InRange, Matches, Pow256;
    SmallNumbers();
    Formats();
    OfflineFields(OfflineArgs(n)[0], OfflineArgs(n)[1]);
    OfflineFields(a, b);
    RoundTripFresh(OFFLINE_FORMAT, OfflineArgs(n), [a, b]);
  }

  /** The packed request, without its length. */
  function RequestBody(r: Request): (b: seq<byte>) {
    match r
    case Knock(_, _, _) =>
      KnockFields(KnockArgs(r));
      Encode(KNOCK_ITEMS, KnockArgs(r))
    case Bye =>
      LastNumber(1, Num(BYE as int));
      Encode([Number(1)], [Num(BYE as int)])
  }

  /** The tracker unpacks exactly what a knocking peer packed. */
  lemma KnockRoundTrip(r: Request, outs: seq<Arg>)
    requires r.Knock? && IsKnockArgs(outs) && outs[1] == outs[2] == Str([])
    requires |r.alias| < 65536 && |r.hostname| < 65536 && r.listenport < 65536
    ensures Matches(KNOCK_ITEMS, outs) && Decode(KNOCK_ITEMS, RequestBody(r), outs) == Unpacked(KnockArgs(r), false)
  {
    hide Decode, Encode, InRange, Matches, Pow256;
    SmallNumbers();
    Formats();
    KnockFields(KnockArgs(r));
    KnockFields(outs);
    RoundTripFresh(KNOCK_FORMAT, KnockArgs(r), outs);
  }

  /** The frame of a KNOCK announces its body, which the tracker then gets, if and only if
      the two names have at most 65528 bytes together. */
  lemma KnockFramed(r: Request)
    requires r.Knock? && |r.alias| < 65536 && |r.hostname| < 65536
    ensures var b := RequestBody(r);
            && (Framing.Sendable(b) <==> |r.alias| + |r.hostname| <= 65528)
            && (Pack.LengthPatched(b)[2..] == b && Value(Pack.LengthPatched(b)[..2]) == |b|
                <==> |r.alias| + |r.hostname| <= 65528)
  {
    hide Encode, Pack.LengthPatched, Value;
    KnockFields(KnockArgs(r));
    Pack.LengthPatchedIsFrame(RequestBody(r));
  }

  lemma RequestNumber(r: Request)
    ensures |RequestBody(r)| >= 1 && RequestBody(r)[0] == (if r.Knock? then KNOCK else BYE)
  {
    if r.Knock? {
      KnockFields(KnockArgs(r));
      OneByte(KNOCK as int);
    } else {
      LastNumber(1, Num(BYE as int));
      OneByte(BYE as int);
    }
  }

  /** A string on the wire: two bytes of length, then the bytes. */
  function WireText(s: seq<byte>): seq<byte> {
    BigEndian(|s|, 2) + s
  }

  /** The news on the wire, byte for byte. */
  lemma NewsOnWire(n: News)
    requires n.fromaddr < 0x1_0000_0000_0000_0000
    requires n.Online? ==>
      n.toaddr < 0x1_0000_0000_0000_0000 && |n.alias| < 65536 && |n.hostname| < 65536
    ensures Body(n) ==
            match n
            case Online(alias, hostname, fromaddr, toaddr) =>
              [1] + WireText(alias) + WireText(hostname) + BigEndian(fromaddr, 8) + BigEndian(toaddr, 8)
            case Offline(fromaddr) => [2] + BigEndian(fromaddr, 8)
  {
    hide Encode, Matches, TextBytes, Pow256, WireText, BigEndian;
    SmallNumbers();
    Writes(n.fromaddr, 8);
    match n
    case Online(alias, hostname, fromaddr, toaddr) =>
      OnlineFields(OnlineArgs(n));
      OneByte(PEER_ONLINE as int);
      Writes(toaddr, 8);
      WireTextIs(alias);
      WireTextIs(hostname);
      Nested([1], WireText(alias), WireText(hostname), BigEndian(fromaddr, 8), BigEndian(toaddr, 8));
    case Offline(fromaddr) =>
      OfflineFields(OfflineArgs(n)[0], OfflineArgs(n)[1]);
      OneByte(PEER_OFFLINE as int);
  }

  lemma Writes(n: nat, w: nat)
    requires n < Pow256(w)
    ensures NumberBytes(n, w) == BigEndian(n, w)
  {
    ModSmall(n, Pow256(w));
  }

  lemma Nested(a: seq<byte>, b: seq<byte>, c: seq<byte>, d: seq<byte>, e: seq<byte>)
    ensures a + (b + (c + (d + e))) == a + b + c + d + e
  {
  }

  lemma WireTextIs(s: seq<byte>)
    requires |s| < 65536
    ensures TextBytes(s) == WireText(s)
  {
    assert s[..|s|] == s;
  }

  /** The requests on the wire, byte for byte. */
  lemma RequestOnWire(r: Request)
    requires r.Knock? ==> |r.alias| < 65536 && |r.hostname| < 65536 && r.listenport < 65536
    ensures RequestBody(r) ==
            match r
            case Knock(alias, hostname, listenport) =>
              [3] + WireText(alias) + WireText(hostname) + BigEndian(listenport, 2)
            case Bye => [4]
  {
    hide Encode, Matches, TextBytes, Pow256, WireText, BigEndian;
    SmallNumbers();
    match r
    case Knock(alias, hostname, listenport) =>
      KnockFields(KnockArgs(r));
      OneByte(KNOCK as int);
      Writes(listenport, 2);
      WireTextIs(alias);
      WireTextIs(hostname);
      Nested([3], WireText(alias), WireText(hostname), BigEndian(listenport, 2), []);
    case Bye =>
      LastNumber(1, Num(BYE as int));
      OneByte(BYE as int);
  }
}
