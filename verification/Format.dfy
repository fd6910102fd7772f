/** The wire format of cnet.c as functions: what a format string means, the bytes
    it packs and the values it unpacks. */
module Format {
  import opened Bytes

  type Width = w: nat | w >= 1 witness 1

  /** One element of a format string. `Ignored` is an unsupported `%` spec. */
  datatype Item = Literal(c: char) | Number(width: Width) | Text | Ignored

  /** A packed argument, or the variable an unpacked one is stored in. The bytes of
      a string are those in front of its terminator. */
  datatype Arg = Num(n: int) | Str(s: seq<byte>)

  /** What C functions see of some bytes: those in front of the first terminator. */
  function CString(s: seq<byte>): (r: seq<byte>)
    ensures r <= s && 0 !in r
    ensures r == s <==> 0 !in s
    ensures r != s ==> s[|r|] == 0
  {
    if s == [] || s[0] == 0 then [] else [s[0]] + CString(s[1..])
  }

  /** The bytes in a string variable, and the C string that they are. */
  function BytesOf(a: Arg): seq<byte> {
    if a.Str? then a.s else []
  }

  function TextOf(a: Arg): seq<byte> {
    CString(BytesOf(a))
  }

  function Spec(c: char): Item {
    match c
    case 'b' => Number(1)
    case 'w' => Number(2)
    case 'l' => Number(4)
    case 'L' => Number(8)
    case 's' => Text
    case _ => Ignored
  }

  /** The elements of `fmt`; a dangling `%` has none. */
  function Items(fmt: string): seq<Item> {
    if fmt == [] then []
    else if fmt[0] != '%' then [Literal(fmt[0])] + Items(fmt[1..])
    else if |fmt| == 1 then []
    else [Spec(fmt[1])] + Items(fmt[2..])
  }

  /** Consumes an argument. */
  predicate IsField(item: Item) {
    item.Number? || item.Text?
  }

  /** The arguments are as many, and of the kinds, that the format asks for. */
  predicate Matches(items: seq<Item>, args: seq<Arg>) {
    if items == [] then args == []
    else if IsField(items[0]) then
      args != [] && (items[0].Number? <==> args[0].Num?) && Matches(items[1..], args[1..])
    else Matches(items[1..], args)
  }

  function LiteralByte(c: char): byte {
    (c as int % 256) as byte
  }

  /** A C integer converted to `width` unsigned bytes. */
  function NumberBytes(n: int, width: nat): (s: seq<byte>)
    ensures |s| == width
  {
    BigEndian(n % Pow256(width), width)
  }

  /** The length of a string is packed as an unsigned 16-bit integer, and only as
      many bytes follow as that integer says. */
  function TextBytes(s: seq<byte>): seq<byte> {
    var n := |s| % 65536;
    BigEndian(n, 2) + s[..n]
  }

  function FieldBytes(item: Item, arg: Arg): (s: seq<byte>)
    requires IsField(item) && (item.Number? <==> arg.Num?)
    ensures s != []
  {
    match item
    case Number(w) => NumberBytes(arg.n, w)
    case Text => TextBytes(arg.s)
  }

  function Encode(items: seq<Item>, args: seq<Arg>): seq<byte>
    requires Matches(items, args)
  {
    if items == [] then []
    else if IsField(items[0]) then FieldBytes(items[0], args[0]) + Encode(items[1..], args[1..])
    else if items[0].Literal? then [LiteralByte(items[0].c)] + Encode(items[1..], args)
    else Encode(items[1..], args)
  }

  /** What unpacking leaves in the variables. `overread` says that a string length
      pointed behind the received bytes. */
  datatype Unpacked = Unpacked(outs: seq<Arg>, overread: bool) {
    function Prepend(a: Arg): Unpacked {
      Unpacked([a] + outs, overread)
    }
  }

  /** A number whose bytes end early keeps the bytes that were there, in the high places. */
  function NumberFrom(bs: seq<byte>, width: nat): nat {
    var k := Min(|bs|, width);
    Value(bs[..k]) * Pow256(width - k)
  }

  /** Unpacks `bs` into the variables `outs`. Nothing more is stored once the bytes
      have run out, and a string is stored only if a byte follows its length. */
  function Decode(items: seq<Item>, bs: seq<byte>, outs: seq<Arg>): (u: Unpacked)
    requires Matches(items, outs)
    ensures |u.outs| == |outs|
    decreases |items|
  {
    if items == [] || bs == [] then Unpacked(outs, false)
    else
      match items[0]
      case Literal(_) => Decode(items[1..], bs[1..], outs)
      case Ignored => Decode(items[1..], bs, outs)
      case Number(w) =>
        var v := Num(NumberFrom(bs, w));
        Decode(items[1..], bs[Min(|bs|, w)..], outs[1..]).Prepend(v)
      case Text =>
        if |bs| <= 2 then Unpacked(outs, false)
        else
          var n := Value(bs[..2]);
          if 2 + n > |bs| then Unpacked(outs, true)
          else Decode(items[1..], bs[2 + n..], outs[1..]).Prepend(Str(bs[2..2 + n]))
  }

  function Zeros(n: nat): seq<byte> {
    seq(n, _ => 0)
  }

  lemma {:induction false} ValueOfZeros(n: nat)
    ensures Value(Zeros(n)) == 0
  {
    if n > 0 {
      ValueOfZeros(n - 1);
      assert Zeros(n)[..n - 1] == Zeros(n - 1);
    }
  }

  /** A message that ends within a number leaves the bytes that are there in the high places
      of the variable and zeros below. The fields behind are not stored. */
  lemma EndsInNumber(bs: seq<byte>, w: Width, items: seq<Item>, a: Arg, outs: seq<Arg>)
    requires 0 < |bs| <= w && a.Num? && Matches(items, outs)
    ensures Matches([Number(w)] + items, [a] + outs)
    ensures var u := Decode([Number(w)] + items, bs, [a] + outs);
            && !u.overread && |u.outs| == 1 + |outs| && u.outs[1..] == outs
            && u.outs[0].Num? && u.outs[0].n >= 0 && BigEndian(u.outs[0].n, w) == bs + Zeros(w - |bs|)
  {
    var all := [Number(w)] + items;
    assert all[1..] == items && ([a] + outs)[1..] == outs;
    var zeros := Zeros(w - |bs|);
    ValueSum(bs, zeros);
    ValueOfZeros(w - |bs|);
    BigEndianOfValue(bs + zeros);
    assert bs[..|bs|] == bs && bs[|bs|..] == [];
    assert Decode(items, [], outs) == Unpacked(outs, false);
  }

  /** A string is stored only where a byte follows its length; nothing behind it is, otherwise.
      A length that points behind the message is an overread. */
  lemma EndsInText(bs: seq<byte>, items: seq<Item>, a: Arg, outs: seq<Arg>)
    requires a.Str? && Matches(items, outs)
    ensures Matches([Text] + items, [a] + outs)
    ensures var u := Decode([Text] + items, bs, [a] + outs);
            && (|bs| <= 2 ==> u == Unpacked([a] + outs, false))
            && (|bs| > 2 && 2 + Value(bs[..2]) > |bs| ==> u.overread)
  {
    assert ([Text] + items)[1..] == items && ([a] + outs)[1..] == outs;
  }

  /** How many bytes there are in the strings among the arguments. */
  function TextSize(args: seq<Arg>): nat {
    if args == [] then 0 else |BytesOf(args[0])| + TextSize(args[1..])
  }

  /** Whatever is unpacked, new strings have no more bytes together than the message. */
  lemma {:induction false} DecodedText(items: seq<Item>, bs: seq<byte>, outs: seq<Arg>)
    requires Matches(items, outs)
    ensures TextSize(Decode(items, bs, outs).outs) <= TextSize(outs) + |bs|
    decreases |items|
  {
    if items != [] && bs != [] {
      match items[0]
      case Literal(_) => DecodedText(items[1..], bs[1..], outs);
      case Ignored => DecodedText(items[1..], bs, outs);
      case Number(w) => DecodedText(items[1..], bs[Min(|bs|, w)..], outs[1..]);
      case Text =>
        if |bs| > 2 && 2 + Value(bs[..2]) <= |bs| {
          DecodedText(items[1..], bs[2 + Value(bs[..2])..], outs[1..]);
        }
    }
  }

  /** What is left of an argument after its conversion to the field's type. */
  function Converted(item: Item, arg: Arg): Arg
    requires IsField(item) && (item.Number? <==> arg.Num?)
  {
    match item
    case Number(w) => Num(arg.n % Pow256(w))
    case Text => Str(arg.s[..|arg.s| % 65536])
  }

  function ConvertedArgs(items: seq<Item>, args: seq<Arg>): (r: seq<Arg>)
    requires Matches(items, args)
    ensures |r| == |args|
  {
    if items == [] then []
    else if IsField(items[0]) then [Converted(items[0], args[0])] + ConvertedArgs(items[1..], args[1..])
    else ConvertedArgs(items[1..], args)
  }

  /** Every argument is representable in its field: `0 <= n < 256^width`, `|s| < 65536`. */
  predicate InRange(items: seq<Item>, args: seq<Arg>)
    requires Matches(items, args)
  {
    if items == [] then true
    else if IsField(items[0]) then
      (match items[0]
       case Number(w) => 0 <= args[0].n < Pow256(w)
       case Text => |args[0].s| < 65536)
      && InRange(items[1..], args[1..])
    else InRange(items[1..], args)
  }

  /** The packed bytes end with the length of an empty string. */
  predicate EndsWithEmptyText(items: seq<Item>, args: seq<Arg>)
    requires Matches(items, args)
  {
    if items == [] then false
    else if items[0].Text? then
      (|args[0].s| % 65536 == 0 && Encode(items[1..], args[1..]) == []) || EndsWithEmptyText(items[1..], args[1..])
    else if IsField(items[0]) then EndsWithEmptyText(items[1..], args[1..])
    else EndsWithEmptyText(items[1..], args)
  }

  /** One more field in front. */
  lemma FieldInFront(item: Item, items: seq<Item>, arg: Arg, args: seq<Arg>)
    requires IsField(item) && (item.Number? <==> arg.Num?) && Matches(items, args)
    ensures Matches([item] + items, [arg] + args)
    ensures Encode([item] + items, [arg] + args) == FieldBytes(item, arg) + Encode(items, args)
    ensures InRange([item] + items, [arg] + args)
      <==> (match item case Number(w) => 0 <= arg.n < Pow256(w) case Text => |arg.s| < 65536) && InRange(items, args)
  {
    assert ([item] + items)[1..] == items && ([arg] + args)[1..] == args;
  }

  /** A spec in front of a format. */
  lemma SpecInFront(c: char, rest: string)
    ensures Items("%" + [c] + rest) == [Spec(c)] + Items(rest)
  {
    var fmt := "%" + [c] + rest;
    assert fmt[2..] == rest;
  }

  /** What a number spec packs: the low 1, 2, 4 or 8 bytes of its argument, in front of the rest. */
  lemma PacksNumber(c: char, w: nat, n: int, rest: string, args: seq<Arg>)
    requires (c, w) in {('b', 1), ('w', 2), ('l', 4), ('L', 8)} && Matches(Items(rest), args)
    ensures Matches(Items("%" + [c] + rest), [Num(n)] + args)
    ensures Encode(Items("%" + [c] + rest), [Num(n)] + args)
            == BigEndian(n % Pow256(w), w) + Encode(Items(rest), args)
  {
    SpecInFront(c, rest);
    FieldInFront(Spec(c), Items(rest), Num(n), args);
  }

  /** A string spec packs two bytes of length, modulo 65536, and as many bytes. */
  lemma PacksText(s: seq<byte>, rest: string, args: seq<Arg>)
    requires Matches(Items(rest), args)
    ensures Matches(Items("%s" + rest), [Str(s)] + args)
    ensures Encode(Items("%s" + rest), [Str(s)] + args)
            == BigEndian(|s| % 65536, 2) + s[..|s| % 65536] + Encode(Items(rest), args)
  {
    assert "%s" + rest == "%" + ['s'] + rest;
    SpecInFront('s', rest);
    FieldInFront(Text, Items(rest), Str(s), args);
  }

  /** Any other spec packs nothing and asks for nothing; any other character packs itself. */
  lemma PacksOther(c: char, rest: string, args: seq<Arg>)
    requires Matches(Items(rest), args)
    ensures c !in "bwlLs" ==>
      && Matches(Items("%" + [c] + rest), args)
      && Encode(Items("%" + [c] + rest), args) == Encode(Items(rest), args)
    ensures c != '%' ==>
      && Matches(Items([c] + rest), args)
      && Encode(Items([c] + rest), args) == [(c as int % 256) as byte] + Encode(Items(rest), args)
  {
    SpecInFront(c, rest);
    assert ([Spec(c)] + Items(rest))[1..] == Items(rest);
    assert ([c] + rest)[1..] == rest;
    assert ([Literal(c)] + Items(rest))[1..] == Items(rest);
  }

  lemma {:induction false} EndsWithEmptyTextHasArgs(items: seq<Item>, args: seq<Arg>)
    requires Matches(items, args) && EndsWithEmptyText(items, args)
    ensures args != []
  {
    if !IsField(items[0]) {
      EndsWithEmptyTextHasArgs(items[1..], args);
    }
  }

  /** Matching argument lists are equally long. */
  lemma {:induction false} MatchesLength(items: seq<Item>, args: seq<Arg>, outs: seq<Arg>)
    requires Matches(items, args) && Matches(items, outs)
    ensures |args| == |outs|
  {
    if items == [] {
    } else if IsField(items[0]) {
      MatchesLength(items[1..], args[1..], outs[1..]);
    } else {
      MatchesLength(items[1..], args, outs);
    }
  }

  /** Where nothing is packed, no argument is asked for. */
  lemma {:induction false} NothingPacked(items: seq<Item>, args: seq<Arg>)
    requires Matches(items, args) && Encode(items, args) == []
    ensures args == []
  {
    if items != [] && !IsField(items[0]) {
      NothingPacked(items[1..], args);
    }
  }

  lemma NumberValue(n: int, w: nat)
    ensures Value(NumberBytes(n, w)) == n % Pow256(w)
  {
    ModRange(n, Pow256(w));
    ValueOfBigEndian(n % Pow256(w), w);
    ModSmall(n % Pow256(w), Pow256(w));
  }

  lemma NumberRoundTrip(bs: seq<byte>, rest: seq<byte>)
    ensures NumberFrom(bs + rest, |bs|) == Value(bs)
    ensures (bs + rest)[Min(|bs + rest|, |bs|)..] == rest
  {
    assert (bs + rest)[..|bs|] == bs;
    assert Pow256(0) == 1;
  }

  lemma TextRoundTrip(s: seq<byte>, rest: seq<byte>)
    ensures var bs, n := TextBytes(s) + rest, |s| % 65536;
            && |bs| == 2 + n + |rest| && Value(bs[..2]) == n
            && bs[2..2 + n] == s[..n] && bs[2 + n..] == rest
  {
    var bs, n := TextBytes(s) + rest, |s| % 65536;
    hide BigEndian, Value;
    assert bs == BigEndian(n, 2) + (s[..n] + rest);
    ValueInFront(n, s[..n] + rest);
  }

  lemma SameHead(a: Arg, s: seq<Arg>, t: seq<Arg>)
    ensures [a] + s == [a] + t <==> s == t
  {
    assert ([a] + s)[1..] == s && ([a] + t)[1..] == t;
  }

  /** Unpacking what was packed never reads behind the end, and gives back every
      argument as converted by its field, if and only if the variable of a string
      that is packed last and is empty was empty before: unpacking stops in front of it. */
  lemma {:induction false} RoundTrip(items: seq<Item>, args: seq<Arg>, outs: seq<Arg>)
    requires Matches(items, args) && Matches(items, outs)
    ensures var u := Decode(items, Encode(items, args), outs);
            && !u.overread && |outs| == |args|
            && (EndsWithEmptyText(items, args) ==> outs != [])
            && (u.outs == ConvertedArgs(items, args)
                <==> (EndsWithEmptyText(items, args) ==> outs[|outs| - 1] == Str([])))
    decreases |items|
  {
    hide NumberBytes, NumberFrom, TextBytes, Value, Pow256;
    MatchesLength(items, args, outs);
    if EndsWithEmptyText(items, args) {
      EndsWithEmptyTextHasArgs(items, args);
    }
    if Encode(items, args) == [] {
      NothingPacked(items, args);
    } else if items[0].Number? {
      RoundTripNumber(items, args, outs);
    } else if items[0].Text? {
      RoundTripText(items, args, outs);
    } else if items[0].Literal? {
      RoundTrip(items[1..], args, outs);
      assert Encode(items, args)[1..] == Encode(items[1..], args);
    } else {
      RoundTrip(items[1..], args, outs);
    }
  }

  lemma {:induction false} RoundTripNumber(items: seq<Item>, args: seq<Arg>, outs: seq<Arg>)
    requires Matches(items, args) && Matches(items, outs)
    requires items != [] && items[0].Number? && |args| == |outs|
    requires EndsWithEmptyText(items, args) ==> outs != []
    ensures var u := Decode(items, Encode(items, args), outs);
            && !u.overread
            && (u.outs == ConvertedArgs(items, args)
                <==> (EndsWithEmptyText(items, args) ==> outs[|outs| - 1] == Str([])))
    decreases |items|, 0
  {
    hide NumberBytes, NumberFrom, Value, Pow256;
    var bs, rest := NumberBytes(args[0].n, items[0].width), Encode(items[1..], args[1..]);
    RoundTrip(items[1..], args[1..], outs[1..]);
    NumberRoundTrip(bs, rest);
    NumberValue(args[0].n, items[0].width);
    SameHead(Converted(items[0], args[0]), Decode(items[1..], rest, outs[1..]).outs,
             ConvertedArgs(items[1..], args[1..]));
  }

  lemma {:induction false} RoundTripText(items: seq<Item>, args: seq<Arg>, outs: seq<Arg>)
    requires Matches(items, args) && Matches(items, outs)
    requires items != [] && items[0].Text? && |args| == |outs|
    requires EndsWithEmptyText(items, args) ==> outs != []
    ensures var u := Decode(items, Encode(items, args), outs);
            && !u.overread
            && (u.outs == ConvertedArgs(items, args)
                <==> (EndsWithEmptyText(items, args) ==> outs[|outs| - 1] == Str([])))
    decreases |items|, 0
  {
    hide TextBytes, Value, Pow256;
    var rest := Encode(items[1..], args[1..]);
    TextRoundTrip(args[0].s, rest);
    if |args[0].s| % 65536 == 0 && rest == [] {
      NothingPacked(items[1..], args[1..]);
      assert outs == [outs[0]];
      assert ConvertedArgs(items, args) == [Str([])];
    } else {
      RoundTrip(items[1..], args[1..], outs[1..]);
      SameHead(Converted(items[0], args[0]), Decode(items[1..], rest, outs[1..]).outs,
               ConvertedArgs(items[1..], args[1..]));
    }
  }

  lemma ConvertedSame(item: Item, arg: Arg)
    requires IsField(item) && (item.Number? <==> arg.Num?)
    ensures Converted(item, arg) == arg
      <==> match item case Number(w) => 0 <= arg.n < Pow256(w) case Text => |arg.s| < 65536
  {
    match item
    case Number(w) =>
      ModRange(arg.n, Pow256(w));
      if 0 <= arg.n < Pow256(w) {
        ModSmall(arg.n, Pow256(w));
      }
    case Text =>
      if |arg.s| < 65536 {
        assert arg.s[..|arg.s| % 65536] == arg.s;
      }
  }

  lemma SameCons(a: Arg, s: seq<Arg>, b: Arg, t: seq<Arg>)
    ensures [a] + s == [b] + t <==> a == b && s == t
  {
    assert ([a] + s)[0] == a && ([b] + t)[0] == b;
    assert ([a] + s)[1..] == s && ([b] + t)[1..] == t;
  }

  /** The conversion keeps the arguments if and only if they are in range. */
  lemma {:induction false} ConvertedInRange(items: seq<Item>, args: seq<Arg>)
    requires Matches(items, args)
    ensures ConvertedArgs(items, args) == args <==> InRange(items, args)
    decreases |items|
  {
    if items == [] {
    } else if IsField(items[0]) {
      ConvertedInRange(items[1..], args[1..]);
      ConvertedSame(items[0], args[0]);
      assert args == [args[0]] + args[1..];
      hide Converted, Pow256;
      SameCons(Converted(items[0], args[0]), ConvertedArgs(items[1..], args[1..]), args[0], args[1..]);
    } else {
      ConvertedInRange(items[1..], args);
    }
  }

  /** As every caller unpacks, into strings that start empty: the arguments come back. */
  lemma RoundTripFresh(fmt: string, args: seq<Arg>, outs: seq<Arg>)
    requires Matches(Items(fmt), args) && Matches(Items(fmt), outs)
    requires InRange(Items(fmt), args)
    requires forall a :: a in outs && a.Str? ==> a.s == []
    ensures Decode(Items(fmt), Encode(Items(fmt), args), outs) == Unpacked(args, false)
  {
    RoundTrip(Items(fmt), args, outs);
    ConvertedInRange(Items(fmt), args);
    if EndsWithEmptyText(Items(fmt), args) {
      EndsWithTextKind(Items(fmt), args, outs);
    }
  }

  lemma {:induction false} EndsWithTextKind(items: seq<Item>, args: seq<Arg>, outs: seq<Arg>)
    requires Matches(items, args) && Matches(items, outs) && EndsWithEmptyText(items, args)
    ensures outs != [] && outs[|outs| - 1].Str?
    decreases |items|
  {
    if !IsField(items[0]) {
      EndsWithTextKind(items[1..], args, outs);
    } else if EndsWithEmptyText(items[1..], args[1..]) {
      EndsWithTextKind(items[1..], args[1..], outs[1..]);
    } else {
      NothingPacked(items[1..], args[1..]);
      MatchesLength(items[1..], args[1..], outs[1..]);
    }
  }
}
