/** Searching and splitting strings (clib.c). */
module Split {
  import opened Arrays
  import opened Memory

  predicate MatchAt(s: string, i: int, sep: string) {
    sep != [] && 0 <= i && i + |sep| <= |s| && s[i..i + |sep|] == sep
  }

  /** The leftmost match from `start` on, or -1. */
  function Search(s: string, start: nat, sep: string): (r: int)
    ensures r == -1 ==> forall i :: i >= start ==> !MatchAt(s, i, sep)
    ensures r != -1 ==> r >= start && MatchAt(s, r, sep) && forall i :: start <= i < r ==> !MatchAt(s, i, sep)
    decreases |s| - start
  {
    if start >= |s| then -1
    else if MatchAt(s, start, sep) then start
    else Search(s, start + 1, sep)
  }

  /** `StringSearch`. */
  method StringSearch(s: string, start: nat, sep: string) returns (r: int)
    ensures r == Search(s, start, sep)
  {
    var i := start;
    while i < |s|
      invariant start <= i
      invariant forall j :: start <= j < i ==> !MatchAt(s, j, sep)
    {
      var k := 0;
      while k < |sep| && i + k < |s|
        invariant 0 <= k && k <= |sep| && i + k <= |s|
        invariant s[i..i + k] == sep[..k]
        invariant sep != [] ==> k < |sep|
      {
        if s[i + k] != sep[k] {
          break;
        }
        if k == |sep| - 1 {
          assert s[i..i + |sep|] == s[i..i + k] + [s[i + k]] && sep == sep[..k] + [sep[k]];
          assert MatchAt(s, i, sep);
          SearchIs(s, start, sep, i);
          return i;
        }
        assert s[i..i + k + 1] == s[i..i + k] + [s[i + k]] && sep[..k + 1] == sep[..k] + [sep[k]];
        k := k + 1;
      }
      Mismatch(s, i, sep, k);
      i := i + 1;
    }
    SearchIs(s, start, sep, -1);
    return -1;
  }

  lemma Mismatch(s: string, i: nat, sep: string, k: nat)
    requires sep == [] || (i + k >= |s| && k < |sep|) || (k < |sep| && i + k < |s| && s[i + k] != sep[k])
    ensures !MatchAt(s, i, sep)
  {
    if sep != [] && i + |sep| <= |s| {
      assert s[i..i + |sep|][k] == s[i + k];
    }
  }

  /** A match inside a part of a string is a match in the string. */
  lemma PartMatch(s: string, a: nat, b: nat, j: int, sep: string)
    requires a <= b <= |s|
    ensures MatchAt(s[a..b], j, sep) <==> 0 <= j && a + j + |sep| <= b && MatchAt(s, a + j, sep)
  {
    if sep != [] && 0 <= j && a + j + |sep| <= b {
      var part := s[a..b];
      var x, y := part[j..j + |sep|], s[a + j..a + j + |sep|];
      assert forall k :: 0 <= k < |sep| ==> x[k] == y[k];
    }
  }

  /** The leftmost match is the only result with its properties. */
  lemma SearchIs(s: string, start: nat, sep: string, r: int)
    requires r == -1 ==> forall i :: start <= i < |s| ==> !MatchAt(s, i, sep)
    requires r != -1 ==> r >= start && MatchAt(s, r, sep) && forall i :: start <= i < r ==> !MatchAt(s, i, sep)
    ensures r == Search(s, start, sep)
  {
  }

  /** What is found is a place where the non-empty string is, and none is in front of it:
      wherever else the string is, at `i` say, something is found, and not behind `i`. */
  lemma SearchMeans(s: string, start: nat, sep: string, i: nat)
    ensures var r := Search(s, start, sep);
            && (r != -1 ==> sep != [] && start <= r && r + |sep| <= |s| && s[r..r + |sep|] == sep)
            && (sep != [] && start <= i && i + |sep| <= |s| && s[i..i + |sep|] == sep ==> 0 <= r <= i)
  {
    assert sep != [] && i + |sep| <= |s| && s[i..i + |sep|] == sep ==> MatchAt(s, i, sep);
  }

  /** The tokens of `s` from `start` on. */
  function Tokens(s: string, start: nat, sep: string): (toks: seq<string>)
    requires start <= |s|
    ensures toks != []
    decreases |s| - start
  {
    var i := Search(s, start, sep);
    if i == -1 then [s[start..]] else [s[start..i]] + Tokens(s, i + |sep|, sep)
  }

  /** `s` from `start` on is nothing but one-character separators. */
  predicate OnlySeparators(s: string, start: nat, sep: string) {
    |sep| == 1 && forall i :: start <= i < |s| ==> s[i] == sep[0]
  }

  lemma SeparatorHere(s: string, start: nat, sep: string)
    requires start < |s|
    ensures var i := Search(s, start, sep);
            OnlySeparators(s, start, sep) <==> i == start && |sep| == 1 && OnlySeparators(s, start + 1, sep)
  {
    if OnlySeparators(s, start, sep) {
      assert s[start..start + 1] == sep;
    }
  }

  /** There is at most one token more than characters, and that many only where every
      character is a separator. */
  lemma {:induction false} TokensBound(s: string, start: nat, sep: string)
    requires start <= |s|
    ensures |Tokens(s, start, sep)| <= |s| - start + 1
    ensures |Tokens(s, start, sep)| == |s| - start + 1 <==> start == |s| || OnlySeparators(s, start, sep)
    decreases |s| - start
  {
    hide Tokens, Search, MatchAt, OnlySeparators;
    TokensStep(s, start, sep);
    var i := Search(s, start, sep);
    if start < |s| {
      SeparatorHere(s, start, sep);
    }
    if i != -1 {
      TokensBound(s, i + |sep|, sep);
      AtTheEnd(s, sep);
    }
  }

  lemma AtTheEnd(s: string, sep: string)
    ensures OnlySeparators(s, |s|, sep) <==> |sep| == 1
  {
  }

  /** The first pass of `StringSplit`. */
  method CountTokens(s: string, sep: string) returns (ntoks: nat)
    ensures ntoks == |Tokens(s, 0, sep)|
  {
    hide MatchAt, Search, Tokens;
    TokensStep(s, 0, sep);
    var start := 0;
    ntoks := 1;
    while true
      invariant 0 <= start <= |s| && ntoks >= 1
      invariant ntoks - 1 + |Tokens(s, start, sep)| == |Tokens(s, 0, sep)|
      decreases |s| - start
    {
      var i := StringSearch(s, start, sep);
      TokensStep(s, start, sep);
      if i == -1 {
        break;
      }
      ntoks := ntoks + 1;
      start := i + |sep|;
    }
  }

  /** `sizeof(String)`. */
  const STRING_SIZE := 24

  /** The bytes that copies of the tokens take, each with its terminator. */
  function Space(toks: seq<string>): nat {
    if toks == [] then 0 else |toks[0]| + 1 + Space(toks[1..])
  }

  lemma OneMore(n: int, k: int)
    ensures (n - 1) * k == (n - 2) * k + k
  {
  }

  /** That is all of the string but the separators, and the terminators. */
  lemma {:induction false} SpaceOfTokens(s: string, start: nat, sep: string)
    requires start <= |s|
    ensures var toks := Tokens(s, start, sep);
            Space(toks) + (|toks| - 1) * |sep| == |s| - start + |toks|
    decreases |s| - start
  {
    hide Tokens, Search, MatchAt;
    TokensStep(s, start, sep);
    var i, toks := Search(s, start, sep), Tokens(s, start, sep);
    if i == -1 {
      assert toks[1..] == [];
    } else {
      SpaceOfTokens(s, i + |sep|, sep);
      OneMore(|toks|, |sep|);
    }
  }

  /** `StringNewFromBytes` and `ArrayAppend`; `ok` is false where the program aborts. */
  method AddToken(toks: Array<string>, tok: string) returns (ok: bool)
    requires toks.Valid() && toks.arena.Valid()
    modifies toks, toks.items, toks.arena`pos
    ensures toks.Valid() && toks.arena.Valid() && (toks.items == old(toks.items) || fresh(toks.items))
    ensures ok ==> toks.Contents() == old(toks.Contents()) + [tok]
    ensures ok ==> old(toks.len) < old(toks.cap) ==> toks.cap == old(toks.cap)
    ensures old(toks.len) < old(toks.cap) ==> (ok <==> old(toks.arena.pos) + |tok| + 1 <= toks.arena.bs.Length)
    ensures ok && old(toks.len) < old(toks.cap) ==> toks.arena.pos == old(toks.arena.pos) + |tok| + 1
  {
    hide Arena.Valid;
    var off;
    ok, off := toks.arena.Alloc(|tok| + 1);
    if ok {
      ok := toks.Append(tok);
    }
  }

  /** The second pass, into the array made for the tokens. Where it has room for all of
      them, the copies of the tokens are all that is taken; else it may have to grow. */
  method FillTokens(s: string, sep: string, toks: Array<string>) returns (ok: bool)
    requires toks.Valid() && toks.arena.Valid() && toks.Contents() == []
    modifies toks, toks.items, toks.arena`pos
    ensures toks.Valid() && toks.arena.Valid() && (toks.items == old(toks.items) || fresh(toks.items))
    ensures ok ==> toks.Contents() == Tokens(s, 0, sep)
    ensures old(toks.cap) >= |Tokens(s, 0, sep)| ==>
      (ok <==> old(toks.arena.pos) + Space(Tokens(s, 0, sep)) <= toks.arena.bs.Length)
    ensures ok && old(toks.cap) >= |Tokens(s, 0, sep)| ==>
      toks.arena.pos == old(toks.arena.pos) + Space(Tokens(s, 0, sep))
  {
    hide MatchAt, Search, Tokens, Arena.Valid;
    ghost var all := Tokens(s, 0, sep);
    ghost var wide := toks.cap >= |all|;
    var start := 0;
    while true
      invariant 0 <= start <= |s|
      invariant toks.Valid() && toks.arena.Valid() && (toks.items == old(toks.items) || fresh(toks.items))
      invariant toks.Contents() + Tokens(s, start, sep) == all
      invariant wide ==> toks.cap >= |all|
      invariant wide ==> toks.arena.pos + Space(Tokens(s, start, sep)) == old(toks.arena.pos) + Space(all)
      decreases |s| - start
    {
      var i := StringSearch(s, start, sep);
      TokensStep(s, start, sep);
      var len := if i == -1 then |s| - start else i - start;
      ghost var rest, before := Tokens(s, start, sep), toks.Contents();
      assert i == -1 ==> s[start..start + len] == s[start..];
      Regroup(before, rest);
      ok := AddToken(toks, s[start..start + len]);
      if !ok {
        return;
      }
      if i == -1 {
        assert rest == [rest[0]];
        break;
      }
      start := i + |sep|;
    }
  }

  lemma Regroup(before: seq<string>, rest: seq<string>)
    requires rest != []
    ensures before + rest == (before + [rest[0]]) + rest[1..]
  {
  }

  /** `StringSplit`: a first pass counts the tokens, and the array made for that many is
      exactly filled by the second. `ok` is false where the program aborts: the array and
      the copies of the tokens do not fit in the arena, or there are 65536 tokens, which is
      for 65535 separators and nothing else. Then the capacity, 16 bits wide, wraps to 0 and
      the array that is made instead cannot double often enough. */
  method StringSplit(arena: Arena, s: string, sep: string) returns (ok: bool, toks: Array?<string>)
    requires arena.Valid() && |s| < 65536
    modifies arena`pos
    ensures arena.Valid()
    ensures var all := Tokens(s, 0, sep);
            var space := STRING_SIZE * |all| + Space(all);
            && (ok <==> !(|s| == 65535 && OnlySeparators(s, 0, sep)) && old(arena.pos) + space <= arena.bs.Length)
            && (ok ==> arena.pos == old(arena.pos) + space)
    ensures ok ==> toks != null && fresh(toks) && toks.Valid() && fresh(toks.items)
                   && toks.Contents() == Tokens(s, 0, sep)
  {
    hide Tokens, OnlySeparators, Arena.Valid;
    TokensBound(s, 0, sep);
    var ntoks := CountTokens(s, sep);
    ok := false;
    toks := Array.New(arena, ntoks % 65536, STRING_SIZE, "");
    if toks != null {
      ok := FillTokens(s, sep, toks);
    }
  }

  /** The first token, and where the next one starts. */
  lemma TokensStep(s: string, start: nat, sep: string)
    requires start <= |s|
    ensures var i := Search(s, start, sep);
            var toks := Tokens(s, start, sep);
            if i == -1 then toks == [s[start..]]
            else start <= i && i + |sep| <= |s| && |sep| > 0 && toks == [s[start..i]] + Tokens(s, i + |sep|, sep)
                 && toks[0] == s[start..i] && toks[1..] == Tokens(s, i + |sep|, sep)
  {
  }

  function Join(toks: seq<string>, sep: string): string {
    if toks == [] then []
    else if |toks| == 1 then toks[0]
    else toks[0] + sep + Join(toks[1..], sep)
  }

  lemma Cut(s: string, a: nat, b: nat, c: nat)
    requires a <= b <= c <= |s|
    ensures s[a..] == s[a..b] + s[b..c] + s[c..]
  {
  }

  /** The tokens joined by the separator are the string. */
  lemma {:induction false} JoinOfTokens(s: string, start: nat, sep: string)
    requires start <= |s|
    ensures Join(Tokens(s, start, sep), sep) == s[start..]
    decreases |s| - start
  {
    var i := Search(s, start, sep);
    if i != -1 {
      JoinOfTokens(s, i + |sep|, sep);
      var toks := Tokens(s, start, sep);
      assert toks[1..] == Tokens(s, i + |sep|, sep);
      hide Tokens, Search;
      Cut(s, start, i, i + |sep|);
    }
  }

  /** No token contains the separator; each but the last runs up to the leftmost one. */
  predicate Leftmost(toks: seq<string>, sep: string) {
    && (forall k :: 0 <= k < |toks| ==> Search(toks[k], 0, sep) == -1)
    && (forall k :: 0 <= k < |toks| - 1 ==> Search(toks[k] + sep, 0, sep) == |toks[k]|)
  }

  lemma {:induction false} TokensLeftmost(s: string, start: nat, sep: string)
    requires start <= |s| && sep != []
    ensures Leftmost(Tokens(s, start, sep), sep)
    decreases |s| - start
  {
    hide MatchAt, Search;
    var i := Search(s, start, sep);
    TokensStep(s, start, sep);
    FirstToken(s, start, sep);
    if i != -1 {
      TokensLeftmost(s, i + |sep|, sep);
      ConsLeftmost(s[start..i], Tokens(s, i + |sep|, sep), sep);
    }
  }

  lemma ConsLeftmost(tok: string, toks: seq<string>, sep: string)
    requires Leftmost(toks, sep) && toks != [] && Search(tok, 0, sep) == -1 && Search(tok + sep, 0, sep) == |tok|
    ensures Leftmost([tok] + toks, sep)
  {
  }

  /** A part of the string without a match in it. */
  lemma NothingIn(s: string, a: nat, b: nat, sep: string)
    requires a <= b <= |s| && forall j :: a <= j && j + |sep| <= b ==> !MatchAt(s, j, sep)
    ensures Search(s[a..b], 0, sep) == -1
  {
    hide MatchAt, Search;
    forall j
      ensures !MatchAt(s[a..b], j, sep)
    {
      PartMatch(s, a, b, j, sep);
    }
    SearchIs(s[a..b], 0, sep, -1);
  }

  /** A part of the string that ends with its first match. */
  lemma FoundAtEnd(s: string, a: nat, i: nat, sep: string)
    requires a <= i && i + |sep| <= |s| && MatchAt(s, i, sep) && forall j :: a <= j < i ==> !MatchAt(s, j, sep)
    ensures Search(s[a..i + |sep|], 0, sep) == i - a
  {
    hide MatchAt, Search;
    var part := s[a..i + |sep|];
    forall j | 0 <= j < i - a
      ensures !MatchAt(part, j, sep)
    {
      PartMatch(s, a, i + |sep|, j, sep);
    }
    PartMatch(s, a, i + |sep|, i - a, sep);
    SearchIs(part, 0, sep, i - a);
  }

  lemma WithSeparator(s: string, a: nat, i: nat, sep: string)
    requires a <= i && MatchAt(s, i, sep)
    ensures i + |sep| <= |s| && s[a..i] + sep == s[a..i + |sep|]
  {
    assert s[a..i + |sep|] == s[a..i] + s[i..i + |sep|];
  }

  lemma FirstToken(s: string, start: nat, sep: string)
    requires start <= |s| && sep != []
    ensures var i := Search(s, start, sep);
            if i == -1 then Search(s[start..], 0, sep) == -1
            else start <= i && i + |sep| <= |s| && Search(s[start..i], 0, sep) == -1
                 && Search(s[start..i] + sep, 0, sep) == i - start
  {
    hide MatchAt, Search;
    var i := Search(s, start, sep);
    if i == -1 {
      NothingIn(s, start, |s|, sep);
      assert s[start..|s|] == s[start..];
    } else {
      WithSeparator(s, start, i, sep);
      NothingIn(s, start, i, sep);
      FoundAtEnd(s, start, i, sep);
    }
  }

  /** Splitting undoes joining if and only if no token contains the separator and every
      one but the last runs up to the leftmost one. */
  lemma {:induction false} TokensOfJoin(toks: seq<string>, sep: string)
    requires toks != [] && sep != []
    ensures Tokens(Join(toks, sep), 0, sep) == toks <==> Leftmost(toks, sep)
  {
    if Tokens(Join(toks, sep), 0, sep) == toks {
      TokensLeftmost(Join(toks, sep), 0, sep);
    }
    if Leftmost(toks, sep) {
      LeftmostUndone("", toks, sep);
      assert "" + Join(toks, sep) == Join(toks, sep);
    }
  }

  lemma {:induction false} LeftmostUndone(before: string, toks: seq<string>, sep: string)
    requires toks != [] && sep != [] && Leftmost(toks, sep)
    ensures Tokens(before + Join(toks, sep), |before|, sep) == toks
    decreases |toks|
  {
    hide MatchAt, Search, Tokens;
    if |toks| == 1 {
      LastUndone(before, toks[0], sep);
      assert toks == [toks[0]];
    } else {
      var next := before + (toks[0] + sep);
      assert Leftmost(toks[1..], sep);
      FirstUndone(before, toks[0], Join(toks[1..], sep), sep);
      LeftmostUndone(next, toks[1..], sep);
      assert toks == [toks[0]] + toks[1..];
    }
  }

  lemma LastUndone(before: string, tok: string, sep: string)
    requires sep != [] && Search(tok, 0, sep) == -1
    ensures Tokens(before + tok, |before|, sep) == [tok]
  {
    hide MatchAt, Search, Tokens;
    TokensStep(before + tok, |before|, sep);
    SearchSuffix(before, tok, "", sep);
    assert tok + "" == tok;
    assert (before + tok)[|before|..] == tok;
  }

  lemma FirstUndone(before: string, tok: string, rest: string, sep: string)
    requires sep != [] && Search(tok + sep, 0, sep) == |tok|
    ensures var next := before + (tok + sep);
            && before + (tok + sep + rest) == next + rest
            && Tokens(next + rest, |before|, sep) == [tok] + Tokens(next + rest, |next|, sep)
  {
    hide MatchAt, Search, Tokens;
    var s := before + (tok + sep + rest);
    TokensStep(s, |before|, sep);
    SearchSuffix(before, tok + sep, rest, sep);
    assert s[|before|..|before| + |tok|] == tok;
  }

  /** A match cannot go beyond the end. */
  lemma NoRoomToMatch(s: string, i: nat, sep: string)
    requires i + |sep| > |s|
    ensures !MatchAt(s, i, sep)
  {
  }

  /** Where the search in a part finds nothing behind, or a match, so does the search in the whole. */
  lemma SearchSuffix(before: string, part: string, behind: string, sep: string)
    requires sep != [] && (Search(part, 0, sep) == -1 ==> behind == "")
    ensures var r := Search(part, 0, sep);
            Search(before + (part + behind), |before|, sep) == if r == -1 then -1 else |before| + r
  {
    hide MatchAt, Search;
    var s, r := before + (part + behind), Search(part, 0, sep);
    assert s[|before|..|before| + |part|] == part;
    forall j
      ensures MatchAt(part, j, sep) <==> 0 <= j && j + |sep| <= |part| && MatchAt(s, |before| + j, sep)
    {
      PartMatch(s, |before|, |before| + |part|, j, sep);
    }
    forall i | |before| <= i < |s| && (r == -1 || i < |before| + r)
      ensures !MatchAt(s, i, sep)
    {
      assert !MatchAt(part, i - |before|, sep);
      if i + |sep| > |s| {
        NoRoomToMatch(s, i, sep);
      }
    }
    SearchIs(s, |before|, sep, if r == -1 then -1 else |before| + r);
  }
}
