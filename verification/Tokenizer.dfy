/** The command line of the client's shell (tm.c): words of letters and digits. */
module Tokenizer {
  import opened Arrays
  import opened Memory
  import Split

  /** `isalnum` and `isspace` of the C locale. */
  predicate IsAlnum(c: char) {
    '0' <= c <= '9' || 'A' <= c <= 'Z' || 'a' <= c <= 'z'
  }

  predicate IsSpace(c: char) {
    c == ' ' || '\t' <= c <= '\r'
  }

  /** `s` without the characters that are neither. */
  function Cleaned(s: string): string {
    if s == [] then []
    else if IsAlnum(s[0]) || IsSpace(s[0]) then [s[0]] + Cleaned(s[1..])
    else Cleaned(s[1..])
  }

  /** The length of the run of non-space characters at the start. */
  function RunLength(s: string): (n: nat)
    ensures n <= |s|
    ensures forall i :: 0 <= i < n ==> !IsSpace(s[i])
    ensures n < |s| ==> IsSpace(s[n])
  {
    if s == [] || IsSpace(s[0]) then 0 else 1 + RunLength(s[1..])
  }

  /** The maximal non-empty runs of non-space characters. */
  function Words(s: string): (ws: seq<string>)
    decreases |s|
  {
    if s == [] then []
    else if IsSpace(s[0]) then Words(s[1..])
    else
      var n := RunLength(s);
      [s[..n]] + Words(s[n..])
  }

  /** The characters that are kept, by their codes: digits and letters, and the six spaces. */
  lemma Characters(c: char)
    ensures var n := c as int;
            && (IsAlnum(c) <==> 48 <= n <= 57 || 65 <= n <= 90 || 97 <= n <= 122)
            && (IsSpace(c) <==> n == 32 || 9 <= n <= 13)
  {
  }

  /** Cleaning keeps or drops each character for itself. */
  lemma {:induction false} CleanedSum(a: string, b: string)
    ensures Cleaned(a + b) == Cleaned(a) + Cleaned(b)
    ensures |b| == 1 ==> Cleaned(b) == if IsAlnum(b[0]) || IsSpace(b[0]) then b else []
  {
    if a == [] {
      assert a + b == b;
      assert |b| == 1 ==> b[1..] == [] && b == [b[0]];
    } else {
      assert (a + b)[1..] == a[1..] + b;
      CleanedSum(a[1..], b);
    }
  }

  /** A string without spaces is one word, if it is not empty. */
  lemma WordsWhole(a: string)
    requires forall i :: 0 <= i < |a| ==> !IsSpace(a[i])
    ensures Words(a) == if a == [] then [] else [a]
  {
    if a != [] {
      RunIs(a, |a|);
      assert a[..|a|] == a && a[|a|..] == [];
    }
  }

  /** A space separates words: those in front of it, then those behind it. */
  lemma {:induction false} WordsAround(a: string, c: char, b: string)
    requires IsSpace(c)
    ensures Words(a + [c] + b) == Words(a) + Words(b)
    decreases |a|
  {
    var s := a + [c] + b;
    if a == [] {
      assert s[1..] == b;
    } else if IsSpace(a[0]) {
      assert s[1..] == a[1..] + [c] + b;
      WordsAround(a[1..], c, b);
    } else {
      var n := RunLength(a);
      assert forall i :: 0 <= i < n ==> s[i] == a[i];
      assert n < |a| ==> s[n] == a[n];
      assert n == |a| ==> s[n] == c;
      RunIs(s, n);
      assert s[..n] == a[..n] && s[n..] == a[n..] + [c] + b;
      WordsAround(a[n..], c, b);
    }
  }

  const APPEND_LIMIT := 65535

  /** `StringAppend`: nothing happens where the length would overflow 16 bits. */
  function Appended(s: string, t: string): string {
    if |s| + |t| + 1 > APPEND_LIMIT then s else s + t
  }

  /** A token as it is stored, character by character. */
  function Stored(tok: string): (r: string)
    ensures |tok| < APPEND_LIMIT ==> r == tok
  {
    if |tok| < APPEND_LIMIT then tok else tok[..APPEND_LIMIT - 1]
  }

  function StoredAll(toks: seq<string>): (r: seq<string>)
    ensures |r| == |toks|
  {
    seq(|toks|, i requires 0 <= i < |toks| => Stored(toks[i]))
  }

  lemma StoredNext(tok: string, c: char)
    ensures Appended(Stored(tok), [c]) == Stored(tok + [c])
  {
  }

  datatype Scan = Space | Char

  /** What is still to come, behind the characters of the current token. */
  function Rest(tok: string, s: string): seq<string> {
    Words(tok + Cleaned(s))
  }

  predicate AllAlnum(s: string) {
    forall i :: 0 <= i < |s| ==> IsAlnum(s[i])
  }

  lemma WordsRun(tok: string, rest: string)
    requires tok != [] && AllAlnum(tok) && (rest == [] || IsSpace(rest[0]))
    ensures Words(tok + rest) == [tok] + Words(rest)
  {
    var s := tok + rest;
    RunIs(s, |tok|);
    assert s[..|tok|] == tok && s[|tok|..] == rest;
  }

  lemma {:induction false} RunIs(s: string, n: nat)
    requires n <= |s| && (forall i :: 0 <= i < n ==> !IsSpace(s[i])) && (n < |s| ==> IsSpace(s[n]))
    ensures RunLength(s) == n
    decreases n
  {
    if n > 0 {
      RunIs(s[1..], n - 1);
    }
  }

  lemma CleanedAt(s: string, i: nat)
    requires i < |s|
    ensures Cleaned(s[i..])
      == if IsAlnum(s[i]) || IsSpace(s[i]) then [s[i]] + Cleaned(s[i + 1..]) else Cleaned(s[i + 1..])
  {
    assert s[i..][1..] == s[i + 1..];
  }

  /** What `StringAppend` takes from the arena. */
  function AppendSpace(s: string, t: string): nat {
    if |s| + |t| + 1 > APPEND_LIMIT then 0 else |s| + |t| + 1
  }

  /** `StringAppend`: the old string stays behind in the arena. `ok` is false where the
      program aborts. */
  method StringAppend(arena: Arena, s: string, t: string) returns (ok: bool, r: string)
    requires arena.Valid()
    modifies arena`pos
    ensures arena.Valid()
    ensures ok <==> old(arena.pos) + AppendSpace(s, t) <= arena.bs.Length
    ensures ok ==> r == Appended(s, t) && arena.pos == old(arena.pos) + AppendSpace(s, t)
    ensures |s| + |t| + 1 > 65535 ==> ok && r == s && arena.pos == old(arena.pos)
    ensures |s| + |t| + 1 <= 65535 ==>
      (ok <==> old(arena.pos) + |s| + |t| + 1 <= arena.bs.Length) && (ok ==> r == s + t)
  {
    ok, r := true, s;
    if |s| + |t| + 1 > APPEND_LIMIT {
      return;
    }
    var off;
    ok, off := arena.Alloc(|s| + |t| + 1);
    r := s + t;
  }

  /** What a string of `n` characters takes when they are appended one by one. */
  function CharsSpace(n: nat): nat {
    if n == 0 then 0 else CharsSpace(n - 1) + n + 1
  }

  lemma {:induction false} CharsSpaceIs(n: nat)
    ensures 2 * CharsSpace(n) == n * (n + 3)
  {
    if n > 0 {
      CharsSpaceIs(n - 1);
    }
  }

  lemma {:induction false} CharsSpaceMonotone(m: nat, n: nat)
    requires m <= n
    ensures CharsSpace(m) <= CharsSpace(n)
  {
    if m < n {
      CharsSpaceMonotone(m, n - 1);
    }
  }

  function StoredSpace(toks: seq<string>): nat {
    if toks == [] then 0 else CharsSpace(|Stored(toks[0])|) + StoredSpace(toks[1..])
  }

  lemma {:induction false} StoredSpaceOfJoin(a: seq<string>, b: seq<string>)
    ensures StoredSpace(a + b) == StoredSpace(a) + StoredSpace(b)
  {
    if a == [] {
      assert a + b == b;
    } else {
      assert (a + b)[1..] == a[1..] + b;
      StoredSpaceOfJoin(a[1..], b);
    }
  }

  /** The array starts with 16 items. */
  const FIRST_TOKENS := 16

  /** What the arrays take in which there was room for `n` tokens, one after the other. */
  function ArraySpace(n: nat): nat {
    Split.STRING_SIZE * (2 * Grown(FIRST_TOKENS, n) - FIRST_TOKENS)
  }

  /** What `tokenize_command` takes from the arena for these tokens. */
  function TokenSpace(toks: seq<string>): nat {
    ArraySpace(|toks|) + StoredSpace(toks)
  }

  /** The tokens so far and a beginning of the next one take no more than all. */
  lemma PartSpace(words: seq<string>, tok: string, rest: seq<string>)
    requires tok == "" || (rest != [] && tok <= rest[0])
    ensures TokenSpace(words) + CharsSpace(|Stored(tok)|) <= TokenSpace(words + rest)
  {
    GrownMonotone(FIRST_TOKENS, |words|, |words + rest|);
    StoredSpaceOfJoin(words, rest);
    if tok != "" {
      CharsSpaceMonotone(|Stored(tok)|, |Stored(rest[0])|);
    }
  }

  lemma CharSpace(tok: string, c: char)
    ensures CharsSpace(|Stored(tok + [c])|) == CharsSpace(|Stored(tok)|) + AppendSpace(Stored(tok), [c])
  {
  }

  /** The current token is what comes next, or a beginning of it. */
  lemma RestStarts(tok: string, s: string)
    requires tok != "" && AllAlnum(tok)
    ensures Rest(tok, s) != [] && tok <= Rest(tok, s)[0]
  {
    var all := tok + Cleaned(s);
    hide Cleaned;
    assert forall i :: 0 <= i < |tok| ==> all[i] == tok[i];
    var n := RunLength(all);
    assert n >= |tok|;
    assert all[..n][..|tok|] == tok;
  }

  const MOST_TOKENS := 32768

  /** `tokenize_command`: the words of the cleaned command, each as far as it can be stored.
      `ok` is false where the program aborts: the arena has no room for them, or there are
      more than the token array, which starts with 16 items and doubles, can have with its
      16-bit capacity. */
  method TokenizeCommand(arena: Arena, cmd: string) returns (ok: bool, tokens: seq<string>)
    requires arena.Valid()
    modifies arena`pos
    ensures arena.Valid()
    ensures var all := Words(Cleaned(cmd));
            && (ok <==> |all| <= MOST_TOKENS && old(arena.pos) + TokenSpace(all) <= arena.bs.Length)
            && (ok ==> tokens == StoredAll(all) && arena.pos == old(arena.pos) + TokenSpace(all))
  {
    hide Stored, StoredAll, Appended, AppendSpace, Words, Cleaned, IsAlnum, IsSpace;
    hide TokenSpace, CharsSpace, Arena.Valid;
    ghost var all := Words(Cleaned(cmd));
    var state, token := Space, "";
    ghost var full, words: seq<string> := "", [];
    ok, tokens := false, [];
    Start(cmd);
    var list := Array.New(arena, FIRST_TOKENS, Split.STRING_SIZE, "");
    if list == null {
      return;
    }
    var i := 0;
    assert cmd[0..] == cmd;
    assert Held(list, words);
    hide Rest, Held, Array.Valid;
    while i < |cmd|
      invariant 0 <= i <= |cmd|
      invariant arena.Valid() && Held(list, words) && list.arena == arena && fresh(list) && fresh(list.items)
      invariant token == Stored(full) && AllAlnum(full) && (state == Space <==> full == [])
      invariant words + Rest(full, cmd[i..]) == all
      invariant arena.pos == old(arena.pos) + TokenSpace(words) + CharsSpace(|Stored(full)|)
    {
      var ch := cmd[i];
      RestStep(full, cmd, i);
      if IsAlnum(ch) {
        StoredNext(full, ch);
        CharSpace(full, ch);
        RestStarts(full + [ch], cmd[i + 1..]);
        PartSpace(words, full + [ch], Rest(full + [ch], cmd[i + 1..]));
        ok, token := StringAppend(arena, token, [ch]);
        if !ok {
          return;
        }
        full := full + [ch];
        state := Char;
      } else if IsSpace(ch) {
        if state == Char {
          MoreWords(words, full, Rest("", cmd[i + 1..]));
          MoreSpace(words, full);
          PartSpace(words + [full], "", Rest("", cmd[i + 1..]));
          ok := AddToken(list, token, words, full);
          if !ok {
            return;
          }
          words := words + [full];
          token, full := "", "";
          state := Space;
        }
      }
      i := i + 1;
    }
    RestAtEnd(full, cmd);
    if state == Char {
      MoreWords(words, full, []);
      MoreSpace(words, full);
      PartSpace(words + [full], "", []);
      ok := AddToken(list, token, words, full);
      if !ok {
        return;
      }
      words := words + [full];
    }
    arena.Within();
    HeldTokens(list, words);
    assert words == all;
    ok, tokens := true, list.Contents();
  }

  lemma Start(cmd: string)
    ensures Stored("") == "" && CharsSpace(0) == 0 && Rest("", cmd) == Words(Cleaned(cmd))
    ensures Split.STRING_SIZE * FIRST_TOKENS == TokenSpace([]) <= TokenSpace(Words(Cleaned(cmd)))
  {
    assert "" + Cleaned(cmd) == Cleaned(cmd);
    assert [] + Words(Cleaned(cmd)) == Words(Cleaned(cmd));
    PartSpace([], "", Words(Cleaned(cmd)));
  }

  /** The scratch arena of the client's shell. */
  const SHELL_SCRATCH := 4096

  /** A command of one token fits in it if and only if it has at most 84 characters. */
  lemma OneToken(tok: string)
    requires tok != "" && AllAlnum(tok)
    ensures Words(Cleaned(tok)) == [tok]
    ensures TokenSpace(Words(Cleaned(tok))) <= SHELL_SCRATCH <==> |tok| <= 84
  {
    CleanedKeeps(tok);
    WordsRun(tok, "");
    assert tok + "" == tok;
    CharsSpaceIs(84);
    CharsSpaceIs(85);
    var n := |Stored(tok)|;
    if n <= 84 {
      CharsSpaceMonotone(n, 84);
    } else {
      CharsSpaceMonotone(85, n);
    }
    assert StoredSpace([tok]) == CharsSpace(n) + StoredSpace([]);
  }

  /** The array has these tokens, as far as they can be stored. */
  predicate Held(list: Array<string>, words: seq<string>)
    reads list, list.items
  {
    && list.Valid() && list.Contents() == StoredAll(words)
    && list.itemsize == Split.STRING_SIZE && list.cap == Grown(FIRST_TOKENS, |words|) && Doubled(list.cap)
  }

  /** The capacities that doubling 16 in 16 bits can reach. */
  predicate Doubled(cap: nat) {
    cap in {16, 32, 64, 128, 256, 512, 1024, 2048, 4096, 8192, 16384, 32768}
  }

  lemma HeldTokens(list: Array<string>, words: seq<string>)
    requires Held(list, words)
    ensures list.Valid() && list.Contents() == StoredAll(words) && |words| <= MOST_TOKENS
  {
  }

  method AddToken(list: Array<string>, token: string, ghost words: seq<string>, ghost full: string)
    returns (ok: bool)
    requires Held(list, words) && token == Stored(full) && list.arena.Valid()
    modifies list, list.items, list.arena`pos
    ensures list.arena.Valid() && (list.items == old(list.items) || fresh(list.items))
    ensures var more := ArraySpace(|words| + 1) - ArraySpace(|words|);
            && (ok <==> |words| < MOST_TOKENS && old(list.arena.pos) + more <= list.arena.bs.Length)
            && (ok ==> Held(list, words + [full]) && list.arena.pos == old(list.arena.pos) + more)
  {
    hide Arena.Valid, Stored;
    GrownTwice(FIRST_TOKENS, |words|, |words| + 1);
    MoreWords(words, full, []);
    ok := list.Append(token);
  }

  lemma MoreSpace(words: seq<string>, full: string)
    ensures TokenSpace(words + [full])
            == TokenSpace(words) + CharsSpace(|Stored(full)|) + ArraySpace(|words| + 1) - ArraySpace(|words|)
  {
    StoredSpaceOfJoin(words, [full]);
    assert StoredSpace([full]) == CharsSpace(|Stored(full)|) + StoredSpace([]);
  }

  lemma MoreWords(words: seq<string>, full: string, rest: seq<string>)
    ensures words + ([full] + rest) == (words + [full]) + rest
    ensures StoredAll(words + [full]) == StoredAll(words) + [Stored(full)]
  {
  }

  lemma RestAtEnd(tok: string, cmd: string)
    requires AllAlnum(tok)
    ensures Rest(tok, cmd[|cmd|..]) == if tok == [] then [] else [tok]
  {
    assert cmd[|cmd|..] == [] && tok + [] == tok;
    if tok != [] {
      WordsRun(tok, "");
    }
  }

  /** What is still to come behind one more character. */
  lemma RestStep(tok: string, cmd: string, i: nat)
    requires i < |cmd| && AllAlnum(tok)
    ensures var ch := cmd[i];
            Rest(tok, cmd[i..])
              == if IsAlnum(ch) then Rest(tok + [ch], cmd[i + 1..])
                 else if !IsSpace(ch) then Rest(tok, cmd[i + 1..])
                 else if tok == [] then Rest("", cmd[i + 1..])
                 else [tok] + Rest("", cmd[i + 1..])
    ensures IsAlnum(cmd[i]) ==> AllAlnum(tok + [cmd[i]])
  {
    var ch, rest := cmd[i], cmd[i + 1..];
    CleanedAt(cmd, i);
    hide Words, Cleaned;
    if IsAlnum(ch) {
      assert tok + ([ch] + Cleaned(rest)) == (tok + [ch]) + Cleaned(rest);
    } else if IsSpace(ch) {
      SpaceEnds(tok, ch, rest);
    }
  }

  /** A space ends the current token, if there is one. */
  lemma SpaceEnds(tok: string, ch: char, rest: string)
    requires IsSpace(ch) && AllAlnum(tok)
    ensures var s := [ch] + Cleaned(rest);
            Words(tok + s) == if tok == [] then Rest("", rest) else [tok] + Rest("", rest)
  {
    var s := [ch] + Cleaned(rest);
    assert s[1..] == Cleaned(rest) && "" + Cleaned(rest) == Cleaned(rest);
    if tok == [] {
      assert tok + s == s;
    } else {
      WordsRun(tok, s);
    }
  }

  /** Tokens as `tokenize_command` makes them. */
  predicate AreTokens(toks: seq<string>) {
    forall k :: 0 <= k < |toks| ==> toks[k] != [] && AllAlnum(toks[k])
  }

  predicate AlnumOrSpace(s: string) {
    forall i :: 0 <= i < |s| ==> IsAlnum(s[i]) || IsSpace(s[i])
  }

  lemma {:induction false} CleanedChars(s: string)
    ensures AlnumOrSpace(Cleaned(s))
  {
    if s != [] {
      CleanedChars(s[1..]);
    }
  }

  lemma {:induction false} CleanedKeeps(s: string)
    requires AlnumOrSpace(s)
    ensures Cleaned(s) == s
  {
    if s != [] {
      CleanedKeeps(s[1..]);
    }
  }

  lemma {:induction false} WordsAreTokens(s: string)
    requires AlnumOrSpace(s)
    ensures AreTokens(Words(s))
    decreases |s|
  {
    if s != [] {
      if IsSpace(s[0]) {
        WordsAreTokens(s[1..]);
      } else {
        var n := RunLength(s);
        WordsAreTokens(s[n..]);
        forall i | 0 <= i < n
          ensures IsAlnum(s[..n][i])
        {
          assert !IsSpace(s[i]);
        }
      }
    }
  }

  /** Tokens joined by spaces are what splitting at the spaces gives back. */
  lemma {:induction false} WordsOfJoin(toks: seq<string>)
    requires AreTokens(toks)
    ensures Words(Split.Join(toks, " ")) == toks && AlnumOrSpace(Split.Join(toks, " "))
  {
    if toks != [] {
      assert AllAlnum(toks[0]);
      if |toks| == 1 {
        WordsRun(toks[0], "");
        assert toks[0] + "" == toks[0];
      } else {
        var rest := Split.Join(toks[1..], " ");
        WordsOfJoin(toks[1..]);
        WordsRun(toks[0], " " + rest);
        assert (" " + rest)[1..] == rest;
        assert toks[0] + " " + rest == toks[0] + (" " + rest);
      }
    }
  }

  function JoinedFrom(acc: string, strs: seq<string>): string
    decreases |strs|
  {
    if strs == [] then acc
    else if |strs| == 1 then Appended(acc, strs[0])
    else JoinedFrom(Appended(Appended(acc, strs[0]), " "), strs[1..])
  }

  /** The elements from `istart` to `iend`, both included. */
  function Slice(strs: seq<string>, istart: nat, iend: int): seq<string> {
    var end := if iend > |strs| - 1 then |strs| else iend + 1;
    if istart < end then strs[istart..end] else []
  }

  /** The part of the array that is joined: from the first index to the last, or to the end. */
  lemma SliceIs(strs: seq<string>, istart: nat, iend: int)
    ensures var r, last := Slice(strs, istart, iend), if iend < |strs| then iend else |strs| - 1;
            && |r| == (if istart <= last then last - istart + 1 else 0)
            && forall j :: 0 <= j < |r| ==> r[j] == strs[istart + j]
  {
  }

  /** What joining takes from the arena: every append leaves the string so far behind. */
  function JoinSpace(acc: string, strs: seq<string>): nat
    decreases |strs|
  {
    if strs == [] then 0
    else if |strs| == 1 then AppendSpace(acc, strs[0])
    else
      var more := Appended(acc, strs[0]);
      AppendSpace(acc, strs[0]) + AppendSpace(more, " ") + JoinSpace(Appended(more, " "), strs[1..])
  }

  /** `array_join_strings`; `ok` is false where the program aborts. */
  method ArrayJoinStrings(arena: Arena, strs: seq<string>, istart: nat, iend: int) returns (ok: bool, out: string)
    requires arena.Valid()
    modifies arena`pos
    ensures arena.Valid()
    ensures var slice := Slice(strs, istart, iend);
            && (ok <==> old(arena.pos) + 1 + JoinSpace("", slice) <= arena.bs.Length)
            && (ok ==> out == JoinedFrom("", slice) && arena.pos == old(arena.pos) + 1 + JoinSpace("", slice))
  {
    hide Appended, AppendSpace, Arena.Valid;
    out := "";
    var last := if iend > |strs| - 1 then |strs| - 1 else iend;
    ghost var all := Slice(strs, istart, iend);
    var off;
    ok, off := arena.Alloc(1);
    if !ok {
      return;
    }
    var i := istart;
    while i <= last
      invariant istart <= i && (istart <= last ==> i <= last + 1) && ok && arena.Valid()
      invariant i <= last ==> JoinedFrom(out, strs[i..last + 1]) == JoinedFrom("", all)
      invariant i <= last ==> arena.pos + JoinSpace(out, strs[i..last + 1]) == old(arena.pos) + 1 + JoinSpace("", all)
      invariant i > last ==> out == JoinedFrom("", all) && arena.pos == old(arena.pos) + 1 + JoinSpace("", all)
    {
      ghost var rest := strs[i..last + 1];
      assert rest[1..] == strs[i + 1..last + 1];
      ok, out := StringAppend(arena, out, strs[i]);
      if ok && i < last {
        ok, out := StringAppend(arena, out, " ");
      }
      if !ok {
        return;
      }
      i := i + 1;
    }
    arena.Within();
  }

  lemma {:induction false} JoinedFits(acc: string, strs: seq<string>)
    requires |acc| + |Split.Join(strs, " ")| < APPEND_LIMIT
    ensures JoinedFrom(acc, strs) == acc + Split.Join(strs, " ")
    decreases |strs|
  {
    if |strs| > 1 {
      assert Split.Join(strs, " ") == strs[0] + " " + Split.Join(strs[1..], " ");
      JoinedFits(acc + strs[0] + " ", strs[1..]);
    }
  }

  /** Tokenizing any part of a command's tokens, joined, gives that part back, as long as
      the joined string can be stored. */
  lemma Retokenized(cmd: string, istart: nat, iend: int)
    requires var toks := Slice(StoredAll(Words(Cleaned(cmd))), istart, iend);
             |Split.Join(toks, " ")| < APPEND_LIMIT
    ensures var toks := Slice(StoredAll(Words(Cleaned(cmd))), istart, iend);
            StoredAll(Words(Cleaned(JoinedFrom("", toks)))) == toks
  {
    hide JoinedFrom, Words, Cleaned;
    var all := StoredAll(Words(Cleaned(cmd)));
    var toks := Slice(all, istart, iend);
    CleanedChars(cmd);
    WordsAreTokens(Cleaned(cmd));
    forall k | 0 <= k < |toks|
      ensures toks[k] != [] && AllAlnum(toks[k])
    {
      assert toks[k] == all[istart + k];
      assert AllAlnum(Words(Cleaned(cmd))[istart + k]);
    }
    JoinedFits("", toks);
    WordsOfJoin(toks);
    CleanedKeeps(Split.Join(toks, " "));
    PartsFit(toks);
    assert "" + Split.Join(toks, " ") == Split.Join(toks, " ");
  }

  /** What is stored whole when joined is stored whole alone. */
  lemma {:induction false} PartsFit(toks: seq<string>)
    requires |Split.Join(toks, " ")| < APPEND_LIMIT
    ensures StoredAll(toks) == toks
  {
    if |toks| > 1 {
      PartsFit(toks[1..]);
      assert forall k :: 1 <= k < |toks| ==> StoredAll(toks)[k] == StoredAll(toks[1..])[k - 1];
    }
  }
}
