/**
  Command lines in memory: the one block of pointers and strings that native/doscalls.c
  splits a command line into.
 */
module CommandMemory {
  import opened CommandLine

  ghost function Blanks(s: string): nat {
    if s == "" then 0 else (if IsBlank(s[|s| - 1]) then 1 else 0) + Blanks(s[..|s| - 1])
  }

  ghost function Flat(ts: seq<string>): string {
    if ts == [] then "" else Flat(ts[..|ts| - 1]) + ts[|ts| - 1] + ['\0']
  }

  lemma FlatMore(ts: seq<string>, t: string)
    ensures Flat(ts + [t]) == Flat(ts) + t + ['\0']
  {
    assert (ts + [t])[..|ts|] == ts;
  }

  lemma {:induction false} FlatCons(t: string, ts: seq<string>)
    ensures |Flat([t] + ts)| == |t| + 1 + |Flat(ts)|
    decreases |ts|
  {
    if ts == [] {
      assert [t] + ts == [] + [t];
      FlatMore([], t);
    } else {
      var n := |ts| - 1;
      FlatCons(t, ts[..n]);
      assert [t] + ts == ([t] + ts[..n]) + [ts[n]];
      FlatMore([t] + ts[..n], ts[n]);
    }
  }

  // The one block of the source: the pointers, NULL being -1, and behind them the strings.
  class Block {
    const slots: array<int>
    const chars: array<char>
    var idx: nat
    var dst: nat

    ghost predicate Has(ts: seq<string>)
      reads this, slots, chars
    {
      && idx == |ts| <= slots.Length && dst == |Flat(ts)| <= chars.Length && chars[..dst] == Flat(ts)
      && forall i :: 0 <= i < |ts| ==> slots[i] == |Flat(ts[..i])|
    }

    constructor (n: nat, room: nat)
      ensures Has([]) && slots.Length == n && chars.Length == room && fresh(slots) && fresh(chars)
    {
      slots, chars := new int[n], new char[room];
      idx, dst := 0, 0;
    }

    // The next pointer, and the string it points to.
    method Push(t: string, ghost ts: seq<string>)
      requires Has(ts) && idx < slots.Length && dst + |t| + 1 <= chars.Length
      modifies this, slots, chars
      ensures Has(ts + [t])
    {
      FlatMore(ts, t);
      hide Flat;
      slots[idx] := dst;
      var i := 0;
      ghost var before := chars[..dst];
      while i < |t|
        invariant 0 <= i <= |t| && dst == old(dst) && idx == old(idx)
        invariant chars[..dst + i] == before + t[..i]
        invariant forall j :: 0 <= j < |ts| ==> slots[j] == |Flat(ts[..j])|
        invariant slots[idx] == dst
      {
        chars[dst + i] := t[i];
        assert t[..i + 1] == t[..i] + [t[i]];
        i := i + 1;
      }
      assert t[..|t|] == t;
      chars[dst + |t|] := '\0';
      assert chars[..dst + |t| + 1] == before + t + ['\0'];
      idx, dst := idx + 1, dst + |t| + 1;
      forall j | 0 <= j < |ts + [t]| ensures slots[j] == |Flat((ts + [t])[..j])| {
        assert (ts + [t])[..j] == ts[..j];
        assert j == |ts| ==> ts[..j] == ts;
      }
    }
  }

  method SkipBlanks(s: string, from: nat) returns (to: nat)
    requires from <= |s|
    ensures from <= to <= |s| && s[to..] == Skip(s[from..])
  {
    to := from;
    while to < |s| && IsBlank(s[to])
      invariant from <= to <= |s| && Skip(s[to..]) == Skip(s[from..])
    {
      assert s[to..][1..] == s[to + 1..];
      to := to + 1;
    }
  }

  method FindQuote(s: string, from: nat) returns (to: nat)
    requires from <= |s|
    ensures from <= to <= |s| && s[from..to] == Upto(s[from..])
    ensures Past(s[from..]) == if to < |s| then s[to + 1..] else ""
  {
    hide *;
    to := from;
    assert s[from..from] == "" && "" + Upto(s[from..]) == Upto(s[from..]);
    while to < |s| && s[to] != '"'
      invariant from <= to <= |s| && Past(s[to..]) == Past(s[from..])
      invariant s[from..to] + Upto(s[to..]) == Upto(s[from..])
    {
      QuoteAt(s, from, to);
      to := to + 1;
    }
    QuoteAt(s, from, to);
  }

  lemma QuoteAt(s: string, from: nat, to: nat)
    requires from <= to <= |s|
    ensures to < |s| && s[to] != '"' ==> Past(s[to..]) == Past(s[to + 1..])
    ensures to < |s| && s[to] != '"' ==> s[from..to] + Upto(s[to..]) == s[from..to + 1] + Upto(s[to + 1..])
    ensures to == |s| || s[to] == '"' ==> Upto(s[to..]) == "" && s[from..to] + Upto(s[to..]) == s[from..to]
    ensures to == |s| || s[to] == '"' ==> Past(s[to..]) == if to < |s| then s[to + 1..] else ""
  {
    if to < |s| {
      assert s[to..][1..] == s[to + 1..] && s[to..][0] == s[to];
      assert s[from..to + 1] == s[from..to] + [s[to]];
    }
  }

  // Overrun stands for pointers written where the strings are.
  datatype Error = NoError | BadEnvironment | NotEnoughMemory | Overrun

  method CountBlanks(s: string) returns (n: nat)
    ensures n == Blanks(s)
  {
    n := 0;
    var i := 0;
    while i < |s|
      invariant 0 <= i <= |s| && n == Blanks(s[..i])
    {
      assert s[..i + 1][..i] == s[..i];
      if IsBlank(s[i]) {
        n := n + 1;
      }
      i := i + 1;
    }
    assert s[..i] == s;
  }

  // One turn of the splitter's loop, in terms of positions.
  lemma TokensBlank(cmd: string, start: nat, src: nat)
    requires start <= src < |cmd| && IsBlank(cmd[src])
    ensures Tokens(cmd[start..src], cmd[src..]) == [cmd[start..src]] + Tokens("", Skip(cmd[src + 1..]))
  {
    assert cmd[src..][1..] == cmd[src + 1..] && cmd[src..][0] == cmd[src];
  }

  lemma TokensQuote(cmd: string, start: nat, src: nat, q: nat)
    requires start <= src < q <= |cmd| && cmd[src] == '"' && cmd[src + 1..q] == Upto(cmd[src + 1..])
    ensures Tokens(cmd[start..src], cmd[src..]) == [cmd[start + 1..q]] + Tokens("", Skip(Past(cmd[src + 1..])))
  {
    assert cmd[src..][1..] == cmd[src + 1..] && cmd[src..][0] == cmd[src];
    assert (cmd[start..src] + ['"'])[1..] + cmd[src + 1..q] == cmd[start + 1..q] by {
      assert cmd[start..src] + ['"'] == cmd[start..src + 1];
    }
    hide Upto, Past, Skip;
    assert !IsBlank(cmd[src]);
  }

  lemma TokensChar(cmd: string, start: nat, src: nat)
    requires start <= src < |cmd| && cmd[src] != '"' && !IsBlank(cmd[src])
    ensures Tokens(cmd[start..src], cmd[src..]) == Tokens(cmd[start..src + 1], cmd[src + 1..])
  {
    assert cmd[src..][1..] == cmd[src + 1..] && cmd[src..][0] == cmd[src];
    assert cmd[start..src] + [cmd[src]] == cmd[start..src + 1];
  }

  lemma TokensLast(w: string)
    ensures Tokens(w, "") == if w == "" then [] else [w]
  {}

  // How far the loop has come: `done` are in the block, the rest is still to be found.
  ghost predicate Found(cmd: string, start: nat, src: nat, done: seq<string>) {
    start <= src <= |cmd| && done + Tokens(cmd[start..src], cmd[src..]) == Split(cmd) && |Flat(done)| <= start
  }

  lemma FoundFirst(cmd: string, src: nat)
    requires src <= |cmd| && cmd[src..] == Skip(cmd)
    ensures Found(cmd, src, src, [])
  {
    assert cmd[src..src] == "";
    assert [] + Tokens("", Skip(cmd)) == Split(cmd);
  }

  lemma FoundRoom(cmd: string, start: nat, src: nat, done: seq<string>, t: string, rest: string)
    requires Found(cmd, start, src, done) && Tokens(cmd[start..src], cmd[src..]) == [t] + Tokens("", rest)
    ensures |done| < |Split(cmd)| && |Flat(done)| <= start
  {
    hide Tokens, Split, Flat;
  }

  lemma FoundMore(cmd: string, start: nat, src: nat, done: seq<string>, t: string, next: nat)
    requires Found(cmd, start, src, done) && start + |t| + 1 <= next <= |cmd|
    requires Tokens(cmd[start..src], cmd[src..]) == [t] + Tokens("", cmd[next..])
    ensures Found(cmd, next, next, done + [t]) && |done| < |Split(cmd)|
  {
    FlatMore(done, t);
    hide Tokens, Flat, Split;
    assert cmd[next..next] == "";
    assert (done + [t]) + Tokens("", cmd[next..]) == done + ([t] + Tokens("", cmd[next..]));
  }

  lemma FoundChar(cmd: string, start: nat, src: nat, done: seq<string>)
    requires Found(cmd, start, src, done) && src < |cmd| && cmd[src] != '"' && !IsBlank(cmd[src])
    ensures Found(cmd, start, src + 1, done)
  {
    TokensChar(cmd, start, src);
    hide Tokens, Split;
  }

  lemma FoundLast(cmd: string, start: nat, src: nat, done: seq<string>)
    requires Found(cmd, start, src, done) && src == |cmd|
    ensures start == src ==> done == Split(cmd)
    ensures start < src ==> done + [cmd[start..src]] == Split(cmd)
    ensures |Flat(done)| <= start
  {
    TokensLast(cmd[start..src]);
    assert cmd[src..] == "";
    assert start == src ==> cmd[start..src] == "";
    hide Tokens, Split, Flat;
    assert done + [] == done;
  }

  // The loop of calcArgv over the command line, up to the first word that has no pointer left.
  method Words(b: Block, name: string, cmd: string) returns (ok: bool)
    requires b.Has([name]) && |name| + |cmd| + 2 <= b.chars.Length
    modifies b, b.slots, b.chars
    ensures ok <==> |Split(cmd)| < b.slots.Length
    ensures ok ==> b.Has([name] + Split(cmd))
  {
    hide *;
    ghost var done := [];
    assert [name] + done == [name] && cmd[0..] == cmd;
    var src := SkipBlanks(cmd, 0);
    var start := src;
    FoundFirst(cmd, src);
    while src < |cmd|
      invariant Found(cmd, start, src, done) && b.Has([name] + done) && start <= src <= |cmd|
      decreases |cmd| - src
    {
      ghost var start0, src0 := start, src;
      var ch := cmd[src];
      src := src + 1;
      if IsBlank(ch) {
        var t := cmd[start..src - 1];
        TokensBlank(cmd, start, src0);
        FoundRoom(cmd, start, src0, done, t, Skip(cmd[src0 + 1..]));
        Room(b, name, cmd, done, start);
        if b.idx == b.slots.Length {
          return false;
        }
        b.Push(t, [name] + done);
        src := SkipBlanks(cmd, src);
        FoundMore(cmd, start0, src0, done, t, src);
        Append(name, done, t);
        start, done := src, done + [t];
      } else if ch == '"' {
        start := start + 1;
        src := FindQuote(cmd, src);
        var t := cmd[start..src];
        TokensQuote(cmd, start0, src0, src);
        FoundRoom(cmd, start0, src0, done, t, Skip(Past(cmd[src0 + 1..])));
        Room(b, name, cmd, done, start0);
        if b.idx == b.slots.Length {
          return false;
        }
        b.Push(t, [name] + done);
        if src < |cmd| {
          src := src + 1;
        }
        assert cmd[src..] == Past(cmd[src0 + 1..]);
        src := SkipBlanks(cmd, src);
        FoundMore(cmd, start0, src0, done, t, src);
        Append(name, done, t);
        start, done := src, done + [t];
      } else {
        FoundChar(cmd, start, src0, done);
      }
    }
    FoundLast(cmd, start, src, done);
    if start < src {
      Room(b, name, cmd, done, start);
      if b.idx == b.slots.Length {
        return false;
      }
      b.Push(cmd[start..src], [name] + done);
      Append(name, done, cmd[start..src]);
    }
    HasRoom(b, [name] + Split(cmd));
    ok := true;
  }

  lemma Append(name: string, done: seq<string>, t: string)
    ensures ([name] + done) + [t] == [name] + (done + [t])
  {}

  lemma Room(b: Block, name: string, cmd: string, done: seq<string>, start: nat)
    requires b.Has([name] + done) && |Flat(done)| <= start
    ensures b.idx == 1 + |done| <= b.slots.Length && b.dst <= |name| + 1 + start
  {
    FlatCons(name, done);
    hide Flat;
  }

  lemma HasRoom(b: Block, ts: seq<string>)
    requires b.Has(ts)
    ensures |ts| <= b.slots.Length && b.idx == |ts|
  {}

  // calcArgv: the name of the program, then the words of its command line.
  method CalcArgv(name: string, cmd: string, room: bool) returns (e: Error, b: Block?)
    ensures e == if name == "" then BadEnvironment else if !room then NotEnoughMemory
      else if Excess(cmd, false, false) > 1 then Overrun else NoError
    ensures e == NoError ==>
      b != null && fresh(b) && b.Has([name] + Split(cmd)) && b.idx < b.slots.Length && b.slots[b.idx] == -1
  {
    b := null;
    if name == "" {
      return BadEnvironment, b;
    }
    var idx := CountBlanks(cmd);
    idx := idx + 2;
    if !room {
      return NotEnoughMemory, b;
    }
    SplitExcess(cmd);
    b := new Block(idx + 1, |cmd| + |name| + 1 + idx);
    b.Push(name, []);
    assert [] + [name] == [name];
    var ok := Words(b, name, cmd);
    if !ok || b.idx == b.slots.Length {
      return Overrun, b;
    }
    b.slots[b.idx] := -1;
    e := NoError;
  }

  // ----- Whether the pointers fit ---------------------------------------------------------------------

  // By how much words outnumber blanks: one more for each quote that opens, and if the text
  // ends in an unquoted word; one less for each blank that does not end such a word.  `quoted`
  // is being between two quotes, `begun` being in an unquoted word.
  function Excess(s: string, quoted: bool, begun: bool): int {
    if s == "" then if begun then 1 else 0
    else if quoted then (if IsBlank(s[0]) then -1 else 0) + Excess(s[1..], s[0] != '"', false)
    else if IsBlank(s[0]) then (if begun then 0 else -1) + Excess(s[1..], false, false)
    else if s[0] == '"' then 1 + Excess(s[1..], true, false)
    else Excess(s[1..], false, true)
  }

  lemma BlanksCons(s: string)
    requires s != ""
    ensures Blanks(s) == (if IsBlank(s[0]) then 1 else 0) + Blanks(s[1..])
  {
    BlanksConcat([s[0]], s[1..]);
    assert [s[0]] + s[1..] == s && [s[0]][..0] == "";
  }

  lemma {:induction false} SkipExcess(s: string)
    ensures Excess(Skip(s), false, false) + Blanks(Skip(s)) == Excess(s, false, false) + Blanks(s)
  {
    if s != "" && IsBlank(s[0]) {
      SkipExcess(s[1..]);
      BlanksCons(s);
    }
  }

  lemma {:induction false} PastExcess(s: string)
    ensures Excess(Past(s), false, false) + Blanks(Past(s)) == Excess(s, true, false) + Blanks(s)
  {
    if s != "" {
      BlanksCons(s);
      if s[0] != '"' {
        PastExcess(s[1..]);
      }
    }
  }

  lemma {:induction false} TokensExcess(w: string, rest: string)
    requires w != "" || rest == "" || !IsBlank(rest[0])
    ensures |Tokens(w, rest)| == Excess(rest, false, w != "") + Blanks(rest)
    decreases |rest|
  {
    if rest != "" {
      SkipPast(rest[1..]);
      SkipPast(Past(rest[1..]));
      BlanksCons(rest);
      if IsBlank(rest[0]) {
        SkipIs(rest[1..]);
        TokensExcess("", Skip(rest[1..]));
        SkipExcess(rest[1..]);
      } else if rest[0] == '"' {
        SkipIs(Past(rest[1..]));
        TokensExcess("", Skip(Past(rest[1..])));
        SkipExcess(Past(rest[1..]));
        PastExcess(rest[1..]);
      } else {
        TokensExcess(w + [rest[0]], rest[1..]);
      }
    }
  }

  // The block has a pointer for every word and NULL exactly if the excess is at most 1.
  lemma SplitExcess(cmd: string)
    ensures |Split(cmd)| == Blanks(cmd) + Excess(cmd, false, false)
  {
    SkipIs(cmd);
    TokensExcess("", Skip(cmd));
    SkipExcess(cmd);
  }

  // An argument that is four quotes is two words and no blank.
  lemma FourQuotes()
    ensures Split(Print([['"', '"', '"', '"']])) == ["", ""] && Excess(Print([['"', '"', '"', '"']]), false, false) == 2
  {
    var a, b := ['"', '"', '"', '"'], ['"', '"'];
    assert !HasBlank(a) && Print([a]) == a;
    TwoQuotes(b);
    TwoQuotes("");
    assert ['"', '"'] + b == a && ['"', '"'] + "" == b;
    assert Split(a) == Tokens("", a);
    hide Tokens;
    assert Tokens("", "") == [] by { TokensLast(""); }
  }

  lemma TwoQuotes(rest: string)
    requires rest == "" || !IsBlank(rest[0])
    ensures Tokens("", ['"', '"'] + rest) == [""] + Tokens("", rest)
    ensures Excess(['"', '"'] + rest, false, false) == 1 + Excess(rest, false, false)
  {
    var s, t := ['"', '"'] + rest, ['"'] + rest;
    QuotedWord(t);
    assert s == ['"'] + t && s[1..] == t && t[1..] == rest;
  }

  // ----- A printed command line fits the block ---------------------------------------------------------

  lemma {:induction false} BlanksConcat(s: string, t: string)
    ensures Blanks(s + t) == Blanks(s) + Blanks(t)
    decreases |t|
  {
    if t == "" {
      assert s + t == s;
    } else {
      assert (s + t)[..|s + t| - 1] == s + t[..|t| - 1];
      BlanksConcat(s, t[..|t| - 1]);
    }
  }

  lemma {:induction false} PrintBlanks(args: seq<string>)
    ensures |args| <= Blanks(Print(args)) + 1
  {
    if |args| > 1 {
      var rest := Print(args[1..]);
      PrintBlanks(args[1..]);
      BlanksConcat(Shown(args[0]) + [' '], rest);
      BlanksConcat(Shown(args[0]), [' ']);
      assert [' '][..0] == "";
      assert Blanks([' ']) == 1;
    }
  }

  // So for arguments without quotes the splitter never runs out of pointers.
  lemma PrintedFits(args: seq<string>)
    requires forall i :: 0 <= i < |args| ==> QuoteFree(args[i])
    ensures Excess(Print(args), false, false) <= 1
  {
    SplitFree(args);
    BackAllIff(args);
    PrintBlanks(args);
    SplitExcess(Print(args));
  }
}
