/**
  Which arguments survive being printed by lib2ine.c and split by native/doscalls.c: the
  exact answer for every list of arguments.
 */
module CommandRoundTrip {
  import opened CommandLine

  ghost predicate PlainWord(x: string) {
    QuoteFree(x) && !HasBlank(x)
  }

  // ----- One word of a text ---------------------------------------------------------------

  // A text with a quote behind its first word.
  lemma WordQuoted(x: string, y: string)
    requires PlainWord(x) && x != ""
    ensures Tokens("", x + (['"'] + y)) == [x[1..] + ['"'] + Upto(y)] + Tokens("", Skip(Past(y)))
  {
    TokensWord("", x, ['"'] + y);
    assert "" + x == x;
    assert (['"'] + y)[1..] == y && (['"'] + y)[0] == '"';
    assert (x + ['"'])[1..] == x[1..] + ['"'];
    hide Upto, Past, Skip, QuoteFree, HasBlank;
  }

  // A text with a blank or nothing behind its first word.
  lemma WordAlone(x: string, y: string)
    requires PlainWord(x) && x != "" && (y == "" || IsBlank(y[0]))
    ensures Tokens("", x + y) == [x] + Tokens("", Skip(y))
  {
    TokensWord("", x, y);
    assert "" + x == x;
    hide QuoteFree, HasBlank, Tokens, Skip;
    TokensEnd(x, y);
  }

  // ----- The characters themselves ------------------------------------------------------------

  // Arguments with a blank or a tab are quoted, and a blank goes between two of them.
  lemma PrintIs(x: string, y: string)
    ensures ' ' !in x && '\t' !in x ==> Print([x]) == x
    ensures ' ' in x || '\t' in x ==> Print([x]) == "\"" + Escaped(x) + "\""
    ensures Print([x, y]) == Print([x]) + " " + Print([y])
  {
    if ' ' in x || '\t' in x {
      var i :| 0 <= i < |x| && (x[i] == ' ' || x[i] == '\t');
      assert IsBlank(x[i]);
    }
    assert [x, y][1..] == [y];
  }

  lemma EscapedIs(c: char, s: string)
    ensures Escaped([c] + s) == (if c == '\\' || c == '\n' then "\\" else "") + [c] + Escaped(s)
  {
    assert ([c] + s)[1..] == s;
  }

  // Blanks and tabs separate words, and quotes hold one together.
  lemma SplitWord(x: string, c: char, y: string)
    requires x != "" && forall i :: 0 <= i < |x| ==> x[i] != ' ' && x[i] != '\t' && x[i] != '"'
    requires c == ' ' || c == '\t'
    ensures Split(x + ([c] + y)) == [x] + Split(y) && Split([c] + y) == Split(y)
  {
    assert PlainWord(x) && IsBlank(c);
    WordAlone(x, [c] + y);
    assert ([c] + y)[1..] == y && !IsBlank((x + ([c] + y))[0]);
    hide Tokens, PlainWord;
  }

  lemma SplitQuoted(x: string, y: string)
    requires '"' !in x
    ensures Split("\"" + x + "\"" + y) == [x] + Split(y)
  {
    TokensQuoted(x, y);
    assert !IsBlank(("\"" + x + "\"" + y)[0]);
    hide Tokens;
  }

  // The first word of a text, and what follows it.
  ghost function Word(s: string): string {
    if s == "" || IsBlank(s[0]) || s[0] == '"' then "" else [s[0]] + Word(s[1..])
  }

  lemma {:induction false} WordIs(s: string)
    ensures |Word(s)| <= |s| && s == Word(s) + s[|Word(s)|..] && PlainWord(Word(s))
    ensures var y := s[|Word(s)|..]; y == "" || IsBlank(y[0]) || y[0] == '"'
  {
    if s != "" && !IsBlank(s[0]) && s[0] != '"' {
      WordIs(s[1..]);
      var x := Word(s[1..]);
      assert s == [s[0]] + s[1..];
      assert s[|Word(s)|..] == s[1..][|x|..];
      assert forall i :: 0 <= i < |Word(s)| ==> Word(s)[i] == if i == 0 then s[0] else x[i - 1];
    }
  }

  // Blanks are not skipped past anything else.
  lemma {:induction false} SkipBefore(s: string, y: string)
    requires y != "" && !IsBlank(y[0])
    ensures Skip(s + y) == Skip(s) + y
  {
    if s == "" {
      assert s + y == y && "" + y == y;
    } else {
      assert (s + y)[1..] == s[1..] + y;
      if IsBlank(s[0]) {
        SkipBefore(s[1..], y);
      }
    }
  }

  // ----- Counting characters ----------------------------------------------------------------

  ghost function Count(s: string, c: char): nat {
    if s == "" then 0 else (if s[0] == c then 1 else 0) + Count(s[1..], c)
  }

  lemma {:induction false} CountConcat(s: string, t: string, c: char)
    ensures Count(s + t, c) == Count(s, c) + Count(t, c)
  {
    if s == "" {
      assert s + t == t;
    } else {
      assert (s + t)[1..] == s[1..] + t;
      CountConcat(s[1..], t, c);
    }
  }

  lemma {:induction false} CountFree(s: string)
    ensures QuoteFree(s) <==> Count(s, '"') == 0
  {
    if s != "" {
      CountFree(s[1..]);
      assert forall i :: 0 < i < |s| ==> s[i] == s[1..][i - 1];
    }
  }

  lemma {:induction false} CountParts(s: string, c: char)
    ensures Count(Skip(s), c) <= Count(s, c)
    ensures Count(Upto(s), c) + Count(Past(s), c) <= Count(s, c)
  {
    if s != "" {
      CountParts(s[1..], c);
      if s[0] != '"' {
        assert Upto(s)[1..] == Upto(s[1..]);
      }
    }
  }

  ghost function Total(ts: seq<string>, c: char): nat {
    if ts == [] then 0 else Count(ts[0], c) + Total(ts[1..], c)
  }

  // Splitting makes no characters.
  lemma {:induction false} TotalTokens(w: string, rest: string, c: char)
    ensures Total(Tokens(w, rest), c) <= Count(w, c) + Count(rest, c)
    decreases |rest|
  {
    if rest == "" {
      assert [w][1..] == [];
    } else {
      SkipPast(rest[1..]);
      SkipPast(Past(rest[1..]));
      CountParts(rest[1..], c);
      CountParts(Past(rest[1..]), c);
      if IsBlank(rest[0]) {
        TotalTokens("", Skip(rest[1..]), c);
      } else if rest[0] == '"' {
        TotalTokens("", Skip(Past(rest[1..])), c);
        CountQuoted(w, Upto(rest[1..]), c);
      } else {
        TotalTokens(w + [rest[0]], rest[1..], c);
        CountConcat(w, [rest[0]], c);
        assert [rest[0]][1..] == "";
      }
    }
  }

  lemma CountQuoted(w: string, y: string, c: char)
    ensures Count((w + ['"'])[1..] + y, c) <= Count(w, c) + Count(['"'], c) + Count(y, c)
    ensures QuoteFree(w) && QuoteFree(y) ==> Count((w + ['"'])[1..] + y, '"') <= 1
  {
    CountConcat((w + ['"'])[1..], y, c);
    CountConcat((w + ['"'])[1..], y, '"');
    CountConcat(w, ['"'], c);
    CountConcat(w, ['"'], '"');
    assert ['"'][1..] == "";
    CountFree(w);
    CountFree(y);
  }

  // No word has two quotes.
  lemma {:induction false} OneQuote(w: string, rest: string, i: nat)
    requires QuoteFree(w) && i < |Tokens(w, rest)|
    ensures Count(Tokens(w, rest)[i], '"') <= 1
    decreases |rest|
  {
    CountFree(w);
    if rest != "" {
      SkipPast(rest[1..]);
      SkipPast(Past(rest[1..]));
      UptoFree(rest[1..]);
      CountQuoted(w, Upto(rest[1..]), '"');
      if IsBlank(rest[0]) {
        if i > 0 { OneQuote("", Skip(rest[1..]), i - 1); }
      } else if rest[0] == '"' {
        if i > 0 { OneQuote("", Skip(Past(rest[1..])), i - 1); }
      } else {
        OneQuote(w + [rest[0]], rest[1..], i);
      }
    }
  }

  lemma {:induction false} UptoFree(s: string)
    ensures QuoteFree(Upto(s))
  {
    if s != "" && s[0] != '"' {
      UptoFree(s[1..]);
    }
  }

  lemma {:induction false} CountEscaped(s: string, c: char)
    requires c != '\\'
    ensures Count(Escaped(s), c) == Count(s, c)
  {
    if s != "" {
      CountEscaped(s[1..], c);
      var e := if s[0] == '\\' || s[0] == '\n' then ['\\', s[0]] else [s[0]];
      CountConcat(e, Escaped(s[1..]), c);
      assert e[1..] == (if |e| == 2 then [s[0]] else "") && [s[0]][1..] == "";
    }
  }

  // Printing adds quotes, blanks and backslashes only.
  lemma {:induction false} TotalPrint(args: seq<string>, c: char)
    requires c != '"' && c != ' ' && c != '\\'
    ensures Count(Print(args), c) == Total(args, c)
  {
    if args != [] {
      CountShown(args[0], c);
      if |args| == 1 {
        assert args[1..] == [];
      } else {
        TotalPrint(args[1..], c);
        CountConcat(Shown(args[0]) + [' '], Print(args[1..]), c);
        CountConcat(Shown(args[0]), [' '], c);
        assert [' '][1..] == "";
      }
    }
  }

  lemma CountShown(arg: string, c: char)
    requires c != '"' && c != '\\'
    ensures Count(Shown(arg), c) == Count(arg, c)
  {
    CountEscaped(arg, c);
    CountConcat(['"'] + Escaped(arg), ['"'], c);
    CountConcat(['"'], Escaped(arg), c);
    assert ['"'][1..] == "";
    hide HasBlank, Escaped;
  }

  // ----- An argument with a quote ---------------------------------------------------------------

  // The text around its first quote.
  lemma {:induction false} AtQuote(s: string) returns (x: string, y: string)
    requires !QuoteFree(s)
    ensures s == x + (['"'] + y) && QuoteFree(x)
  {
    if s[0] != '"' {
      assert !QuoteFree(s[1..]) by {
        var i :| 0 <= i < |s| && s[i] == '"';
        assert s[1..][i - 1] == '"';
      }
      x, y := AtQuote(s[1..]);
      FreeCons(s[0], x);
      hide QuoteFree;
      assert s == [s[0]] + s[1..];
      x := [s[0]] + x;
    } else {
      x, y := "", s[1..];
      assert s == ['"'] + s[1..];
    }
  }

  lemma FreeCons(c: char, x: string)
    requires c != '"' && QuoteFree(x)
    ensures QuoteFree([c] + x)
  {}

  lemma ShownQuoted(arg: string, rest: string)
    requires HasBlank(arg)
    ensures Shown(arg) + rest == ['"'] + (Escaped(arg) + (['"'] + rest))
  {
    hide HasBlank, Escaped;
  }

  lemma ShownPlain(arg: string, x: string, y: string, rest: string)
    requires !HasBlank(arg) && arg == x + (['"'] + y) && QuoteFree(x)
    ensures Shown(arg) + rest == x + (['"'] + (y + rest)) && PlainWord(x)
    ensures x == "" ==> Shown(arg) + rest == ['"'] + (y + rest)
  {
    assert forall i :: 0 <= i < |x| ==> x[i] == arg[i];
  }

  lemma NotSame(x: string, y: string, u: string)
    requires x != "" && QuoteFree(x)
    ensures x[1..] + ['"'] + u != x + (['"'] + y) && x[1..] + ['"'] + u != ""
  {
    var k := |x| - 1;
    assert (x[1..] + ['"'] + u)[k] == '"' && (x + (['"'] + y))[k] == x[k];
  }

  // The first word of such an argument is not the argument.
  lemma FirstDiffers(arg: string, rest: string)
    requires !QuoteFree(arg)
    ensures Tokens("", Shown(arg) + rest) != [] && Tokens("", Shown(arg) + rest)[0] != arg
  {
    hide *;
    if HasBlank(arg) {
      var v := Escaped(arg) + (['"'] + rest);
      ShownQuoted(arg, rest);
      QuotedWord(v);
      UptoFree(v);
    } else {
      var x, y := AtQuote(arg);
      ShownPlain(arg, x, y, rest);
      UptoFree(y + rest);
      if x == "" {
        QuotedWord(y + rest);
      } else {
        WordQuoted(x, y + rest);
        NotSame(x, y, Upto(y + rest));
      }
    }
  }

  lemma UptoSome(s: string)
    ensures s != "" && s[0] != '"' ==> Upto(s) != "" && Upto(s)[0] == s[0]
    ensures s == "" ==> Upto(s) == "" && Past(s) == "" && Skip(s) == "" && Tokens("", s) == []
  {}

  // Where a second quote cannot be.
  lemma NoSecond(x: string, y: string, rest: string)
    requires Count(x + (['"'] + y), '"') <= 1 && (rest == "" || IsBlank(rest[0]))
    ensures QuoteFree(y) && (y + rest != "" ==> (y + rest)[0] != '"')
  {
    CountConcat(x, ['"'] + y, '"');
    CountConcat(['"'], y, '"');
    CountFree(y);
    assert ['"'][1..] == "";
  }

  // An unquoted one begins with an empty word only if it is all there is.
  lemma EmptyUnquoted(arg: string, rest: string)
    requires !QuoteFree(arg) && !HasBlank(arg) && Count(arg, '"') <= 1 && (rest == "" || IsBlank(rest[0]))
    ensures var ts := Tokens("", Shown(arg) + rest); |ts| == 1 || (ts != [] && ts[0] != "")
  {
    hide *;
    var x, y := AtQuote(arg);
    ShownPlain(arg, x, y, rest);
    NoSecond(x, y, rest);
    if x != "" {
      WordQuoted(x, y + rest);
      NotSame(x, y, Upto(y + rest));
    } else {
      QuotedWord(y + rest);
      UptoSome(y + rest);
    }
  }

  // A character that printing never adds is missing from the words.
  ghost predicate Lost(ts: seq<string>, text: string) {
    exists c :: c != '"' && c != ' ' && c != '\\' && Total(ts, c) < Count(text, c)
  }

  // What can follow an empty word in front of `arg`.
  ghost predicate Follows(more: seq<string>, arg: string) {
    more != [] && ((|more| == 1 && more[0] == "") || (more[0] != "" && more[0] != arg))
  }

  // A quoted one that begins with an empty word does not go on with itself, or loses something.
  lemma EmptyQuoted(arg: string, rest: string)
    requires !QuoteFree(arg) && HasBlank(arg) && Count(arg, '"') <= 1 && (rest == "" || IsBlank(rest[0]))
    ensures var ts := Tokens("", Shown(arg) + rest);
      ts != [] && (ts[0] == "" ==> Follows(ts[1..], arg) || Lost(ts, Shown(arg) + rest))
  {
    hide *;
    var v := Escaped(arg) + (['"'] + rest);
    ShownQuoted(arg, rest);
    QuotedWord(v);
    if Upto(v) == "" {
      StartsQuote(arg, rest);
      InnerFree(arg);
      AfterEmpty(arg, rest);
    }
  }

  lemma StartsQuote(arg: string, rest: string)
    requires HasBlank(arg) && Upto(Escaped(arg) + (['"'] + rest)) == ""
    ensures arg != "" && arg[0] == '"' && Escaped(arg) == ['"'] + Escaped(arg[1..])
    ensures Past(Escaped(arg) + (['"'] + rest)) == Escaped(arg[1..]) + (['"'] + rest)
  {
    EscapedIff(arg);
    var v := Escaped(arg) + (['"'] + rest);
    assert v[0] == Escaped(arg)[0];
    assert Escaped(arg)[0] == '"' ==> v[1..] == Escaped(arg[1..]) + (['"'] + rest);
  }

  lemma InnerFree(arg: string)
    requires arg != "" && arg[0] == '"' && Count(arg, '"') <= 1
    ensures QuoteFree(Escaped(arg[1..]))
  {
    CountFree(arg[1..]);
    EscapedQuoteFree(arg[1..]);
  }

  lemma SkipFree(e: string)
    requires QuoteFree(e)
    ensures QuoteFree(Skip(e)) && (Skip(e) != "" ==> !IsBlank(Skip(e)[0]))
  {
    SkipIs(e);
    assert forall i :: 0 <= i < |Skip(e)| ==> Skip(e)[i] == e[|e| - |Skip(e)| + i];
  }

  lemma SkipQuote(e: string, rest: string)
    ensures Skip(e + (['"'] + rest)) == Skip(e) + (['"'] + rest)
    ensures "" + (['"'] + rest) == ['"'] + rest
  {
    SkipBefore(e, ['"'] + rest);
  }

  // What follows the empty word.
  lemma AfterEmpty(arg: string, rest: string)
    requires arg != "" && arg[0] == '"' && HasBlank(arg) && QuoteFree(Escaped(arg[1..]))
    requires rest == "" || IsBlank(rest[0])
    requires Escaped(arg) == ['"'] + Escaped(arg[1..])
    requires Tokens("", Shown(arg) + rest) == [""] + Tokens("", Skip(Escaped(arg[1..]) + (['"'] + rest)))
    ensures var ts := Tokens("", Shown(arg) + rest); Follows(ts[1..], arg) || Lost(ts, Shown(arg) + rest)
  {
    hide *;
    var e := Escaped(arg[1..]);
    SkipFree(e);
    SkipQuote(e, rest);
    var z := Skip(e);
    var ts := Tokens("", Shown(arg) + rest);
    assert ts[1..] == Tokens("", z + (['"'] + rest));
    if z == "" {
      FollowsBare(arg, rest);
    } else {
      var w, y := WordParts(z);
      if y != "" {
        FollowsWord(arg, w, y, rest);
      } else if |z| > 1 {
        FollowsQuoted(arg, z, rest);
      } else {
        WordQuoted(z, rest);
        OneLost(arg, rest, z);
      }
    }
  }

  lemma WordParts(z: string) returns (w: string, y: string)
    requires z != "" && !IsBlank(z[0]) && QuoteFree(z)
    ensures z == w + y && PlainWord(w) && w != "" && QuoteFree(y)
    ensures y == "" || IsBlank(y[0])
    ensures y == "" ==> w == z
  {
    WordIs(z);
    w, y := Word(z), z[|Word(z)|..];
    assert forall i :: 0 <= i < |y| ==> y[i] == z[|w| + i];
    hide HasBlank;
  }

  lemma FollowsBare(arg: string, rest: string)
    requires arg != "" && arg[0] == '"' && (rest == "" || IsBlank(rest[0]))
    ensures Follows(Tokens("", ['"'] + rest), arg)
  {
    QuotedWord(rest);
    UptoSome(rest);
    hide Tokens, Upto, Past, Skip;
  }

  lemma FollowsWord(arg: string, w: string, y: string, rest: string)
    requires arg != "" && arg[0] == '"' && PlainWord(w) && w != "" && y != "" && IsBlank(y[0])
    ensures Follows(Tokens("", (w + y) + (['"'] + rest)), arg)
  {
    WordAlone(w, y + (['"'] + rest));
    assert w[0] != '"';
    hide Tokens, Skip, QuoteFree, HasBlank;
    assert (w + y) + (['"'] + rest) == w + (y + (['"'] + rest));
  }

  lemma FollowsQuoted(arg: string, z: string, rest: string)
    requires arg != "" && arg[0] == '"' && PlainWord(z) && |z| > 1
    ensures Follows(Tokens("", z + (['"'] + rest)), arg)
  {
    WordQuoted(z, rest);
    assert z[1] != '"';
    assert (z[1..] + ['"'] + Upto(rest))[0] == z[1];
    hide Tokens, Skip, QuoteFree, HasBlank, Upto, Past;
  }

  lemma {:induction false} EscapedLast(s: string)
    requires Escaped(s) != "" && Escaped(s)[|Escaped(s)| - 1] == '\\'
    ensures |Escaped(s)| >= 2 && Escaped(s)[|Escaped(s)| - 2] == '\\'
  {
    if Escaped(s[1..]) != "" {
      EscapedLast(s[1..]);
    }
  }

  // A one-character word runs into the closing quote of its own argument, and is dropped.
  lemma OneLost(arg: string, rest: string, z: string)
    requires arg != "" && arg[0] == '"' && HasBlank(arg) && Escaped(arg) == ['"'] + Escaped(arg[1..])
    requires Skip(Escaped(arg[1..])) == z && |z| == 1 && PlainWord(z)
    requires var ts := Tokens("", Shown(arg) + rest);
      ts == [""] + ([z[1..] + ['"'] + Upto(rest)] + Tokens("", Skip(Past(rest))))
    ensures Lost(Tokens("", Shown(arg) + rest), Shown(arg) + rest)
  {
    hide *;
    var c := z[0];
    assert z == [c];
    OneLostKind(arg, z);
    assert z[1..] + ['"'] + Upto(rest) == ['"'] + Upto(rest);
    TextCount(arg, rest, c);
    WordsCount(rest, c);
    LostMade(Tokens("", Shown(arg) + rest), Shown(arg) + rest, c);
  }

  lemma LostMade(ts: seq<string>, text: string, c: char)
    requires c != '"' && c != ' ' && c != '\\' && Total(ts, c) < Count(text, c)
    ensures Lost(ts, text)
  {}

  lemma TextCount(arg: string, rest: string, c: char)
    requires HasBlank(arg) && Escaped(arg) == ['"'] + Escaped(arg[1..]) && arg != ""
    requires Skip(Escaped(arg[1..])) == [c]
    ensures Count(Shown(arg) + rest, c) >= 1 + Count(rest, c)
  {
    hide *;
    var e := Escaped(arg[1..]);
    var front := LastOf(e, c);
    ShownQuoted(arg, rest);
    Around(Escaped(arg), e, front, c, rest);
    CountConcat(['"', '"'] + front, [c] + (['"'] + rest), c);
    CountConcat([c], ['"'] + rest, c);
    CountConcat(['"'], rest, c);
    CountOne(c);
  }

  lemma CountOne(c: char)
    ensures Count([c], c) == 1
  {
    assert [c][1..] == "";
  }

  lemma LastOf(e: string, c: char) returns (front: string)
    requires Skip(e) == [c]
    ensures e == front + [c]
  {
    SkipIs(e);
    front := e[..|e| - 1];
  }

  lemma Around(escaped: string, e: string, front: string, c: char, rest: string)
    requires escaped == ['"'] + e && e == front + [c]
    ensures ['"'] + (escaped + (['"'] + rest)) == (['"', '"'] + front) + ([c] + (['"'] + rest))
  {}

  lemma WordsCount(rest: string, c: char)
    requires c != '"'
    ensures Total([""] + ([['"'] + Upto(rest)] + Tokens("", Skip(Past(rest)))), c) <= Count(rest, c)
  {
    var more := Tokens("", Skip(Past(rest)));
    CountConcat(['"'], Upto(rest), c);
    CountParts(rest, c);
    CountParts(Past(rest), c);
    TotalTokens("", Skip(Past(rest)), c);
    hide Tokens, Upto, Past, Skip;
    assert ([""] + ([['"'] + Upto(rest)] + more))[1..] == [['"'] + Upto(rest)] + more;
    assert ([['"'] + Upto(rest)] + more)[1..] == more;
    assert ['"'][1..] == "";
  }

  lemma OneLostKind(arg: string, z: string)
    requires arg != "" && arg[0] == '"' && HasBlank(arg) && PlainWord(z) && |z| == 1
    requires Skip(Escaped(arg[1..])) == z
    ensures z[0] != '\\' && z[0] != '"' && z[0] != ' '
  {
    var e := Escaped(arg[1..]);
    SkipIs(e);
    assert e[|e| - 1] == z[0];
    hide Escaped, Skip;
    if z[0] == '\\' {
      EscapedLast(arg[1..]);
    }
  }

  // ----- The exact answer --------------------------------------------------------------------------

  ghost function Empties(e: nat): seq<string> {
    seq(e, _ => "")
  }

  lemma {:induction false} TotalEmpties(e: nat, args: seq<string>, c: char)
    ensures Total(Empties(e) + args, c) == Total(args, c)
  {
    if e == 0 {
      assert Empties(e) + args == args;
    } else {
      assert (Empties(e) + args)[1..] == Empties(e - 1) + args;
      TotalEmpties(e - 1, args, c);
    }
  }

  // With any number of empty words in front, what is printed does not come back if its first
  // argument has a quote.
  lemma FirstFree(args: seq<string>, e: nat)
    requires args != [] && args[0] != "" && Tokens("", Print(args)) == Empties(e) + args
    ensures QuoteFree(args[0])
  {
    hide *;
    var arg, rest := args[0], After(args);
    PrintFirst(args);
    EmptyFree();
    EmptiesAt(e, args);
    OneQuote("", Print(args), e);
    if !QuoteFree(arg) {
      FirstDiffers(arg, rest);
      NotLost(args, e);
      if HasBlank(arg) {
        EmptyQuoted(arg, rest);
        FollowsIs(Tokens("", Print(args))[1..], arg);
      } else {
        EmptyUnquoted(arg, rest);
      }
      assert false;
    }
  }

  lemma EmptyFree()
    ensures QuoteFree("")
  {}

  lemma FollowsIs(more: seq<string>, arg: string)
    ensures Follows(more, arg) <==> more != [] && ((|more| == 1 && more[0] == "") || (more[0] != "" && more[0] != arg))
  {}

  lemma EmptiesAt(e: nat, args: seq<string>)
    requires args != []
    ensures var ts := Empties(e) + args;
      |ts| == e + |args| && ts[e] == args[0] && ts[0] == (if e > 0 then "" else args[0]) && (e > 1 ==> ts[1] == "")
    ensures e > 0 ==> Empties(e) + args == [""] + (Empties(e - 1) + args)
    ensures Empties(e) + args == (Empties(e) + [args[0]]) + args[1..]
    ensures Empties(e) + [""] == Empties(e + 1) && Empties(0) == [] && Empties(0) + args == args
  {}

  lemma NotLost(args: seq<string>, e: nat)
    ensures !Lost(Empties(e) + args, Print(args))
  {
    forall c | c != '"' && c != ' ' && c != '\\' ensures Total(Empties(e) + args, c) == Count(Print(args), c) {
      TotalEmpties(e, args, c);
      TotalPrint(args, c);
    }
  }

  lemma {:induction false} AllFree(args: seq<string>, e: nat)
    requires Split(Print(args)) == Empties(e) + args
    ensures forall i :: 0 <= i < |args| ==> QuoteFree(args[i])
    decreases |args|
  {
    hide *;
    if args != [] {
      PrintFirst(args);
      SplitIs(args);
      SplitIs(args[1..]);
      EmptiesAt(e, args);
      if args[0] == "" {
        EmptyFree();
        AllFree(args[1..], e + 1);
      } else {
        SkipShown(args[0], After(args));
        FirstFree(args, e);
        TokensShown(args[0], After(args));
        BackSome(args[0]);
        EmptiesRest(Back(args[0]), Tokens("", Skip(After(args))), args, e);
        AllFree(args[1..], 0);
      }
      assert forall i :: 0 < i < |args| ==> args[i] == args[1..][i - 1];
    }
  }

  lemma EmptiesRest(t: string, more: seq<string>, args: seq<string>, e: nat)
    requires args != [] && t != "" && [t] + more == Empties(e) + args
    ensures more == Empties(0) + args[1..]
  {
    assert ([t] + more)[0] == t;
    assert e == 0;
    assert ([t] + more)[1..] == more && Empties(0) + args == args;
  }

  lemma BackSome(arg: string)
    requires arg != ""
    ensures Back(arg) != ""
  {
    EscapedIff(arg);
  }

  // Any list of arguments survives being printed and split if and only if none is empty, none
  // holds a quote, and none with blanks holds a backslash or newline.
  lemma RoundTripIff(args: seq<string>)
    ensures Split(Print(args)) == args <==> forall i :: 0 <= i < |args| ==> Plain(args[i]) && QuoteFree(args[i])
  {
    if Split(Print(args)) == args {
      assert Empties(0) + args == args;
      AllFree(args, 0);
    }
    if forall i :: 0 <= i < |args| ==> QuoteFree(args[i]) {
      SplitFree(args);
      BackAllIff(args);
    }
  }
}
