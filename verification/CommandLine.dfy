/**
  The command line of a process: lib2ine.c prints the arguments of a program into one
  string, and native/doscalls.c splits such a string when a program starts another one.
 */
module CommandLine {

  predicate IsBlank(c: char) {
    c == ' ' || c == '\t'
  }

  ghost predicate HasBlank(s: string) {
    exists i :: 0 <= i < |s| && IsBlank(s[i])
  }

  // ----- Printing ----------------------------------------------------------------------

  // Inside quotes, a backslash or a newline gets a backslash in front.
  ghost function Mark(c: char): string {
    if c == '\\' || c == '\n' then ['\\', c] else [c]
  }

  ghost function Escaped(s: string): string {
    if s == "" then "" else Mark(s[0]) + Escaped(s[1..])
  }

  ghost function Shown(arg: string): string {
    if HasBlank(arg) then ['"'] + Escaped(arg) + ['"'] else arg
  }

  ghost function Print(args: seq<string>): string {
    if args == [] then "" else if |args| == 1 then Shown(args[0]) else Shown(args[0]) + [' '] + Print(args[1..])
  }

  // ----- Splitting -----------------------------------------------------------------------

  ghost function Skip(s: string): string {
    if s != "" && IsBlank(s[0]) then Skip(s[1..]) else s
  }

  lemma {:induction false} SkipIs(s: string)
    ensures Skip(s) != "" ==> !IsBlank(Skip(s)[0])
    ensures |Skip(s)| <= |s| && s == s[..|s| - |Skip(s)|] + Skip(s)
    ensures forall i :: 0 <= i < |s| - |Skip(s)| ==> IsBlank(s[i])
  {
    if s != "" && IsBlank(s[0]) {
      SkipIs(s[1..]);
      assert forall i :: 0 < i < |s| ==> s[i] == s[1..][i - 1];
    }
  }

  // Up to the next quote or the end.
  ghost function Upto(s: string): string {
    if s == "" || s[0] == '"' then "" else [s[0]] + Upto(s[1..])
  }

  ghost function Past(s: string): string {
    if s == "" then "" else if s[0] == '"' then s[1..] else Past(s[1..])
  }

  lemma {:induction false} SkipPast(s: string)
    ensures |Skip(s)| <= |s| && |Past(s)| <= |s| && |Upto(s)| <= |s|
  {
    if s != "" {
      SkipPast(s[1..]);
    }
  }

  // The words of `rest`, the first of which has begun with `w`.  A quote ends a word with
  // what follows it up to the next quote, and drops the first character so far.
  ghost function Tokens(w: string, rest: string): seq<string>
    decreases |rest|
  {
    if rest == "" then if w == "" then [] else [w]
    else
      SkipPast(rest[1..]);
      SkipPast(Past(rest[1..]));
      if IsBlank(rest[0]) then [w] + Tokens("", Skip(rest[1..]))
      else if rest[0] == '"' then [(w + [rest[0]])[1..] + Upto(rest[1..])] + Tokens("", Skip(Past(rest[1..])))
      else Tokens(w + [rest[0]], rest[1..])
  }

  ghost function Split(cmd: string): seq<string> {
    Tokens("", Skip(cmd))
  }

  // ----- Splitting what was printed ------------------------------------------------------------

  ghost predicate QuoteFree(s: string) {
    forall i :: 0 <= i < |s| ==> s[i] != '"'
  }

  // What comes back: no empty argument, and in an argument with blanks each backslash and
  // newline keeps the backslash it was given.
  ghost function Back(arg: string): string {
    if HasBlank(arg) then Escaped(arg) else arg
  }

  ghost function BackAll(args: seq<string>): seq<string> {
    if args == [] then [] else (if args[0] == "" then [] else [Back(args[0])]) + BackAll(args[1..])
  }

  lemma {:induction false} TokensWord(w: string, x: string, rest: string)
    requires QuoteFree(x) && !HasBlank(x)
    ensures Tokens(w, x + rest) == Tokens(w + x, rest)
    decreases |x|
  {
    if x == "" {
      assert x + rest == rest && w + x == w;
    } else {
      assert !IsBlank(x[0]);
      assert !HasBlank(x[1..]) by {
        assert forall i :: 0 <= i < |x[1..]| ==> x[1..][i] == x[i + 1];
      }
      assert (x + rest)[1..] == x[1..] + rest;
      TokensWord(w + [x[0]], x[1..], rest);
      assert w + [x[0]] + x[1..] == w + x;
    }
  }

  lemma {:induction false} UptoQuote(x: string, rest: string)
    requires QuoteFree(x)
    ensures Upto(x + ['"'] + rest) == x && Past(x + ['"'] + rest) == rest
  {
    if x != "" {
      assert (x + ['"'] + rest)[1..] == x[1..] + ['"'] + rest;
      UptoQuote(x[1..], rest);
      assert x == [x[0]] + x[1..];
    } else {
      assert x + ['"'] + rest == ['"'] + rest;
    }
  }

  lemma {:induction false} EscapedQuoteFree(s: string)
    requires QuoteFree(s)
    ensures QuoteFree(Escaped(s))
  {
    if s != "" {
      EscapedQuoteFree(s[1..]);
    }
  }

  // A text that begins with a quote.
  lemma QuotedWord(y: string)
    ensures Tokens("", ['"'] + y) == [Upto(y)] + Tokens("", Skip(Past(y)))
  {
    var s := ['"'] + y;
    assert s[1..] == y && s[0] == '"';
    assert ("" + ['"'])[1..] + Upto(y) == Upto(y);
    hide Upto, Past, Skip;
  }

  lemma TokensQuoted(e: string, rest: string)
    requires QuoteFree(e)
    ensures Tokens("", ['"'] + e + ['"'] + rest) == [e] + Tokens("", Skip(rest))
  {
    var s := ['"'] + e + ['"'] + rest;
    assert s[1..] == e + ['"'] + rest;
    UptoQuote(e, rest);
    assert ("" + ['"'])[1..] + e == e;
    hide Upto, Past, QuoteFree;
    assert !IsBlank(s[0]) && s[0] == '"';
  }

  lemma TokensEnd(w: string, rest: string)
    requires w != "" && (rest == "" || IsBlank(rest[0]))
    ensures Tokens(w, rest) == [w] + Tokens("", Skip(rest))
  {
    assert rest == "" ==> Tokens("", Skip(rest)) == [];
  }

  lemma SkipShown(arg: string, rest: string)
    requires arg != ""
    ensures Skip(Shown(arg) + rest) == Shown(arg) + rest
  {
    hide Escaped;
    assert Shown(arg) != "" && !IsBlank(Shown(arg)[0]);
  }

  // One printed argument and what comes after it.
  lemma TokensShown(arg: string, rest: string)
    requires QuoteFree(arg) && arg != "" && (rest == "" || IsBlank(rest[0]))
    ensures Tokens("", Shown(arg) + rest) == [Back(arg)] + Tokens("", Skip(rest))
  {
    hide QuoteFree, Escaped, Tokens, Skip, HasBlank;
    if HasBlank(arg) {
      EscapedQuoteFree(arg);
      TokensQuoted(Escaped(arg), rest);
    } else {
      TokensWord("", arg, rest);
      assert "" + arg == arg;
      TokensEnd(arg, rest);
    }
  }

  // How many arguments come before the first one with a quote.
  ghost function Clear(args: seq<string>): (k: nat)
    ensures k <= |args|
  {
    if args == [] || !QuoteFree(args[0]) then 0 else 1 + Clear(args[1..])
  }

  lemma {:induction false} ClearAll(args: seq<string>)
    ensures Clear(args) == |args| <==> forall i :: 0 <= i < |args| ==> QuoteFree(args[i])
  {
    if args != [] {
      ClearAll(args[1..]);
      assert forall i :: 0 < i < |args| ==> args[i] == args[1..][i - 1];
    }
  }

  // The printed text of the first argument, and of the others.
  ghost function After(args: seq<string>): string
    requires args != []
  {
    if |args| == 1 then "" else [' '] + Print(args[1..])
  }

  lemma PrintFirst(args: seq<string>)
    requires args != []
    ensures Print(args) == Shown(args[0]) + After(args) && (After(args) == "" || IsBlank(After(args)[0]))
    ensures Skip(After(args)) == Skip(Print(args[1..]))
    ensures args[0] == "" ==> Print(args) == After(args)
  {
    if |args| == 1 {
      assert args[1..] == [];
    } else {
      assert After(args)[1..] == Print(args[1..]);
      assert Shown(args[0]) + [' '] + Print(args[1..]) == Shown(args[0]) + After(args);
    }
    assert args[0] == "" ==> Shown(args[0]) + After(args) == After(args);
  }

  // The splitter gives back the arguments printed, but for what Back changes, up to the first
  // argument with a quote.
  lemma {:induction false} SplitPrint(args: seq<string>)
    ensures Split(Print(args)) == BackAll(args[..Clear(args)]) + Split(Print(args[Clear(args)..]))
  {
    hide *;
    if args == [] || !QuoteFree(args[0]) {
      ClearNone(args);
    } else {
      var k := Clear(args[1..]);
      var more := Split(Print(args[1..][k..]));
      SplitPrint(args[1..]);
      PrintFirst(args);
      SplitClear(args, k);
      SplitIs(args);
      SplitIs(args[1..]);
      Prepended(Back(args[0]), BackAll(args[1..][..k]), more);
      if args[0] != "" {
        SkipShown(args[0], After(args));
        TokensShown(args[0], After(args));
      }
    }
  }

  lemma Prepended(t: string, a: seq<string>, b: seq<string>)
    ensures [t] + (a + b) == ([t] + a) + b && [] + (a + b) == ([] + a) + b == a + b
  {}

  lemma SplitIs(args: seq<string>)
    ensures Split(Print(args)) == Tokens("", Skip(Print(args)))
  {}

  lemma ClearNone(args: seq<string>)
    requires args == [] || !QuoteFree(args[0])
    ensures args[Clear(args)..] == args && BackAll(args[..Clear(args)]) == []
    ensures [] + Split(Print(args)) == Split(Print(args))
  {}

  lemma SplitClear(args: seq<string>, k: nat)
    requires args != [] && QuoteFree(args[0]) && k == Clear(args[1..])
    ensures args[Clear(args)..] == args[1..][k..]
    ensures BackAll(args[..Clear(args)]) == (if args[0] == "" then [] else [Back(args[0])]) + BackAll(args[1..][..k])
  {
    hide Back, QuoteFree;
    assert Clear(args) == 1 + k;
    assert args[..1 + k][1..] == args[1..][..k] && args[..1 + k][0] == args[0];
    hide Clear;
  }

  // Without quotes, that is all there is to it.
  lemma SplitFree(args: seq<string>)
    requires forall i :: 0 <= i < |args| ==> QuoteFree(args[i])
    ensures Split(Print(args)) == BackAll(args)
  {
    ClearAll(args);
    SplitPrint(args);
    assert args[..|args|] == args && args[|args|..] == [];
    assert BackAll(args) + [] == BackAll(args);
  }

  // ----- When nothing changes ----------------------------------------------------------------

  // Nothing that the printer or the splitter would alter.
  ghost predicate Plain(arg: string) {
    arg != "" && (HasBlank(arg) ==> forall i :: 0 <= i < |arg| ==> arg[i] != '\\' && arg[i] != '\n')
  }

  lemma {:induction false} EscapedIff(s: string)
    ensures |Escaped(s)| >= |s|
    ensures Escaped(s) == s <==> forall i :: 0 <= i < |s| ==> s[i] != '\\' && s[i] != '\n'
  {
    if s != "" {
      EscapedIff(s[1..]);
      assert s == [s[0]] + s[1..];
      if s[0] != '\\' && s[0] != '\n' {
        assert Escaped(s)[1..] == Escaped(s[1..]);
        assert forall i :: 0 < i < |s| ==> s[i] == s[1..][i - 1];
      }
    }
  }

  lemma {:induction false} BackAllIff(args: seq<string>)
    ensures |BackAll(args)| <= |args|
    ensures BackAll(args) == args <==> forall i :: 0 <= i < |args| ==> Plain(args[i])
  {
    if args != [] {
      BackAllIff(args[1..]);
      EscapedIff(args[0]);
      assert args == [args[0]] + args[1..];
      if args[0] != "" {
        assert BackAll(args)[1..] == BackAll(args[1..]) && BackAll(args)[0] == Back(args[0]);
        assert Back(args[0]) == args[0] <==> Plain(args[0]);
        assert forall i :: 0 < i < |args| ==> args[i] == args[1..][i - 1];
        assert BackAll(args) == args <==> Back(args[0]) == args[0] && BackAll(args[1..]) == args[1..];
      }
    }
  }
}
