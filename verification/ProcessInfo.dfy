/**
  What lib2ine.c gives a process when it starts: one block of 64K with the environment, the
  name of the program and the command line, written without a look at its end.
 */
module ProcessInfo {
  import opened CText
  import opened CommandLine
  import opened Environment

  const BLOCK := 0x1_0000

  // A text that is being written after `start`: `done` of `all` is written, `rest` is to come.
  ghost predicate Partly(written: string, start: string, done: string, rest: string, all: string) {
    written == start + done && done + rest == all
  }

  lemma PartlyFirst(start: string, all: string)
    ensures Partly(start, start, "", all, all)
  {
    assert start + "" == start && "" + all == all;
  }

  lemma PartlyMore(written: string, start: string, done: string, piece: string, rest: string, all: string)
    requires Partly(written, start, done, piece + rest, all)
    ensures Partly(written + piece, start, done + piece, rest, all)
  {
    assert start + done + piece == start + (done + piece);
    assert (done + piece) + rest == done + (piece + rest);
  }

  lemma PartlyLast(written: string, start: string, done: string, all: string)
    requires Partly(written, start, done, "", all)
    ensures written == start + all
  {
    assert done + "" == done;
  }

  // The moving pointer.  What it writes past the end of the buffer is not modelled, but that
  // it does is: `text` is everything written so far.
  class Writer {
    const buf: array<char>
    var ptr: nat
    ghost var text: string

    ghost predicate Valid()
      reads this, buf
    {
      |text| == ptr && forall i :: 0 <= i < ptr && i < buf.Length ==> buf[i] == text[i]
    }

    constructor (capacity: nat)
      ensures Valid() && fresh(buf) && buf.Length == capacity && text == ""
    {
      buf := new char[capacity];
      ptr, text := 0, "";
    }

    method Put(c: char)
      requires Valid()
      modifies this, buf
      ensures Valid() && text == old(text) + [c]
    {
      if ptr < buf.Length {
        buf[ptr] := c;
      }
      ptr, text := ptr + 1, text + [c];
    }

    method PutPlain(arg: string)
      requires Valid()
      modifies this, buf
      ensures Valid() && text == old(text) + arg
    {
      var i := 0;
      assert arg[..0] == "";
      while i < |arg|
        invariant 0 <= i <= |arg| && Valid() && text == old(text) + arg[..i]
      {
        Put(arg[i]);
        assert arg[..i + 1] == arg[..i] + [arg[i]];
        i := i + 1;
      }
      assert arg[..|arg|] == arg;
    }

    // ----- The command line ---------------------------------------------------------------

    method PutEscaped(arg: string)
      requires Valid()
      modifies this, buf
      ensures Valid() && text == old(text) + Escaped(arg)
    {
      ghost var start, done := text, "";
      var i := 0;
      assert arg[0..] == arg;
      hide *;
      PartlyFirst(start, Escaped(arg));
      while i < |arg|
        invariant 0 <= i <= |arg| && Valid() && Partly(text, start, done, Escaped(arg[i..]), Escaped(arg))
      {
        EscapedStep(arg, i);
        PartlyMore(text, start, done, Mark(arg[i]), Escaped(arg[i + 1..]), Escaped(arg));
        PutMarked(arg[i]);
        done, i := done + Mark(arg[i]), i + 1;
      }
      EscapedEnd(arg);
      PartlyLast(text, start, done, Escaped(arg));
    }

    method PutMarked(c: char)
      requires Valid()
      modifies this, buf
      ensures Valid() && text == old(text) + Mark(c)
    {
      if c == '\\' || c == '\n' {
        Put('\\');
      }
      Put(c);
    }

    method PutArgument(arg: string)
      requires Valid()
      modifies this, buf
      ensures Valid() && text == old(text) + Shown(arg)
    {
      hide *;
      ShownIs(arg, text);
      var escape := NeedsEscape(arg);
      if escape {
        Put('"');
        PutEscaped(arg);
        Put('"');
      } else {
        PutPlain(arg);
      }
    }

    // The part of initPib that writes the arguments.
    method PutArguments(args: seq<string>)
      requires Valid()
      modifies this, buf
      ensures Valid() && text == old(text) + Print(args) + [NUL]
    {
      ghost var start, done := text, "";
      var i := 0;
      assert args[0..] == args;
      hide *;
      PartlyFirst(start, Print(args));
      while i < |args|
        invariant 0 <= i <= |args| && Valid() && Partly(text, start, done, Print(args[i..]), Print(args))
      {
        PrintStep(args, i);
        PartlyMore(text, start, done, Piece(args, i), Print(args[i + 1..]), Print(args));
        PutPiece(args, i);
        done, i := done + Piece(args, i), i + 1;
      }
      PrintEnd(args);
      PartlyLast(text, start, done, Print(args));
      Put(NUL);
    }

    method PutPiece(args: seq<string>, i: nat)
      requires i < |args| && Valid()
      modifies this, buf
      ensures Valid() && text == old(text) + Piece(args, i)
    {
      hide Shown;
      ghost var before := text;
      PutArgument(args[i]);
      if i < |args| - 1 {
        Put(' ');
      }
      assert i == |args| - 1 ==> before + Piece(args, i) == before + Shown(args[i]);
    }

    // ----- The environment ----------------------------------------------------------------

    method PutString(s: string)
      requires Valid()
      modifies this, buf
      ensures Valid() && text == old(text) + (s + [NUL])
    {
      hide *;
      PutPlain(s);
      Put(NUL);
      assert old(text) + s + [NUL] == old(text) + (s + [NUL]);
    }

    method PutVariable(s: string, path: string, subprocess: bool)
      requires Valid()
      modifies this, buf
      ensures Valid() && text == old(text) + Variable(s, path, subprocess)
    {
      var str := s;
      if StartsWith(s, PATH) {
        if !subprocess {
          str := path;
        }
      } else if StartsWith(s, MARK) {
        assert text + "" == text;
        return;
      }
      PutString(str);
    }

    // The loop of initPib over the host's environment.
    method PutEnvironment(host: seq<string>, path: string, subprocess: bool)
      requires Valid()
      modifies this, buf
      ensures Valid() && text == old(text) + Printed(Given(host, path, subprocess))
    {
      ghost var start, done, all := text, "", Printed(Given(host, path, subprocess));
      var i := 0;
      assert host[0..] == host;
      hide *;
      PartlyFirst(start, all);
      while i < |host|
        invariant 0 <= i <= |host| && Valid()
        invariant Partly(text, start, done, Printed(Given(host[i..], path, subprocess)), all)
      {
        ghost var piece, rest := Variable(host[i], path, subprocess), Printed(Given(host[i + 1..], path, subprocess));
        GivenStep(host, i, path, subprocess);
        PartlyMore(text, start, done, piece, rest, all);
        PutVariable(host[i], path, subprocess);
        done, i := done + piece, i + 1;
      }
      GivenEnd(host, path, subprocess);
      assert [NUL] == [NUL] + "";
      PartlyMore(text, start, done, [NUL], "", all);
      Put(NUL);
      PartlyLast(text, start, done + [NUL], all);
    }
  }

  lemma EscapedEnd(arg: string)
    ensures Escaped(arg[|arg|..]) == ""
  {}

  lemma EscapedStep(arg: string, i: nat)
    requires i < |arg|
    ensures Escaped(arg[i..]) == Mark(arg[i]) + Escaped(arg[i + 1..])
  {
    assert arg[i..][1..] == arg[i + 1..];
  }

  lemma ShownIs(arg: string, before: string)
    ensures HasBlank(arg) ==> before + ['"'] + Escaped(arg) + ['"'] == before + Shown(arg)
    ensures !HasBlank(arg) ==> Shown(arg) == arg
  {
    hide HasBlank, Escaped;
  }

  // An argument, and a blank unless it is the last one.
  ghost function Piece(args: seq<string>, i: nat): string
    requires i < |args|
  {
    Shown(args[i]) + if i < |args| - 1 then [' '] else ""
  }

  lemma PrintEnd(args: seq<string>)
    ensures Print(args[|args|..]) == ""
  {}

  lemma PrintStep(args: seq<string>, i: nat)
    requires i < |args|
    ensures Print(args[i..]) == Piece(args, i) + Print(args[i + 1..])
  {
    assert args[i..][1..] == args[i + 1..];
  }

  method NeedsEscape(arg: string) returns (escape: bool)
    ensures escape == HasBlank(arg)
  {
    escape := false;
    var i := 0;
    while i < |arg|
      invariant 0 <= i <= |arg|
      invariant escape <==> exists j :: 0 <= j < i && IsBlank(arg[j])
    {
      if IsBlank(arg[i]) {
        escape := true;
      }
      i := i + 1;
    }
  }

  // What one string of the host's environment adds to the block.
  ghost function Variable(s: string, path: string, subprocess: bool): string {
    if StartsWith(s, PATH) then (if subprocess then s else path) + [NUL]
    else if StartsWith(s, MARK) then "" else s + [NUL]
  }

  lemma GivenStep(host: seq<string>, i: nat, path: string, subprocess: bool)
    requires i < |host|
    ensures Printed(Given(host[i..], path, subprocess)) ==
      Variable(host[i], path, subprocess) + Printed(Given(host[i + 1..], path, subprocess))
  {
    assert host[i..][1..] == host[i + 1..] && host[i..][0] == host[i];
    var s := if StartsWith(host[i], PATH) && !subprocess then path else host[i];
    PrintedConcat([], s, Given(host[i + 1..], path, subprocess));
    hide StartsWith, Printed;
    assert "" + Printed(Given(host[i + 1..], path, subprocess)) == Printed(Given(host[i + 1..], path, subprocess));
  }

  lemma GivenEnd(host: seq<string>, path: string, subprocess: bool)
    ensures Printed(Given(host[|host|..], path, subprocess)) == [NUL]
  {}

  // ----- The block ---------------------------------------------------------------------------

  // The whole text: the environment, the program's name, and the command line, which begins
  // with that name once more.
  ghost function Text(host: seq<string>, path: string, subprocess: bool, name: string, args: seq<string>): string {
    Printed(Given(host, path, subprocess)) + (name + [NUL]) + (name + [NUL]) + Print(args) + [NUL]
  }

  // initPib, the part that fills the block; `cmd` is where the command line is.  The source
  // writes on past the end of the block exactly if the parts are longer than 64K together.
  method InitPib(host: seq<string>, path: string, subprocess: bool, name: string, args: seq<string>)
      returns (w: Writer, cmd: nat, overrun: bool)
    ensures fresh(w) && fresh(w.buf) && w.Valid() && w.buf.Length == 0x1_0000
    ensures w.text == Text(host, path, subprocess, name, args)
    ensures cmd == |Printed(Given(host, path, subprocess))| + |name| + 1
    ensures overrun <==> |Printed(Given(host, path, subprocess))| + 2 * (|name| + 1) + |Print(args)| + 1 > 0x1_0000
    ensures !overrun ==> w.ptr <= 0x1_0000 && w.buf[..w.ptr] == w.text
  {
    w := new Writer(BLOCK);
    w.PutEnvironment(host, path, subprocess);
    w.PutString(name);
    cmd := w.ptr;
    w.PutString(name);
    w.PutArguments(args);
    overrun := w.ptr > BLOCK;
    hide Printed, Given, Print;
    assert "" + Printed(Given(host, path, subprocess)) == Printed(Given(host, path, subprocess));
  }

  // One argument of 64K is too much, whatever the environment.
  lemma LongArgument(host: seq<string>, path: string, subprocess: bool, name: string, arg: string)
    requires |arg| >= BLOCK
    ensures |Printed(Given(host, path, subprocess))| + 2 * (|name| + 1) + |Print([arg])| + 1 > BLOCK
  {
    EscapedIff(arg);
  }

  // ----- Reading the block ---------------------------------------------------------------------

  lemma {:induction false} EscapedClean(s: string)
    requires Clean(s)
    ensures Clean(Escaped(s))
  {
    if s != "" {
      EscapedClean(s[1..]);
    }
  }

  lemma {:induction false} PrintClean(args: seq<string>)
    requires AllClean(args)
    ensures Clean(Print(args))
  {
    if args != [] {
      EscapedClean(args[0]);
      PrintClean(args[1..]);
      assert Clean(Shown(args[0]));
      hide Escaped, Print;
      PrintFirst(args);
    }
  }

  lemma {:induction false} GivenClean(host: seq<string>, path: string, subprocess: bool)
    requires AllClean(host) && Clean(path)
    ensures AllClean(Given(host, path, subprocess))
  {
    if host != [] {
      GivenClean(host[1..], path, subprocess);
      assert AllClean(GivenFor(host[0], path, subprocess));
    }
  }

  // What the program finds in a block that was not overrun: the environment up to its first
  // empty string, then its name, and at `cmd` its name and the printed arguments.
  lemma ReadsBack(host: seq<string>, path: string, subprocess: bool, name: string, args: seq<string>)
    requires AllClean(host) && Clean(path) && Clean(name) && AllClean(args)
    ensures var text, at := Text(host, path, subprocess, name, args), |Printed(Given(host, path, subprocess))|;
      Entries(text) == Kept(Given(host, path, subprocess)) && Front(text[at..]) == name &&
      Front(text[at + |name| + 1..]) == name && Front(Rest(text[at + |name| + 1..])) == Print(args)
  {
    hide *;
    var given, line := Printed(Given(host, path, subprocess)), Print(args);
    GivenClean(host, path, subprocess);
    PrintClean(args);
    TextParts(host, path, subprocess, name, args);
    EntriesPrinted(Given(host, path, subprocess), name + [NUL] + (name + [NUL] + (line + [NUL] + "")));
    FrontRest(name, name + [NUL] + (line + [NUL] + ""));
    FrontRest(name, line + [NUL] + "");
    FrontRest(line, "");
  }

  lemma TextParts(host: seq<string>, path: string, subprocess: bool, name: string, args: seq<string>)
    ensures var text, given, line :=
        Text(host, path, subprocess, name, args), Printed(Given(host, path, subprocess)), Print(args);
      text == given + (name + [NUL] + (name + [NUL] + (line + [NUL] + ""))) &&
      |given| + |name| + 1 <= |text| &&
      text[|given|..] == name + [NUL] + (name + [NUL] + (line + [NUL] + "")) &&
      text[|given| + |name| + 1..] == name + [NUL] + (line + [NUL] + "")
  {
    Slices(Printed(Given(host, path, subprocess)), name, Print(args));
    hide Printed, Given, Print;
  }

  lemma Slices(given: string, name: string, line: string)
    ensures var text := given + (name + [NUL]) + (name + [NUL]) + line + [NUL];
      text == given + (name + [NUL] + (name + [NUL] + (line + [NUL] + ""))) &&
      text[|given|..] == name + [NUL] + (name + [NUL] + (line + [NUL] + "")) &&
      text[|given| + |name| + 1..] == name + [NUL] + (line + [NUL] + "")
  {}
}
