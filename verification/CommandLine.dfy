/** The command line in the report of FFmpeg/fftools/cmdutils.c: arguments are written bare if
    they consist of harmless characters, otherwise quoted and escaped. A parser reads them back. */
module CommandLine {

  type Byte = x: int | 0 <= x < 256
  type NonZero = x: int | 0 < x < 256 witness 1

  // A C string, without its final zero.
  type Arg = seq<NonZero>
  type Text = seq<Byte>

  const SPACE: Byte := 0x20
  const QUOTE: Byte := 0x22
  const DOLLAR: Byte := 0x24
  const BACKSLASH: Byte := 0x5C
  const BACKTICK: Byte := 0x60
  const NEWLINE: Byte := 0x0A
  const LOWER_X: Byte := 0x78

  // '+' to ':', '@' to 'Z', '_', 'a' to 'z'.
  predicate IsBare(c: Byte) {
    0x2B <= c <= 0x3A || 0x40 <= c <= 0x5A || c == 0x5F || 0x61 <= c <= 0x7A
  }

  predicate AllBare(a: Arg) { forall i | 0 <= i < |a| :: IsBare(a[i]) }

  predicate NeedsBackslash(c: Byte) { c == BACKSLASH || c == QUOTE || c == DOLLAR || c == BACKTICK }

  function HexDigit(d: int): (c: Byte)
    requires 0 <= d < 16
  {
    if d < 10 then 0x30 + d else 0x61 + (d - 10)
  }

  function Escaped(c: NonZero): Text {
    if NeedsBackslash(c) then [BACKSLASH, c]
    else if c < 0x20 || c > 0x7E then [BACKSLASH, LOWER_X, HexDigit(c / 16), HexDigit(c % 16)]
    else [c]
  }

  function EscapedAll(a: Arg): Text {
    if a == [] then [] else Escaped(a[0]) + EscapedAll(a[1..])
  }

  function Dumped(a: Arg): Text {
    if AllBare(a) then a else [QUOTE] + EscapedAll(a) + [QUOTE]
  }

  // Arguments separated by spaces and ended by a newline.
  function Line(args: seq<Arg>): Text
    requires args != []
  {
    if |args| == 1 then Dumped(args[0]) + [NEWLINE] else Dumped(args[0]) + [SPACE] + Line(args[1..])
  }

  // ------------------------------------------------------------------ reading it back

  datatype Parsed<T> = Parsed(value: T, rest: Text) | Malformed

  function HexValue(c: Byte): int {
    if 0x30 <= c <= 0x39 then c - 0x30 else if 0x61 <= c <= 0x66 then c - 0x61 + 10 else -1
  }

  // A byte that can be printed as it is.
  predicate IsPrintable(c: Byte) { ' ' as int <= c <= '~' as int }

  // What a shell reads specially between double quotes.
  predicate IsSpecial(c: Byte) { c == '\"' as int || c == '$' as int || c == '`' as int || c == '\\' as int }

  // One character of a quoted argument; none at the closing quote. A shell's special characters must
  // stand behind a backslash and other printable ones must not; the rest stands as \x and two digits.
  function ParseChar(s: Text): Parsed<Byte> {
    if s == [] || !IsPrintable(s[0]) then Malformed
    else if !IsSpecial(s[0]) then Parsed(s[0], s[1..])
    else if s[0] != BACKSLASH || |s| < 2 then Malformed
    else if IsSpecial(s[1]) then Parsed(s[1], s[2..])
    else if s[1] != LOWER_X || |s| < 4 || HexValue(s[2]) < 0 || HexValue(s[3]) < 0 then Malformed
    else
      var n := HexValue(s[2]) * 16 + HexValue(s[3]);
      if n > 255 || n == 0 || IsPrintable(n) then Malformed else Parsed(n, s[4..])
  }

  function ParseQuoted(s: Text): Parsed<seq<Byte>>
    decreases |s|
  {
    if s != [] && s[0] == QUOTE then Parsed([], s[1..])
    else
      var c := ParseChar(s);
      if c.Malformed? || |c.rest| >= |s| then Malformed
      else
        var more := ParseQuoted(c.rest);
        if more.Malformed? then Malformed else Parsed([c.value] + more.value, more.rest)
  }

  function ParseBare(s: Text): Parsed<seq<Byte>>
    decreases |s|
  {
    if s == [] || !IsBare(s[0]) then Parsed([], s)
    else
      var more := ParseBare(s[1..]);
      if more.Malformed? then Malformed else Parsed([s[0]] + more.value, more.rest)
  }

  // A quoted argument must need its quotes.
  function ParseArg(s: Text): Parsed<seq<Byte>> {
    if s != [] && s[0] == QUOTE then
      var a := ParseQuoted(s[1..]);
      if a.Parsed? && AllBareBytes(a.value) then Malformed else a
    else ParseBare(s)
  }

  predicate AllBareBytes(a: seq<Byte>) { forall i | 0 <= i < |a| :: IsBare(a[i]) }

  function ParseLine(s: Text): Parsed<seq<seq<Byte>>>
    decreases |s|
  {
    var a := ParseArg(s);
    if a.Malformed? || a.rest == [] then Malformed
    else if a.rest[0] == NEWLINE then Parsed([a.value], a.rest[1..])
    else if a.rest[0] != SPACE || |a.rest| > |s| then Malformed
    else
      var more := ParseLine(a.rest[1..]);
      if more.Malformed? then Malformed else Parsed([a.value] + more.value, more.rest)
  }

  // ------------------------------------------------------------------ the round trip

  lemma {:induction false} QuotedRoundTrip(a: Arg, rest: Text)
    ensures ParseQuoted(EscapedAll(a) + [QUOTE] + rest) == Parsed(a, rest)
  {
    if a == [] {
      assert [] + [QUOTE] + rest == [QUOTE] + rest;
    } else {
      var tail := EscapedAll(a[1..]) + [QUOTE] + rest;
      assert EscapedAll(a) + [QUOTE] + rest == Escaped(a[0]) + tail;
      QuotedRoundTrip(a[1..], rest);
      assert [a[0]] + a[1..] == a;
    }
  }

  lemma {:induction false} BareRoundTrip(a: Arg, rest: Text)
    requires AllBare(a) && rest != [] && !IsBare(rest[0])
    ensures ParseBare(a + rest) == Parsed(a, rest)
  {
    if a == [] {
      assert a + rest == rest;
    } else {
      assert (a + rest)[1..] == a[1..] + rest;
      BareRoundTrip(a[1..], rest);
      assert [a[0]] + a[1..] == a;
    }
  }

  // Bare, quoted and empty arguments cannot be confused, as long as a separator follows.
  lemma ArgRoundTrip(a: Arg, rest: Text)
    requires rest != [] && (rest[0] == SPACE || rest[0] == NEWLINE)
    ensures ParseArg(Dumped(a) + rest) == Parsed(a, rest)
  {
    hide ParseBare, ParseQuoted, EscapedAll;
    if AllBare(a) {
      BareRoundTrip(a, rest);
      assert a != [] ==> (a + rest)[0] == a[0];
    } else {
      assert Dumped(a) + rest == [QUOTE] + (EscapedAll(a) + [QUOTE] + rest);
      QuotedRoundTrip(a, rest);
    }
  }

  // The line parses back to the same arguments, and the parser stops right behind it.
  lemma {:induction false} LineRoundTrip(args: seq<Arg>, rest: Text)
    requires args != []
    ensures ParseLine(Line(args) + rest) == Parsed(args, rest)
  {
    hide ParseArg, Dumped;
    if |args| == 1 {
      assert Line(args) + rest == Dumped(args[0]) + ([NEWLINE] + rest);
      ArgRoundTrip(args[0], [NEWLINE] + rest);
      assert args == [args[0]];
    } else {
      var tail := Line(args[1..]) + rest;
      assert Line(args) + rest == Dumped(args[0]) + ([SPACE] + tail);
      ArgRoundTrip(args[0], [SPACE] + tail);
      LineRoundTrip(args[1..], rest);
      assert args == [args[0]] + args[1..];
    }
  }

  // ------------------------------------------------------------------ nothing else is a line

  // Letters, digits and a few signs that no shell reads specially stand bare.
  lemma BareExactly(c: Byte)
    ensures IsBare(c) <==>
              || 'a' as int <= c <= 'z' as int || 'A' as int <= c <= 'Z' as int || '0' as int <= c <= '9' as int
              || c == '+' as int || c == ',' as int || c == '-' as int || c == '.' as int || c == '/' as int
              || c == ':' as int || c == '@' as int || c == '_' as int
  {}

  predicate AllNonZero(a: seq<Byte>) { forall i | 0 <= i < |a| :: a[i] != 0 }

  lemma CharIsEscaped(s: Text)
    requires ParseChar(s).Parsed?
    ensures var c := ParseChar(s); c.value != 0 && s == Escaped(c.value) + c.rest && |c.rest| < |s|
  {
    if IsSpecial(s[0]) && !IsSpecial(s[1]) {
      assert s == [s[0], s[1], s[2], s[3]] + s[4..];
    }
  }

  lemma OneMore(c: Byte, a: seq<Byte>)
    ensures ([c] + a)[1..] == a
    ensures AllNonZero([c] + a) <==> c != 0 && AllNonZero(a)
    ensures AllBareBytes([c] + a) <==> IsBare(c) && AllBareBytes(a)
  {
    assert AllNonZero([c] + a) ==> forall i | 0 <= i < |a| :: ([c] + a)[i + 1] == a[i];
    if AllNonZero([c] + a) { assert ([c] + a)[0] == c; }
    if AllNonZero([c] + a) { forall i | 0 <= i < |a| ensures a[i] != 0 { assert ([c] + a)[i + 1] == a[i]; } }
    if AllBareBytes([c] + a) {
      assert ([c] + a)[0] == c;
      forall i | 0 <= i < |a| ensures IsBare(a[i]) { assert ([c] + a)[i + 1] == a[i]; }
    }
  }

  lemma Joined(a: Text, b: Text, c: Text)
    ensures a + (b + c) == a + b + c
  {}

  lemma {:induction false} QuotedIsEscaped(s: Text)
    requires ParseQuoted(s).Parsed?
    ensures var a := ParseQuoted(s); AllNonZero(a.value) && s == EscapedAll(a.value) + [QUOTE] + a.rest
    decreases |s|
  {
    if s != [] && s[0] == QUOTE {
      assert s == [] + [QUOTE] + s[1..];
    } else {
      var c := ParseChar(s);
      CharIsEscaped(s);
      hide ParseChar, Escaped, AllNonZero;
      QuotedIsEscaped(c.rest);
      var more := ParseQuoted(c.rest);
      OneMore(c.value, more.value);
      QuotedStep(c.value, more.value);
      hide EscapedAll, ParseQuoted;
      var e, es := Escaped(c.value), EscapedAll(more.value);
      Joined(e, es + [QUOTE], more.rest);
      Joined(e, es, [QUOTE]);
    }
  }

  lemma QuotedStep(c: NonZero, a: Arg)
    ensures EscapedAll([c] + a) == Escaped(c) + EscapedAll(a)
  {
    assert ([c] + a)[1..] == a;
  }

  lemma {:induction false} BareIsItself(s: Text)
    ensures var a := ParseBare(s); a.Parsed? && AllBareBytes(a.value) && AllNonZero(a.value) && s == a.value + a.rest
    decreases |s|
  {
    if s == [] || !IsBare(s[0]) {
      assert s == [] + s;
    } else {
      BareIsItself(s[1..]);
      var more := ParseBare(s[1..]);
      assert s == [s[0]] + s[1..];
      assert s[0] != 0;
      hide AllBareBytes, AllNonZero, IsBare;
      OneMore(s[0], more.value);
      Joined([s[0]], more.value, more.rest);
    }
  }

  lemma ArgIsDumped(s: Text)
    requires ParseArg(s).Parsed?
    ensures var a := ParseArg(s); AllNonZero(a.value) && s == Dumped(a.value) + a.rest
  {
    hide ParseQuoted, ParseBare, EscapedAll;
    if s != [] && s[0] == QUOTE {
      QuotedIsEscaped(s[1..]);
      var a := ParseQuoted(s[1..]);
      assert s == [QUOTE] + s[1..];
      assert [QUOTE] + (EscapedAll(a.value) + [QUOTE] + a.rest) == [QUOTE] + EscapedAll(a.value) + [QUOTE] + a.rest;
    } else {
      BareIsItself(s);
    }
  }

  ghost predicate AreArgs(args: seq<seq<Byte>>) { forall i | 0 <= i < |args| :: AllNonZero(args[i]) }

  // Whatever the parser accepts was written by the report, in just this way: no character stands
  // escaped that need not be, or bare that must not, and no argument is quoted without need.
  lemma {:induction false} LineIsExact(s: Text)
    requires ParseLine(s).Parsed?
    ensures var r := ParseLine(s); r.value != [] && AreArgs(r.value) && s == Line(r.value) + r.rest
    decreases |s|
  {
    var a := ParseArg(s);
    ArgIsDumped(s);
    hide ParseArg, Dumped, AllNonZero;
    if a.rest[0] == NEWLINE {
      LastArgument(a.value);
      hide ParseArg, Dumped, AllNonZero, Line;
      assert a.rest == [NEWLINE] + a.rest[1..];
      Joined(Dumped(a.value), [NEWLINE], a.rest[1..]);
    } else {
      LineIsExact(a.rest[1..]);
      var more := ParseLine(a.rest[1..]);
      MoreArguments(a.value, more.value);
      hide ParseArg, Dumped, AllNonZero, Line, AreArgs;
      assert a.rest == [SPACE] + a.rest[1..];
      Joined([SPACE], Line(more.value), more.rest);
      Joined(Dumped(a.value), [SPACE] + Line(more.value), more.rest);
      Joined(Dumped(a.value), [SPACE], Line(more.value));
    }
  }

  lemma LastArgument(a: seq<Byte>)
    requires AllNonZero(a)
    ensures AreArgs([a]) && Line([a]) == Dumped(a) + [NEWLINE]
  {}

  lemma MoreArguments(a: seq<Byte>, more: seq<seq<Byte>>)
    requires AllNonZero(a) && AreArgs(more) && more != []
    ensures AreArgs([a] + more) && Line([a] + more) == Dumped(a) + [SPACE] + Line(more)
  {
    assert ([a] + more)[1..] == more;
    hide AllNonZero, Dumped;
  }

  // ------------------------------------------------------------------ the report

  class Report {
    var text: Text

    constructor ()
      ensures text == []
    {
      text := [];
    }

    method DumpArgument(a: Arg)
      modifies this
      ensures text == old(text) + Dumped(a)
    {
      hide AllBare, EscapedAll;
      var p := FirstOdd(a);
      if p == |a| {
        text := text + a;
      } else {
        text := text + [QUOTE];
        WriteEscaped(a);
        text := text + [QUOTE];
      }
    }

    // The first character that may not stand bare.
    method FirstOdd(a: Arg) returns (p: nat)
      ensures p <= |a| && (p == |a| <==> AllBare(a))
    {
      p := 0;
      while p < |a| && IsBare(a[p])
        invariant p <= |a| && forall i | 0 <= i < p :: IsBare(a[i])
      {
        p := p + 1;
      }
    }

    method WriteEscaped(a: Arg)
      modifies this
      ensures text == old(text) + EscapedAll(a)
    {
      var p := 0;
      while p < |a|
        invariant p <= |a| && text + EscapedAll(a[p..]) == old(text) + EscapedAll(a)
      {
        ghost var was := text;
        WriteEscape(a[p]);
        assert a[p..][1..] == a[p + 1..];
        assert was + (Escaped(a[p]) + EscapedAll(a[p + 1..])) == text + EscapedAll(a[p + 1..]);
        p := p + 1;
      }
      assert a[p..] == [] && text + [] == text;
    }

    method WriteEscape(c: NonZero)
      modifies this
      ensures text == old(text) + Escaped(c)
    {
      if c == BACKSLASH || c == QUOTE || c == DOLLAR || c == BACKTICK {
        text := text + [BACKSLASH, c];
      } else if c < 0x20 || c > 0x7E {
        var n: int := c;
        text := text + [BACKSLASH, LOWER_X, HexDigit(n / 16), HexDigit(n % 16)];
      } else {
        text := text + [c];
      }
    }

    // The arguments of the program; nothing at all if there are none.
    method DumpCommandLine(argv: seq<Arg>)
      modifies this
      ensures text == old(text) + LineOrNothing(argv)
    {
      hide Dumped, Line;
      var i := 0;
      assert argv[0..] == argv;
      while i < |argv|
        invariant i <= |argv| && text + LineOrNothing(argv[i..]) == old(text) + LineOrNothing(argv)
      {
        ghost var was := text;
        DumpArgument(argv[i]);
        text := text + [if i < |argv| - 1 then SPACE else NEWLINE];
        OneArgument(argv[i..]);
        assert argv[i..][1..] == argv[i + 1..];
        assert was + LineOrNothing(argv[i..]) == text + LineOrNothing(argv[i + 1..]);
        i := i + 1;
      }
      assert argv[i..] == [] && text + [] == text;
    }
  }

  function LineOrNothing(args: seq<Arg>): Text { if args == [] then [] else Line(args) }

  lemma OneArgument(args: seq<Arg>)
    requires args != []
    ensures LineOrNothing(args) == Dumped(args[0]) + [if |args| > 1 then SPACE else NEWLINE] + LineOrNothing(args[1..])
  {
    hide Dumped;
    assert Dumped(args[0]) + [NEWLINE] + [] == Dumped(args[0]) + [NEWLINE];
  }
}
