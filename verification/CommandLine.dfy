/**
  Splitting a Windows command line by the CommandLineToArgvW backslash and quote rules, and
  the documented quoting it undoes.
 */
module CommandLine {
  const QUOTE: char := '"'
  const BACKSLASH: char := '\\'

  predicate IsBlank(c: char) {
    c == ' ' || c == '\t'
  }

  function Backslashes(n: nat): (s: string)
    ensures |s| == n
    ensures forall i :: 0 <= i < n ==> s[i] == BACKSLASH
  {
    seq(n, _ => BACKSLASH)
  }

  /** The number of backslashes `input` starts with. */
  function LeadingBackslashes(input: string): (n: nat)
    ensures n <= |input|
    ensures forall i :: 0 <= i < n ==> input[i] == BACKSLASH
    ensures n < |input| ==> input[n] != BACKSLASH
  {
    if input == "" || input[0] != BACKSLASH then 0 else 1 + LeadingBackslashes(input[1..])
  }

  lemma Regroup(a: string, b: string, c: string)
    ensures a + b + c == a + (b + c)
  {
  }

  lemma Regroup5(a: string, b: string, c: string, d: string, e: string)
    ensures a + b + c + d + e == a + (b + (c + d + e))
  {
  }

  lemma Behead(c: char, rest: string)
    ensures ([c] + rest)[1..] == rest && ([c] + rest)[0] == c
  {
  }

  // ---------------------------------------------------------------- the rules

  /** One argument read from the front of the input, and what is left. */
  datatype Scan = Scan(argument: string, rest: string)

  /** What one turn adds to the argument, how much it uses after the backslashes, and the mode. */
  datatype Turn = Turn(text: string, used: nat, inQuotes: bool)

  /**
    The rules, for `n` backslashes followed by `more`: 2n backslashes before a quote give n and
    a quote that opens or closes, 2n + 1 give n and a literal quote, a doubled quote inside
    quotes is a literal one, and other backslashes stand for themselves.
   */
  function TurnAfter(n: nat, more: string, inQuotes: bool): (t: Turn)
    ensures t.used <= |more| && (more != "" ==> t.used > 0)
  {
    if more == "" then Turn(Backslashes(n), 0, inQuotes)
    else if more[0] != QUOTE then Turn(Backslashes(n) + [more[0]], 1, inQuotes)
    else if n % 2 == 1 then Turn(Backslashes(n / 2) + [QUOTE], 1, inQuotes)
    else if inQuotes && |more| > 1 && more[1] == QUOTE then Turn(Backslashes(n / 2) + [QUOTE], 2, inQuotes)
    else Turn(Backslashes(n / 2), 1, !inQuotes)
  }

  /** Reads on in one argument, `done` so far, up to an unquoted blank or the end. */
  function ReadOn(done: string, input: string, inQuotes: bool): (r: Scan)
    ensures |r.rest| <= |input|
    ensures input != "" && (inQuotes || !IsBlank(input[0])) ==> |r.rest| < |input|
    decreases |input|
  {
    if input == "" || (!inQuotes && IsBlank(input[0])) then Scan(done, input)
    else
      var n := LeadingBackslashes(input);
      var t := TurnAfter(n, input[n..], inQuotes);
      ReadOn(done + t.text, input[n..][t.used..], t.inQuotes)
  }

  function SkipBlanks(input: string): (rest: string)
    ensures |rest| <= |input|
    ensures rest != "" ==> !IsBlank(rest[0])
  {
    if input != "" && IsBlank(input[0]) then SkipBlanks(input[1..]) else input
  }

  /** All arguments of a command line. */
  function Arguments(input: string): seq<string>
    decreases |input|
  {
    var rest := SkipBlanks(input);
    if rest == "" then []
    else
      var r := ReadOn("", rest, false);
      [r.argument] + Arguments(r.rest)
  }

  // ---------------------------------------------------------------- the parser

  /** One turn of the argument loop, on `n` backslashes followed by `more`. */
  lemma ReadTurn(done: string, n: nat, more: string, inQuotes: bool)
    requires more != "" ==> more[0] != BACKSLASH
    requires n > 0 || (more != "" && (inQuotes || !IsBlank(more[0])))
    ensures var t := TurnAfter(n, more, inQuotes);
      ReadOn(done, Backslashes(n) + more, inQuotes) == ReadOn(done + t.text, more[t.used..], t.inQuotes)
  {
    var input := Backslashes(n) + more;
    LeadingUnique(input, n);
    assert input[n..] == more;
  }

  /** The backslash loop: how many there are from `index` on. */
  method CountBackslashes(input: string, index: nat) returns (n: nat)
    requires index <= |input|
    ensures index + n <= |input| && (index + n < |input| ==> input[index + n] != BACKSLASH)
    ensures input[index..] == Backslashes(n) + input[index + n..]
  {
    n := 0;
    while index + n < |input| && input[index + n] == BACKSLASH
      invariant index + n <= |input|
      invariant forall i :: index <= i < index + n ==> input[i] == BACKSLASH
    {
      n := n + 1;
    }
  }

  /** One turn of the argument loop: past the backslashes, then by the rules for what follows. */
  method TakeTurn(input: string, index: nat, inQuotes: bool) returns (text: string, next: nat, quoted: bool)
    requires index < |input| && (inQuotes || !IsBlank(input[index]))
    ensures index < next <= |input|
    ensures forall done :: ReadOn(done, input[index..], inQuotes) == ReadOn(done + text, input[next..], quoted)
  {
    hide ReadOn, LeadingBackslashes, Backslashes;
    var n := CountBackslashes(input, index);
    next, quoted := index + n, inQuotes;
    ghost var more := input[next..];
    ghost var t := TurnAfter(n, more, inQuotes);
    if next < |input| && input[next] == QUOTE {
      text := Backslashes(n / 2);
      if n % 2 == 1 {
        text := text + [QUOTE];
        next := next + 1;
      } else if inQuotes && next + 1 < |input| && input[next + 1] == QUOTE {
        text := text + [QUOTE];
        next := next + 2;
      } else {
        quoted := !inQuotes;
        next := next + 1;
      }
    } else {
      text := Backslashes(n);
      if next < |input| {
        text := text + [input[next]];
        next := next + 1;
      }
    }
    assert Turn(text, next - index - n, quoted) == t;
    assert more[t.used..] == input[next..];
    forall done ensures ReadOn(done, input[index..], inQuotes) == ReadOn(done + text, input[next..], quoted) {
      ReadTurn(done, n, more, inQuotes);
    }
  }

  /** The argument loop, from the first character of an argument. */
  method ParseArgument(input: string, start: nat) returns (argument: string, index: nat)
    requires start < |input| && !IsBlank(input[start])
    ensures start < index <= |input|
    ensures Scan(argument, input[index..]) == ReadOn("", input[start..], false)
  {
    argument, index := "", start;
    var inQuotes := false;
    while index < |input| && (inQuotes || !IsBlank(input[index]))
      invariant start <= index <= |input|
      invariant index == start ==> !inQuotes
      invariant ReadOn(argument, input[index..], inQuotes) == ReadOn("", input[start..], false)
      decreases |input| - index
    {
      var text, next, quoted := TakeTurn(input, index, inQuotes);
      argument, index, inQuotes := argument + text, next, quoted;
    }
  }

  /** The outer loop; it ends on every input. */
  method ParseCommandLine(input: string) returns (result: seq<string>)
    ensures result == Arguments(input)
  {
    result := [];
    var index := 0;
    assert input[0..] == input;
    while true
      invariant 0 <= index <= |input|
      invariant result + Arguments(input[index..]) == Arguments(input)
      decreases |input| - index
    {
      ghost var loopStart := index;
      while index < |input| && IsBlank(input[index])
        invariant loopStart <= index <= |input|
        invariant SkipBlanks(input[index..]) == SkipBlanks(input[loopStart..])
      {
        assert input[index..][1..] == input[index + 1..];
        index := index + 1;
      }
      if index >= |input| {
        assert Arguments(input[loopStart..]) == [];
        return;
      }
      assert SkipBlanks(input[index..]) == input[index..];
      var argument, next := ParseArgument(input, index);
      assert Arguments(input[loopStart..]) == [argument] + Arguments(input[next..]);
      result := result + [argument];
      index := next;
    }
  }

  lemma LeadingUnique(input: string, n: nat)
    requires n <= |input|
    requires forall i :: 0 <= i < n ==> input[i] == BACKSLASH
    requires n < |input| ==> input[n] != BACKSLASH
    ensures LeadingBackslashes(input) == n
  {
    var m := LeadingBackslashes(input);
    assert !(m < n);
    assert !(n < m);
  }

  // ---------------------------------------------------------------- quoting

  /** The inside of a quoted argument, by the documented rules. */
  function Escaped(arg: string): string
    decreases |arg|
  {
    var n := LeadingBackslashes(arg);
    if n == |arg| then Backslashes(2 * n)
    else if arg[n] == QUOTE then Backslashes(2 * n + 1) + [QUOTE] + Escaped(arg[n + 1..])
    else Backslashes(n) + [arg[n]] + Escaped(arg[n + 1..])
  }

  predicate NeedsQuotes(arg: string) {
    arg == "" || exists i :: 0 <= i < |arg| && (IsBlank(arg[i]) || arg[i] == QUOTE)
  }

  /** An argument as it is written on a command line, quoted always or only where needed. */
  function Quoted(arg: string, always: bool): string {
    if always || NeedsQuotes(arg) then [QUOTE] + Escaped(arg) + [QUOTE] else arg
  }

  function Joined(args: seq<string>, always: bool): string {
    if args == [] then ""
    else if |args| == 1 then Quoted(args[0], always)
    else Quoted(args[0], always) + " " + Joined(args[1..], always)
  }

  predicate EndsArgument(tail: string) {
    tail == "" || IsBlank(tail[0])
  }

  /** Inside quotes the reader undoes the escaping, up to the closing quote. */
  lemma {:induction false} ReadEscaped(done: string, arg: string, tail: string)
    requires EndsArgument(tail)
    ensures ReadOn(done, Escaped(arg) + [QUOTE] + tail, true) == Scan(done + arg, tail)
    decreases |arg|
  {
    hide ReadOn, LeadingBackslashes, Backslashes;
    var n := LeadingBackslashes(arg);
    if n == |arg| {
      EscapedEnd(done, arg, tail);
    } else {
      EscapedTurn(done, arg, n, tail);
      var text := Backslashes(n) + [arg[n]];
      ReadEscaped(done + text, arg[n + 1..], tail);
      assert arg == text + arg[n + 1..];
      Regroup(done, text, arg[n + 1..]);
    }
  }

  lemma ReadStops(done: string, tail: string)
    requires EndsArgument(tail)
    ensures ReadOn(done, tail, false) == Scan(done, tail)
  {
  }

  lemma EscapedEnd(done: string, arg: string, tail: string)
    requires LeadingBackslashes(arg) == |arg| && EndsArgument(tail)
    ensures ReadOn(done, Escaped(arg) + [QUOTE] + tail, true) == Scan(done + arg, tail)
  {
    hide ReadOn;
    var n := |arg|;
    assert arg == Backslashes(n);
    ReadTurn(done, 2 * n, [QUOTE] + tail, true);
    Behead(QUOTE, tail);
    assert TurnAfter(2 * n, [QUOTE] + tail, true) == Turn(Backslashes(n), 1, false);
    Regroup(Escaped(arg), [QUOTE], tail);
    ReadStops(done + arg, tail);
  }

  lemma EscapedTurn(done: string, arg: string, n: nat, tail: string)
    requires n == LeadingBackslashes(arg) && n < |arg|
    ensures ReadOn(done, Escaped(arg) + [QUOTE] + tail, true)
         == ReadOn(done + (Backslashes(n) + [arg[n]]), Escaped(arg[n + 1..]) + [QUOTE] + tail, true)
  {
    hide ReadOn;
    var escaped := Escaped(arg[n + 1..]);
    var rest := escaped + [QUOTE] + tail;
    var k := if arg[n] == QUOTE then 2 * n + 1 else n;
    Regroup5(Backslashes(k), [arg[n]], escaped, [QUOTE], tail);
    ReadTurn(done, k, [arg[n]] + rest, true);
    Behead(arg[n], rest);
  }

  /** An opening quote only changes the mode. */
  lemma OpenQuote(text: string, tail: string)
    ensures ReadOn("", [QUOTE] + text + [QUOTE] + tail, false) == ReadOn("", text + [QUOTE] + tail, true)
  {
    var inside := text + [QUOTE] + tail;
    hide ReadOn;
    Regroup5("", [QUOTE], text, [QUOTE], tail);
    assert "" + [QUOTE] == [QUOTE];
    assert "" + ([QUOTE] + inside) == Backslashes(0) + ([QUOTE] + inside);
    ReadTurn("", 0, [QUOTE] + inside, false);
    Behead(QUOTE, inside);
    assert "" + Backslashes(0) == "";
  }

  /** The other way to write a quote inside quotes: doubled, after twice its backslashes. */
  function Doubled(arg: string): string
    decreases |arg|
  {
    var n := LeadingBackslashes(arg);
    if n == |arg| then Backslashes(2 * n)
    else if arg[n] == QUOTE then Backslashes(2 * n) + [QUOTE] + [QUOTE] + Doubled(arg[n + 1..])
    else Backslashes(n) + [arg[n]] + Doubled(arg[n + 1..])
  }

  lemma DoubledQuoteTurn(done: string, n: nat, rest: string)
    ensures ReadOn(done, Backslashes(2 * n) + [QUOTE] + [QUOTE] + rest, true)
         == ReadOn(done + (Backslashes(n) + [QUOTE]), rest, true)
  {
    hide ReadOn;
    var more := [QUOTE] + ([QUOTE] + rest);
    Regroup(Backslashes(2 * n) + [QUOTE], [QUOTE], rest);
    Regroup(Backslashes(2 * n), [QUOTE], [QUOTE] + rest);
    ReadTurn(done, 2 * n, more, true);
    assert more[1] == QUOTE && more[2..] == rest;
  }

  lemma DoubledTurn(done: string, arg: string, n: nat, tail: string)
    requires n == LeadingBackslashes(arg) && n < |arg|
    ensures ReadOn(done, Doubled(arg) + [QUOTE] + tail, true)
         == ReadOn(done + (Backslashes(n) + [arg[n]]), Doubled(arg[n + 1..]) + [QUOTE] + tail, true)
  {
    hide ReadOn;
    var doubled := Doubled(arg[n + 1..]);
    var rest := doubled + [QUOTE] + tail;
    if arg[n] == QUOTE {
      Regroup5(Backslashes(2 * n) + [QUOTE], [QUOTE], doubled, [QUOTE], tail);
      Regroup(Backslashes(2 * n) + [QUOTE], [QUOTE], rest);
      DoubledQuoteTurn(done, n, rest);
    } else {
      Regroup5(Backslashes(n), [arg[n]], doubled, [QUOTE], tail);
      ReadTurn(done, n, [arg[n]] + rest, true);
      Behead(arg[n], rest);
    }
  }

  /** Inside quotes the reader undoes the doubling too. */
  lemma {:induction false} ReadDoubled(done: string, arg: string, tail: string)
    requires EndsArgument(tail)
    ensures ReadOn(done, Doubled(arg) + [QUOTE] + tail, true) == Scan(done + arg, tail)
    decreases |arg|
  {
    var n := LeadingBackslashes(arg);
    hide ReadOn, LeadingBackslashes, Backslashes;
    if n == |arg| {
      assert Doubled(arg) == Escaped(arg);
      EscapedEnd(done, arg, tail);
    } else {
      DoubledTurn(done, arg, n, tail);
      var text := Backslashes(n) + [arg[n]];
      ReadDoubled(done + text, arg[n + 1..], tail);
      assert arg == text + arg[n + 1..];
      Regroup(done, text, arg[n + 1..]);
    }
  }

  /** A whole argument written with its quotes doubled is read back. */
  lemma ReadQuotedDoubled(arg: string, tail: string)
    requires EndsArgument(tail)
    ensures ReadOn("", [QUOTE] + Doubled(arg) + [QUOTE] + tail, false) == Scan(arg, tail)
  {
    OpenQuote(Doubled(arg), tail);
    ReadDoubled("", arg, tail);
    assert "" + arg == arg;
  }

  lemma ReadQuoted(arg: string, tail: string)
    requires EndsArgument(tail)
    ensures ReadOn("", [QUOTE] + Escaped(arg) + [QUOTE] + tail, false) == Scan(arg, tail)
  {
    OpenQuote(Escaped(arg), tail);
    ReadEscaped("", arg, tail);
    assert "" + arg == arg;
  }

  predicate Bare(arg: string) {
    forall i :: 0 <= i < |arg| ==> !IsBlank(arg[i]) && arg[i] != QUOTE
  }

  predicate EndsInBackslash(arg: string) {
    arg != "" && arg[|arg| - 1] == BACKSLASH
  }

  lemma SplitLeading(arg: string, tail: string) returns (n: nat, rest: string)
    ensures n == LeadingBackslashes(arg) && rest == arg[n..]
    ensures arg == Backslashes(n) + rest && arg + tail == Backslashes(n) + (rest + tail)
    ensures rest != "" ==> rest[0] != BACKSLASH && (rest + tail)[1..] == rest[1..] + tail
    ensures rest != "" ==> arg == Backslashes(n) + [rest[0]] + rest[1..]
  {
    n := LeadingBackslashes(arg);
    rest := arg[n..];
    assert arg == Backslashes(n) + rest;
    Regroup(Backslashes(n), rest, tail);
    if rest != "" {
      assert rest == [rest[0]] + rest[1..];
      Regroup(Backslashes(n), [rest[0]], rest[1..]);
    }
  }

  /**
    How a bare argument is read: as it stands, unless a backslash at its end meets a blank;
    the blank then becomes part of the argument.
   */
  function BareRead(done: string, arg: string, tail: string): Scan {
    if tail == "" || !EndsInBackslash(arg) then Scan(done + arg, tail)
    else ReadOn(done + (arg + [tail[0]]), tail[1..], false)
  }

  lemma BareEnd(done: string, arg: string, n: nat, tail: string)
    requires EndsArgument(tail) && n > 0 && arg == Backslashes(n)
    ensures ReadOn(done, arg + tail, false) == BareRead(done, arg, tail)
  {
    ReadTurn(done, n, tail, false);
  }

  lemma BareReadShift(done: string, text: string, rest: string, tail: string)
    requires text != "" && text[|text| - 1] != BACKSLASH
    ensures BareRead(done + text, rest, tail) == BareRead(done, text + rest, tail)
  {
    hide ReadOn;
    Regroup(done, text, rest);
    assert EndsInBackslash(text + rest) == EndsInBackslash(rest);
    if tail != "" {
      Regroup(done, text, rest + [tail[0]]);
      Regroup(text, rest, [tail[0]]);
    }
  }

  lemma {:induction false} ReadBare(done: string, arg: string, tail: string)
    requires EndsArgument(tail) && Bare(arg)
    ensures ReadOn(done, arg + tail, false) == BareRead(done, arg, tail)
    decreases |arg|
  {
    hide ReadOn, LeadingBackslashes, Backslashes;
    if arg == "" {
      assert arg + tail == tail && done + arg == done;
      ReadStops(done, tail);
    } else {
      var n, rest := SplitLeading(arg, tail);
      if rest == "" {
        BareEnd(done, arg, n, tail);
      } else {
        var text := Backslashes(n) + [rest[0]];
        ReadTurn(done, n, rest + tail, false);
        hide BareRead;
        ReadBare(done + text, rest[1..], tail);
        BareReadShift(done, text, rest[1..], tail);
      }
    }
  }

  /** Reading on only ever appends to the argument. */
  lemma {:induction false} ReadOnExtends(done: string, input: string, inQuotes: bool)
    ensures done <= ReadOn(done, input, inQuotes).argument
    decreases |input|
  {
    if input == "" || (!inQuotes && IsBlank(input[0])) {
    } else {
      var n := LeadingBackslashes(input);
      var t := TurnAfter(n, input[n..], inQuotes);
      ReadOnExtends(done + t.text, input[n..][t.used..], t.inQuotes);
    }
  }

  // ---------------------------------------------------------------- the round trip

  /** Whether an argument may be followed by a blank as it is written. */
  predicate SafeBefore(arg: string, always: bool) {
    always || NeedsQuotes(arg) || !EndsInBackslash(arg)
  }

  lemma ReadWritten(arg: string, always: bool, tail: string)
    requires EndsArgument(tail)
    ensures var input := Quoted(arg, always) + tail;
      && input != "" && !IsBlank(input[0])
      && (tail == "" || SafeBefore(arg, always) ==> ReadOn("", input, false) == Scan(arg, tail))
      && (tail != "" && !SafeBefore(arg, always) ==> arg < ReadOn("", input, false).argument)
  {
    if always || NeedsQuotes(arg) {
      assert Quoted(arg, always) + tail == [QUOTE] + Escaped(arg) + [QUOTE] + tail;
      ReadQuoted(arg, tail);
    } else {
      ReadBare("", arg, tail);
      assert "" + arg == arg;
      if tail != "" && EndsInBackslash(arg) {
        assert "" + (arg + [tail[0]]) == arg + [tail[0]];
        ReadOnExtends(arg + [tail[0]], tail[1..], false);
      }
    }
  }

  /** What is written after the first argument. */
  function AfterFirst(args: seq<string>, always: bool): string
    requires args != []
  {
    if |args| == 1 then "" else " " + Joined(args[1..], always)
  }

  lemma ArgumentsOf(args: seq<string>, always: bool)
    requires args != []
    ensures var input := Joined(args, always);
      var r := ReadOn("", Quoted(args[0], always) + AfterFirst(args, always), false);
      Arguments(input) == [r.argument] + Arguments(r.rest)
  {
    hide ReadOn;
    var tail := AfterFirst(args, always);
    ReadWritten(args[0], always, tail);
    Regroup(Quoted(args[0], always), " ", if |args| == 1 then "" else Joined(args[1..], always));
    assert Joined(args, always) == Quoted(args[0], always) + tail;
  }

  /**
    Parsing undoes quoting exactly when no argument written bare ends in a backslash before a
    blank; with every argument quoted it always does.
   */
  lemma {:induction false} ParseUndoesQuoting(args: seq<string>, always: bool)
    ensures Arguments(Joined(args, always)) == args
       <==> forall i :: 0 <= i < |args| - 1 ==> SafeBefore(args[i], always)
    decreases |args|
  {
    hide ReadOn;
    if args == [] {
    } else {
      var tail := AfterFirst(args, always);
      ReadWritten(args[0], always, tail);
      ArgumentsOf(args, always);
      var r := ReadOn("", Quoted(args[0], always) + tail, false);
      if |args| > 1 {
        if SafeBefore(args[0], always) {
          BlankSkipped(Joined(args[1..], always));
          ParseUndoesQuoting(args[1..], always);
          assert Arguments(r.rest) == Arguments(Joined(args[1..], always));
          assert args == [args[0]] + args[1..];
          assert forall i :: 0 <= i < |args[1..]| - 1 ==> args[1..][i] == args[i + 1];
          assert forall i :: 1 <= i < |args| - 1 ==> args[i] == args[1..][i - 1];
        } else {
          assert r.argument != args[0];
        }
      } else {
        assert Arguments("") == [];
        assert args == [args[0]];
      }
    }
  }

  lemma BlankSkipped(rest: string)
    ensures Arguments(" " + rest) == Arguments(rest)
  {
    assert (" " + rest)[1..] == rest;
    assert SkipBlanks(" " + rest) == SkipBlanks(rest);
  }

  /** The failing family's smallest member: two bare arguments come back as one. */
  lemma BackslashSwallowsBlank()
    ensures Joined(["\\", "x"], false) == "\\ x"
    ensures Arguments("\\ x") != ["\\", "x"]
  {
    var args := ["\\", "x"];
    assert args[1..] == ["x"];
    ParseUndoesQuoting(args, false);
    assert EndsInBackslash(args[0]) && !NeedsQuotes(args[0]) && !NeedsQuotes(args[1]);
    assert !SafeBefore(args[0], false);
  }

  lemma OneArgument(arg: string, tail: string)
    requires EndsArgument(tail) && arg != "" && Bare(arg) && !EndsInBackslash(arg)
    ensures Arguments(arg + tail) == [arg] + Arguments(tail)
  {
    ReadBare("", arg, tail);
    hide ReadOn;
    assert "" + arg == arg;
    assert (arg + tail)[0] == arg[0];
  }

  /** Spaces and tabs part arguments; any other character, a line break too, is a part of one. */
  lemma OnlyBlanksPart(a: string, c: char, b: string)
    requires a != "" && b != "" && c != '"'
    requires forall x :: x in a + b ==> x !in [' ', '\t', '"', '\\']
    ensures Arguments(a + [c] + b) == if c == ' ' || c == '\t' then [a, b] else [a + [c] + b]
  {
    assert forall i :: 0 <= i < |a| ==> a[i] in a + b;
    assert forall i :: 0 <= i < |b| ==> b[i] in a + b;
    assert Bare(a) && Bare(b);
    hide ReadOn;
    assert Arguments("") == [];
    if c == ' ' || c == '\t' {
      Regroup(a, [c], b);
      OneArgument(a, [c] + b);
      assert SkipBlanks([c] + b) == SkipBlanks(b) by { Behead(c, b); }
      assert b + "" == b;
      OneArgument(b, "");
    } else {
      var whole := a + [c] + b;
      assert whole + "" == whole;
      OneArgument(whole, "");
    }
  }
}
