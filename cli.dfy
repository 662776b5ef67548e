/**
 src/cli.rs: the command-line parser. Arguments are matched by prefix, the
 value is the text between the first and second `=`, and numbers are read
 as Rust's `str::parse::<u64>` reads them.
 */
module Cli {
  import opened Net
  import opened Decimal
  import opened Text

  /** 2^64: every `u64` is below it. */
  const U64_LIMIT: nat := 0x1_0000_0000_0000_0000
  /** 2^16: `as u16` keeps the value modulo this. */
  const U16_LIMIT: nat := 0x1_0000

  const PERIOD_ERROR := "Period is required and must be a positive number"
  const PORT_ERROR := "Port is required and must be a positive number"

  datatype Result<T> = Ok(value: T) | Err(error: string)

  /** `CliArguments`. */
  datatype CliArguments = CliArguments(period: nat, port: nat, connect: Option<string>)

  // ---------------------------------------------------------------------------
  // `str::parse::<u64>`

  /**
   The digit loop of `u64::from_str_radix(_, 10)`: each digit multiplies the
   accumulator by ten and adds itself, and an overflow past `u64::MAX` or a
   character that is not a digit is an error.
   */
  function AccumulateDigits(s: string, acc: nat): (r: Option<nat>)
    requires acc < U64_LIMIT
    ensures r.Some? ==> acc <= r.value < U64_LIMIT
    ensures r.Some? ==> AllDigits(s)
    decreases |s|
  {
    if s == [] then Some(acc)
    else if !IsDigit(s[0]) then None
    else
      var next := acc * 10 + DigitValue(s[0]);
      if next >= U64_LIMIT then None else AccumulateDigits(s[1..], next)
  }

  /** The digits after an optional leading `+`. */
  function Unsigned(s: string): string {
    if |s| > 0 && s[0] == '+' then s[1..] else s
  }

  /** The texts `u64` parses: optional `+`, one or more ASCII digits, value below 2^64. */
  predicate IsU64Text(s: string) {
    var d := Unsigned(s);
    |d| >= 1 && AllDigits(d) && Value(d) < U64_LIMIT
  }

  /** `s.parse::<u64>().ok()`. */
  function ParseU64(s: string): (r: Option<nat>)
    ensures r.Some? <==> IsU64Text(s)
    ensures r.Some? ==> r.value < U64_LIMIT && r.value == Value(Unsigned(s))
  {
    AccumulateMatches(Unsigned(s), 0);
    if s == [] then None
    else if s[0] == '+' && |s| == 1 then None
    else AccumulateDigits(Unsigned(s), 0)
  }

  /** The checked digit loop accepts exactly the digit strings whose value fits, and yields that value. */
  lemma {:induction false} AccumulateMatches(s: string, acc: nat)
    requires acc < U64_LIMIT
    ensures AccumulateDigits(s, acc) ==
      if AllDigits(s) && acc * Pow10(|s|) + Value(s) < U64_LIMIT
      then Some(acc * Pow10(|s|) + Value(s)) else None
    decreases |s|
  {
    if s == [] {
      return;
    }
    var c, t := s[0], s[1..];
    assert s == [c] + t;
    if !IsDigit(c) {
      return;
    }
    var next := acc * 10 + DigitValue(c);
    if !AllDigits(t) {
      assert !AllDigits(s) by {
        var k :| 0 <= k < |t| && !IsDigit(t[k]);
        assert s[k + 1] == t[k];
      }
      return;
    }
    StepValue(acc, c, t);
    var p, v := Pow10(|t|), Value(t);
    assert AllDigits(s) && acc * Pow10(|s|) + Value(s) == next * p + v;
    if next < U64_LIMIT {
      AccumulateMatches(t, next);
    } else {
      AtLeast(next, p, v);
    }
  }

  /** Reading one more leading digit into the accumulator keeps the total. */
  lemma StepValue(acc: nat, c: char, t: string)
    requires IsDigit(c) && AllDigits(t)
    ensures AllDigits([c] + t)
    ensures acc * Pow10(|[c] + t|) + Value([c] + t) == (acc * 10 + DigitValue(c)) * Pow10(|t|) + Value(t)
  {
    ValueOfCons(c, t);
    assert Pow10(|[c] + t|) == 10 * Pow10(|t|);
    RegroupDigit(acc, DigitValue(c), Pow10(|t|), Value(t));
  }

  lemma RegroupDigit(acc: nat, d: nat, p: nat, v: nat)
    ensures acc * (10 * p) + (d * p + v) == (acc * 10 + d) * p + v
  {
  }

  lemma AtLeast(a: nat, p: nat, v: nat)
    requires p >= 1
    ensures a * p + v >= a
  {
  }

  /** Every number below 2^64 parses back from its decimal text, with or without `+`. */
  lemma ParseDigits(n: nat)
    requires n < U64_LIMIT
    ensures ParseU64(Digits(n)) == Some(n)
    ensures ParseU64("+" + Digits(n)) == Some(n)
  {
    ValueOfDigits(n);
    assert Unsigned("+" + Digits(n)) == Digits(n);
  }

  // ---------------------------------------------------------------------------
  // Prefix search and `split('=')`

  predicate StartsWith(s: string, prefix: string) {
    |prefix| <= |s| && s[..|prefix|] == prefix
  }

  /** `args.iter().find(|arg| arg.starts_with(prefix))`, as an index. */
  function FindFirst(args: seq<string>, prefix: string): (r: Option<nat>)
    ensures r.Some? ==> IsFirstWithPrefix(args, prefix, r.value)
    ensures r.None? <==> forall j :: 0 <= j < |args| ==> !StartsWith(args[j], prefix)
  {
    if args == [] then None
    else if StartsWith(args[0], prefix) then Some(0)
    else match FindFirst(args[1..], prefix)
      case None => None
      case Some(i) => Some(i + 1)
  }

  /** The position of the first `c` in `s`. */
  function IndexOf(s: string, c: char): (r: Option<nat>)
    ensures r.Some? ==> r.value < |s| && s[r.value] == c && c !in s[..r.value]
    ensures r.None? <==> c !in s
  {
    if s == [] then None
    else if s[0] == c then Some(0)
    else match IndexOf(s[1..], c)
      case None => None
      case Some(i) =>
        assert s[..i + 1] == [s[0]] + s[1..][..i];
        Some(i + 1)
  }

  /** `s.split(sep)`: the pieces between separators, one more than there are separators. */
  function Split(s: string, sep: char): (parts: seq<string>)
    ensures |parts| >= 1
    ensures forall k :: 0 <= k < |parts| ==> sep !in parts[k]
    ensures |parts| >= 2 <==> sep in s
    decreases |s|
  {
    match IndexOf(s, sep)
    case None => [s]
    case Some(i) => [s[..i]] + Split(s[i + 1..], sep)
  }

  /** Putting the separators back between the pieces. */
  function Unsplit(parts: seq<string>, sep: char): string
    requires |parts| >= 1
  {
    if |parts| == 1 then parts[0] else parts[0] + [sep] + Unsplit(parts[1..], sep)
  }

  /** `split` loses nothing: joining the pieces with the separator gives the text back. */
  lemma {:induction false} SplitUnsplit(s: string, sep: char)
    ensures Unsplit(Split(s, sep), sep) == s
    decreases |s|
  {
    match IndexOf(s, sep)
    case None =>
    case Some(i) =>
      SplitUnsplit(s[i + 1..], sep);
      assert s == s[..i] + [sep] + s[i + 1..];
  }

  /** `split('=').nth(1)`: the text between the first and the second `=`. */
  function SecondSegment(s: string): (r: Option<string>)
    ensures r.Some? <==> '=' in s
    ensures r.Some? ==> '=' !in r.value
  {
    var parts := Split(s, '=');
    if |parts| >= 2 then Some(parts[1]) else None
  }

  /** The second piece is what follows the first `=`, up to the next `=` or the end. */
  lemma SecondSegmentAfterFirstEquals(s: string, i: nat)
    requires i < |s| && s[i] == '=' && '=' !in s[..i]
    ensures SecondSegment(s).Some?
    ensures var v := SecondSegment(s).value;
      i + 1 + |v| <= |s| && s[i + 1..i + 1 + |v|] == v
      && (i + 1 + |v| == |s| || s[i + 1 + |v|] == '=')
  {
    var r := IndexOf(s, '=');
    assert r == Some(i);
    var rest := s[i + 1..];
    assert Split(s, '=') == [s[..i]] + Split(rest, '=');
    match IndexOf(rest, '=')
    case None =>
      assert Split(rest, '=') == [rest];
    case Some(j) =>
      assert Split(rest, '=')[0] == rest[..j];
      assert rest[..j] == s[i + 1..i + 1 + j];
  }

  // ---------------------------------------------------------------------------
  // `parse_each_arg`, `parse_arguments`, `get_help_message`

  /** `i` is the first argument that starts with `prefix`. */
  predicate IsFirstWithPrefix(args: seq<string>, prefix: string, i: nat) {
    i < |args| && StartsWith(args[i], prefix)
    && forall j :: 0 <= j < i ==> !StartsWith(args[j], prefix)
  }

  /** `parse_each_arg`: the `u64` between the first two `=` of the first argument with the prefix. */
  function ParseEachArg(args: seq<string>, prefix: string): (r: Option<nat>)
    ensures (forall j :: 0 <= j < |args| ==> !StartsWith(args[j], prefix)) ==> r.None?
    ensures forall i: nat :: IsFirstWithPrefix(args, prefix, i) ==>
      (r.Some? <==> SecondSegment(args[i]).Some? && IsU64Text(SecondSegment(args[i]).value))
      && (r.Some? ==> r == ParseU64(SecondSegment(args[i]).value))
    ensures r.Some? ==> r.value < U64_LIMIT
  {
    match FindFirst(args, prefix)
    case None => None
    case Some(i) =>
      assert forall i': nat :: IsFirstWithPrefix(args, prefix, i') ==> i' == i;
      match SecondSegment(args[i])
      case None => None
      case Some(v) => ParseU64(v)
  }

  /**
   `args.iter().find(|arg| arg.starts_with("--connect=")).map(|s| s.split('=').nth(1).unwrap())`:
   the argument starts with `--connect=`, so it has a second piece and the
   `unwrap` cannot panic.
   */
  function ConnectArg(args: seq<string>): (r: Option<string>)
    ensures r.None? <==> forall j :: 0 <= j < |args| ==> !StartsWith(args[j], "--connect=")
    ensures forall i: nat :: IsFirstWithPrefix(args, "--connect=", i) ==>
      r == SecondSegment(args[i]) && r.Some?
  {
    match FindFirst(args, "--connect=")
    case None => None
    case Some(i) =>
      assert forall i': nat :: IsFirstWithPrefix(args, "--connect=", i') ==> i' == i;
      assert args[i][..10] == "--connect=" && args[i][9] == '=';
      Some(Split(args[i], '=')[1])
  }

  /** `parse_arguments`: period first, then port (kept modulo 2^16 by `as u16`), then the optional peer. */
  function ParseArguments(args: seq<string>): (r: Result<CliArguments>)
    ensures ParseEachArg(args, "--period=").None? ==> r == Err(PERIOD_ERROR)
    ensures ParseEachArg(args, "--period=").Some? && ParseEachArg(args, "--port=").None? ==>
      r == Err(PORT_ERROR)
    ensures r.Ok? <==> ParseEachArg(args, "--period=").Some? && ParseEachArg(args, "--port=").Some?
    ensures r.Ok? ==>
      && r.value.period == ParseEachArg(args, "--period=").value
      && r.value.port < U16_LIMIT
      && r.value.port == ParseEachArg(args, "--port=").value % U16_LIMIT
      && r.value.connect == ConnectArg(args)
  {
    match ParseEachArg(args, "--period=")
    case None => Err(PERIOD_ERROR)
    case Some(period) =>
      match ParseEachArg(args, "--port=")
      case None => Err(PORT_ERROR)
      case Some(port) => Ok(CliArguments(period, port % U16_LIMIT, ConnectArg(args)))
  }

  /**
   `parse_arguments` with the port read as `parse::<u16>` would read it: a
   port of 2^16 or more is refused with the port error instead of being cut
   down to its low 16 bits.
   */
  function ParseArgumentsChecked(args: seq<string>): (r: Result<CliArguments>)
    ensures r.Ok? <==> ParseArguments(args).Ok? && ParseEachArg(args, "--port=").value < U16_LIMIT
    ensures r.Ok? ==> r == ParseArguments(args) && r.value.port == ParseEachArg(args, "--port=").value
    ensures r.Err? && ParseArguments(args).Ok? ==> r == Err(PORT_ERROR)
  {
    var period, port := ParseEachArg(args, "--period="), ParseEachArg(args, "--port=");
    if period.None? then Err(PERIOD_ERROR)
    else if port.None? || port.value >= U16_LIMIT then Err(PORT_ERROR)
    else
      assert port.value % U16_LIMIT == port.value by { SmallModulus(port.value, U16_LIMIT); }
      Ok(CliArguments(period.value, port.value, ConnectArg(args)))
  }

  lemma SmallModulus(x: nat, m: nat)
    requires x < m
    ensures x % m == x
  {
  }

  /** As written, `--port=65616` is accepted and the node listens on port 80. */
  lemma PortWrapsAround(args: seq<string>)
    requires args == ["--period=5", "--port=65616"]
    ensures ParseArguments(args) == Ok(CliArguments(5, 80, None))
    ensures ParseArgumentsChecked(args) == Err(PORT_ERROR)
  {
    ExamplePeriod(args);
    ExamplePort(args);
    ExampleNoConnect(args);
    assert 65616 % U16_LIMIT == 80;
  }

  lemma ExampleNoConnect(args: seq<string>)
    requires args == ["--period=5", "--port=65616"]
    ensures ConnectArg(args) == None
  {
    assert !StartsWith(args[0], "--connect=") by {
      assert args[0][2] != "--connect="[2];
    }
    assert !StartsWith(args[1], "--connect=") by {
      assert args[1][2] != "--connect="[2];
    }
  }

  lemma ExamplePeriod(args: seq<string>)
    requires args == ["--period=5", "--port=65616"]
    ensures ParseEachArg(args, "--period=") == Some(5)
  {
    var prefix := "--period=";
    assert args[0] == prefix + "5";
    assert prefix[..|prefix| - 1] == "--period";
    ExampleArgument(args, prefix, 0, "5");
    assert ParseU64("5") == Some(5);
  }

  lemma ExamplePort(args: seq<string>)
    requires args == ["--period=5", "--port=65616"]
    ensures ParseEachArg(args, "--port=") == Some(65616)
  {
    var prefix := "--port=";
    assert args[1] == prefix + "65616";
    assert prefix[..|prefix| - 1] == "--port";
    assert !StartsWith(args[0], prefix) by {
      assert args[0][3] != prefix[3];
    }
    PortText();
    ExampleArgument(args, prefix, 1, "65616");
  }

  /** `65616` is the decimal text of 65616, so it parses to that number. */
  lemma PortText()
    ensures '=' !in "65616"
    ensures ParseU64("65616") == Some(65616)
  {
    assert Digits(6) == "6";
    assert Digits(65) == "65";
    assert Digits(656) == "656";
    assert Digits(6561) == "6561";
    assert Digits(65616) == "65616";
    ParseDigits(65616);
  }

  /** The value of argument `i` of `args`, the first with `prefix`, is the text `v` after the prefix. */
  lemma ExampleArgument(args: seq<string>, prefix: string, i: nat, v: string)
    requires i < |args| && args[i] == prefix + v && |prefix| >= 1
    requires prefix[|prefix| - 1] == '=' && '=' !in prefix[..|prefix| - 1] && '=' !in v
    requires forall j :: 0 <= j < i ==> !StartsWith(args[j], prefix)
    ensures ParseEachArg(args, prefix) == ParseU64(v)
  {
    var s := args[i];
    assert s[..|prefix| - 1] == prefix[..|prefix| - 1];
    SecondSegmentAfterFirstEquals(s, |prefix| - 1);
    var w := SecondSegment(s).value;
    assert s[|prefix|..] == v;
    assert w == v;
    assert s[..|prefix|] == prefix;
    assert IsFirstWithPrefix(args, prefix, i);
  }

  const APP_NAME := "\t\t\t---{ GOSSIP P2P }---"
  const APP_DESCRIPTION := "\t\tSimple p2p gossiping application in Rust."
  const ARGUMENTS :=
    "Arguments:\n\tperiod - messaging period in seconds (required)\n\tport - connection port (required)\n\tconnect - address of the peer"

  const USAGE_ARGS := " --period=<seconds> --port=<port> [--connect=<peer_address_with_port>]"
  const EXAMPLE_1 := " --period=5 --port=8080"
  const EXAMPLE_2 := " --period=6 --port=8081 --connect=\"127.0.0.1:8080\""
  const EXAMPLE_3 := " --period=7 --port=8082 --connect=\"127.0.0.1:8080\""
  const EXAMPLES_HEAD := "Examples:\n\t# Starting the first peer with messaging period 5 seconds at port 8080:\n"
  const EXAMPLES_2_HEAD :=
    "\n\n\t# Starting the second peer which will connect to the first\n\t# messaging period - 6 seconds\n\t# port - 8081\n"
  const EXAMPLES_3_HEAD :=
    "\n\n\t# Starting the second peer which will connect to all the peers through the first\n\t# messaging period - 7 seconds\n\t# port - 8082\n"

  /** A command line of the help text: a tab, the program name, the arguments. */
  function CommandLine(program: string, arguments: string): string {
    "\t" + program + arguments
  }

  /** What comes before the usage command line: title, description and the `Usage:` heading. */
  const HELP_HEAD_REST := "\n" + APP_DESCRIPTION + "\n\nUsage:\n"
  /** What lies between the usage command line and the first example command. */
  const HELP_MIDDLE := "\n\n" + ARGUMENTS + "\n\n" + EXAMPLES_HEAD

  /** The help text after its first line: description, usage, arguments and examples. */
  function HelpAfterTitle(program: string): string {
    HELP_HEAD_REST + CommandLine(program, USAGE_ARGS) + HELP_MIDDLE + CommandLine(program, EXAMPLE_1)
    + EXAMPLES_2_HEAD + CommandLine(program, EXAMPLE_2) + EXAMPLES_3_HEAD + CommandLine(program, EXAMPLE_3)
  }

  /** `get_help_message`: the title line first, then the rest of the help text. */
  function GetHelpMessage(program: string): (r: string)
    ensures |r| > |APP_NAME| && r[..1 + |APP_NAME|] == "\n" + APP_NAME
  {
    var t := "\n" + APP_NAME;
    var r := t + HelpAfterTitle(program);
    assert r[..|t|] == t;
    r
  }

  /** Four pieces placed between fixed texts can each be found in the whole. */
  lemma FourPieces(a: string, w0: string, b: string, w1: string, c: string, w2: string, d: string, w3: string)
    ensures var r := a + w0 + b + w1 + c + w2 + d + w3;
      OccursAt(r, w0, |a|) && OccursAt(r, w1, |a + w0 + b|)
      && OccursAt(r, w2, |a + w0 + b + w1 + c|) && OccursAt(r, w3, |a + w0 + b + w1 + c + w2 + d|)
  {
    var p0 := a + w0;
    End(a, w0);
    var p1 := p0 + b + w1;
    Extend(p0, w0, |a|, b);
    Extend(p0 + b, w0, |a|, w1);
    End(p0 + b, w1);
    var p2 := p1 + c + w2;
    Extend(p1, w0, |a|, c);
    Extend(p1 + c, w0, |a|, w2);
    Extend(p1, w1, |p0 + b|, c);
    Extend(p1 + c, w1, |p0 + b|, w2);
    End(p1 + c, w2);
    Extend(p2, w0, |a|, d);
    Extend(p2 + d, w0, |a|, w3);
    Extend(p2, w1, |p0 + b|, d);
    Extend(p2 + d, w1, |p0 + b|, w3);
    Extend(p2, w2, |p1 + c|, d);
    Extend(p2 + d, w2, |p1 + c|, w3);
    End(p2 + d, w3);
  }

  /** A piece at the end of a text occurs right after what precedes it. */
  lemma End(p: string, w: string)
    ensures OccursAt(p + w, w, |p|)
  {
    assert (p + w)[|p|..] == w;
  }

  /** An occurrence survives text appended after it. */
  lemma Extend(s: string, w: string, i: nat, t: string)
    requires OccursAt(s, w, i)
    ensures OccursAt(s + t, w, i)
  {
    assert (s + t)[i..i + |w|] == s[i..i + |w|];
  }

  /** The program name heads the usage command line and each of the three example commands. */
  lemma HelpNamesProgram(program: string)
    ensures Contains(GetHelpMessage(program), CommandLine(program, USAGE_ARGS))
    ensures Contains(GetHelpMessage(program), CommandLine(program, EXAMPLE_1))
    ensures Contains(GetHelpMessage(program), CommandLine(program, EXAMPLE_2))
    ensures Contains(GetHelpMessage(program), CommandLine(program, EXAMPLE_3))
  {
    var t := "\n" + APP_NAME;
    var w0 := CommandLine(program, USAGE_ARGS);
    var w1 := CommandLine(program, EXAMPLE_1);
    var w2 := CommandLine(program, EXAMPLE_2);
    var w3 := CommandLine(program, EXAMPLE_3);
    var rest := HelpAfterTitle(program);
    FourPieces(HELP_HEAD_REST, w0, HELP_MIDDLE, w1, EXAMPLES_2_HEAD, w2, EXAMPLES_3_HEAD, w3);
    Prepend(t, rest, w0, |HELP_HEAD_REST|);
    Prepend(t, rest, w1, |HELP_HEAD_REST + w0 + HELP_MIDDLE|);
    Prepend(t, rest, w2, |HELP_HEAD_REST + w0 + HELP_MIDDLE + w1 + EXAMPLES_2_HEAD|);
    Prepend(t, rest, w3, |HELP_HEAD_REST + w0 + HELP_MIDDLE + w1 + EXAMPLES_2_HEAD + w2 + EXAMPLES_3_HEAD|);
  }
}
