/** Quoting of the child's arguments by the Windows service host, against the backslash and quote
    rules of Microsoft's "Parsing C command-line arguments". */
module CommandLine {

  function Slashes(n: nat): string {
    seq(n, _ => '\\')
  }

  predicate Blank(c: char) {
    c == ' ' || c == '\t'
  }

  // ----- The child's side: Microsoft's parsing rules -----

  /** One parsed argument and the text that follows it. */
  datatype Parsed = Parsed(text: string, rest: string) {
    function Prepend(prefix: string): Parsed {
      Parsed(prefix + text, rest)
    }
  }

  /** Reads one argument. `slashes` backslashes have been read and not yet interpreted: they are
      literal unless a quote follows, in which case each pair stands for one, an odd one makes the
      quote literal, and otherwise the quote opens or closes a quoted part. Inside a quoted part a
      doubled quote stands for one quote. */
  function ParseArgument(s: string, quoted: bool, slashes: nat): (p: Parsed)
    ensures |p.rest| <= |s|
    ensures s != "" && !Blank(s[0]) ==> |p.rest| < |s|
    decreases |s|
  {
    if s == "" then
      Parsed(Slashes(slashes), "")
    else if s[0] == '\\' then
      ParseArgument(s[1..], quoted, slashes + 1)
    else if s[0] == '"' then
      if slashes % 2 == 1 then
        ParseArgument(s[1..], quoted, 0).Prepend(Slashes(slashes / 2) + "\"")
      else if quoted && |s| > 1 && s[1] == '"' then
        ParseArgument(s[2..], true, 0).Prepend(Slashes(slashes / 2) + "\"")
      else
        ParseArgument(s[1..], !quoted, 0).Prepend(Slashes(slashes / 2))
    else if !quoted && Blank(s[0]) then
      Parsed(Slashes(slashes), s)
    else
      ParseArgument(s[1..], quoted, 0).Prepend(Slashes(slashes) + [s[0]])
  }

  /** Splits a command line into its arguments; blanks outside quoted parts separate them. */
  function ParseArguments(s: string): seq<string>
    decreases |s|
  {
    if s == "" then []
    else if Blank(s[0]) then ParseArguments(s[1..])
    else
      var p := ParseArgument(s, false, 0);
      [p.text] + ParseArguments(p.rest)
  }

  // ----- The host's side -----

  /** The quoted form of `value` after its opening quote, given that `slashes` backslashes just
      before it are still to be written. */
  function Escape(value: string, slashes: nat): string
    decreases |value|
  {
    if value == "" then
      Slashes(2 * slashes) + "\""
    else if value[0] == '\\' then
      Escape(value[1..], slashes + 1)
    else if value[0] == '"' then
      Slashes(2 * slashes + 1) + "\"" + Escape(value[1..], 0)
    else
      Slashes(slashes) + [value[0]] + Escape(value[1..], 0)
  }

  function Quoted(value: string): string {
    "\"" + Escape(value, 0)
  }

  /** The arguments handed to the child: each one quoted, separated by single spaces. */
  function ChildArguments(args: seq<string>): string {
    if args == [] then ""
    else if |args| == 1 then Quoted(args[0])
    else Quoted(args[0]) + " " + ChildArguments(args[1..])
  }

  method Quote(value: string) returns (result: string)
    ensures result == Quoted(value)
    ensures ParseArguments(result) == [value]
  {
    result := "\"";
    var slashes := 0;
    for i := 0 to |value|
      invariant result + Escape(value[i..], slashes) == Quoted(value)
    {
      var character := value[i];
      ghost var before := result + Escape(value[i..], slashes);
      assert value[i..][1..] == value[i + 1..];
      if character == '\\' {
        slashes := slashes + 1;
      } else {
        result := result + Slashes(if character == '"' then slashes * 2 + 1 else slashes);
        result := result + [character];
        slashes := 0;
        assert result + Escape(value[i + 1..], 0) == before;
      }
    }
    result := result + Slashes(slashes * 2);
    result := result + "\"";
    QuoteRoundTrip([value]);
  }

  // ----- Round trip -----

  lemma {:induction false} PendingSlashes(n: nat, s: string, quoted: bool, slashes: nat)
    ensures ParseArgument(Slashes(n) + s, quoted, slashes) == ParseArgument(s, quoted, slashes + n)
  {
    if n == 0 {
      assert Slashes(0) + s == s;
    } else {
      assert (Slashes(n) + s)[1..] == Slashes(n - 1) + s;
      PendingSlashes(n - 1, s, quoted, slashes + 1);
    }
  }

  /** The closing quote, with its doubled backslashes, ends the argument in front of `tail`. */
  lemma ClosingQuote(slashes: nat, tail: string)
    requires tail == "" || Blank(tail[0])
    ensures ParseArgument(Slashes(2 * slashes) + ("\"" + tail), true, 0) == Parsed(Slashes(slashes), tail)
  {
    hide ParseArgument;
    PendingSlashes(2 * slashes, "\"" + tail, true, 0);
    QuoteCloses(slashes, tail);
  }

  lemma QuoteCloses(slashes: nat, tail: string)
    requires tail == "" || Blank(tail[0])
    ensures ParseArgument("\"" + tail, true, 2 * slashes) == Parsed(Slashes(slashes), tail)
  {
    var s := "\"" + tail;
    assert s[1..] == tail;
    ArgumentEnds(tail);
    assert ParseArgument(s, true, 2 * slashes) == ParseArgument(tail, false, 0).Prepend(Slashes(slashes));
    assert Slashes(slashes) + "" == Slashes(slashes);
  }

  lemma ArgumentEnds(tail: string)
    requires tail == "" || Blank(tail[0])
    ensures ParseArgument(tail, false, 0) == Parsed("", tail)
  {
  }

  /** One written character, with the backslashes before it, reads back as itself. */
  lemma WrittenCharacter(c: char, slashes: nat, rest: string)
    requires c != '\\'
    ensures ParseArgument(Slashes(if c == '"' then 2 * slashes + 1 else slashes) + ([c] + rest), true, 0)
         == ParseArgument(rest, true, 0).Prepend(Slashes(slashes) + [c])
  {
    var written := if c == '"' then 2 * slashes + 1 else slashes;
    var s := [c] + rest;
    PendingSlashes(written, s, true, 0);
    assert s[1..] == rest;
  }

  lemma Rejoin(value: string, slashes: nat)
    requires value != ""
    ensures Slashes(slashes) + [value[0]] + (Slashes(0) + value[1..]) == Slashes(slashes) + value
  {
  }

  /** Parsing what was escaped gives the value back, and stops exactly at the closing quote. */
  lemma {:induction false} EscapeIsUndone(value: string, slashes: nat, tail: string)
    requires tail == "" || Blank(tail[0])
    ensures ParseArgument(Escape(value, slashes) + tail, true, 0) == Parsed(Slashes(slashes) + value, tail)
    decreases |value|
  {
    hide ParseArgument, Escape;
    EscapeStep(value, slashes, tail);
    if value == "" {
      ClosingQuote(slashes, tail);
      assert Slashes(slashes) + value == Slashes(slashes);
    } else if value[0] == '\\' {
      EscapeIsUndone(value[1..], slashes + 1, tail);
      assert Slashes(slashes + 1) + value[1..] == Slashes(slashes) + value;
    } else {
      WrittenCharacter(value[0], slashes, Escape(value[1..], 0) + tail);
      EscapeIsUndone(value[1..], 0, tail);
      Rejoin(value, slashes);
    }
  }

  /** What is written first, in front of the rest. */
  lemma EscapeStep(value: string, slashes: nat, tail: string)
    ensures value == "" ==> Escape(value, slashes) + tail == Slashes(2 * slashes) + ("\"" + tail)
    ensures value != "" && value[0] == '\\' ==> Escape(value, slashes) == Escape(value[1..], slashes + 1)
    ensures value != "" && value[0] != '\\' ==>
      Escape(value, slashes) + tail ==
        Slashes(if value[0] == '"' then 2 * slashes + 1 else slashes) + ([value[0]] + (Escape(value[1..], 0) + tail))
  {
  }

  /** Main result: the child sees exactly the argument list the host was given. */
  lemma {:induction false} QuoteRoundTrip(args: seq<string>)
    ensures ParseArguments(ChildArguments(args)) == args
  {
    if args != [] {
      hide ParseArgument, Escape, Quoted;
      var tail := if |args| == 1 then "" else " " + ChildArguments(args[1..]);
      assert ChildArguments(args) == Quoted(args[0]) + tail;
      FirstArgument(args[0], tail);
      if |args| == 1 {
        assert ParseArguments("") == [] && args[1..] == [];
      } else {
        QuoteRoundTrip(args[1..]);
        AfterBlank(ChildArguments(args[1..]));
      }
      assert [args[0]] + args[1..] == args;
    }
  }

  /** The line's first argument is read back, up to the blank that follows it. */
  lemma FirstArgument(value: string, tail: string)
    requires tail == "" || Blank(tail[0])
    ensures ParseArguments(Quoted(value) + tail) == [value] + ParseArguments(tail)
  {
    hide Escape, ParseArgument;
    var line := Quoted(value) + tail;
    EscapeIsUndone(value, 0, tail);
    OpeningQuote(line);
    assert line[1..] == Escape(value, 0) + tail;
    assert Slashes(0) + value == value;
  }

  lemma OpeningQuote(line: string)
    requires line != "" && line[0] == '"'
    ensures ParseArgument(line, false, 0) == ParseArgument(line[1..], true, 0)
  {
    assert ParseArgument(line, false, 0) == ParseArgument(line[1..], true, 0).Prepend(Slashes(0));
    assert Slashes(0) + ParseArgument(line[1..], true, 0).text == ParseArgument(line[1..], true, 0).text;
  }

  lemma AfterBlank(line: string)
    ensures ParseArguments(" " + line) == ParseArguments(line)
  {
    assert (" " + line)[1..] == line;
  }
}
