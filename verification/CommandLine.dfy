/** Windows command-line quoting (McpNodeHostLauncher.cs) against the documented
    argv rules of the Microsoft C runtime. */
module CommandLine {
  import opened Text

  const NUL: CodeUnit := 0x00

  // ---------------------------------------------------------------- the printer

  predicate NeedsQuotes(value: Str) {
    value == [] || SPACE in value || TAB in value || LF in value || VT in value || QUOTE in value
  }

  /** What the quoting loop still has to emit for `value` when `slashes` backslashes
      are pending, closing quote included. */
  function Escaped(value: Str, slashes: nat): Str {
    if value == [] then Repeat(BACKSLASH, 2 * slashes) + [QUOTE]
    else if value[0] == BACKSLASH then Escaped(value[1..], slashes + 1)
    else if value[0] == QUOTE then
      Repeat(BACKSLASH, 2 * slashes + 1) + [QUOTE] + Escaped(value[1..], 0)
    else
      Repeat(BACKSLASH, slashes) + [value[0]] + Escaped(value[1..], 0)
  }

  function Quoted(value: Str): Str {
    if NeedsQuotes(value) then [QUOTE] + Escaped(value, 0) else value
  }

  function Joined(arguments: seq<Str>): Str {
    if arguments == [] then []
    else if |arguments| == 1 then Quoted(arguments[0])
    else Quoted(arguments[0]) + [SPACE] + Joined(arguments[1..])
  }

  method QuoteWindowsArgument(value: Str) returns (result: Str)
    ensures result == Quoted(value)
  {
    if |value| > 0 && SPACE !in value && TAB !in value && LF !in value && VT !in value && QUOTE !in value {
      return value;
    }
    result := [QUOTE];
    var backslashes: nat := 0;
    for i := 0 to |value|
      invariant result + Escaped(value[i..], backslashes) == [QUOTE] + Escaped(value, 0)
    {
      var character := value[i];
      assert value[i..][0] == character && value[i..][1..] == value[i + 1..];
      ghost var before := result;
      if character == BACKSLASH {
        backslashes := backslashes + 1;
        continue;
      }
      if character == QUOTE {
        result := result + Repeat(BACKSLASH, backslashes * 2 + 1);
        result := result + [QUOTE];
        assert before + (Repeat(BACKSLASH, 2 * backslashes + 1) + [QUOTE] + Escaped(value[i + 1..], 0))
            == result + Escaped(value[i + 1..], 0);
        backslashes := 0;
        continue;
      }
      ghost var pending := backslashes;
      if backslashes > 0 {
        result := result + Repeat(BACKSLASH, backslashes);
        backslashes := 0;
      }
      result := result + [character];
      assert before + (Repeat(BACKSLASH, pending) + [character] + Escaped(value[i + 1..], 0))
          == result + Escaped(value[i + 1..], 0);
    }
    assert value[|value|..] == [];
    if backslashes > 0 {
      result := result + Repeat(BACKSLASH, backslashes * 2);
    }
    result := result + [QUOTE];
  }

  method BuildCommandLine(arguments: seq<Str>) returns (commandLine: Str)
    ensures commandLine == Joined(arguments)
  {
    commandLine := [];
    for index := 0 to |arguments|
      invariant commandLine == Joined(arguments[..index])
    {
      if index > 0 {
        commandLine := commandLine + [SPACE];
      }
      var quoted := QuoteWindowsArgument(arguments[index]);
      commandLine := commandLine + quoted;
      JoinedSnoc(arguments[..index], arguments[index]);
      assert arguments[..index + 1] == arguments[..index] + [arguments[index]];
    }
    assert arguments[..|arguments|] == arguments;
  }

  lemma {:induction false} JoinedSnoc(arguments: seq<Str>, last: Str)
    ensures Joined(arguments + [last])
         == Joined(arguments) + (if arguments == [] then [] else [SPACE]) + Quoted(last)
  {
    if |arguments| == 0 {
      assert arguments + [last] == [last];
    } else {
      assert (arguments + [last])[1..] == arguments[1..] + [last];
      JoinedSnoc(arguments[1..], last);
    }
  }

  // ---------------------------------------------------------------- the argv rules

  /** Number of backslashes at the start of `s`. */
  function Run(s: Str): (n: nat)
    ensures n <= |s|
    ensures forall i | 0 <= i < n :: s[i] == BACKSLASH
    ensures n < |s| ==> s[n] != BACKSLASH
  {
    if s == [] || s[0] != BACKSLASH then 0 else 1 + Run(s[1..])
  }

  predicate Blank(c: CodeUnit) {
    c == SPACE || c == TAB
  }

  /** Reads one argument: 2n backslashes before a quote give n backslashes and a
      delimiter, 2n+1 give n backslashes and a literal quote, other backslashes are
      literal, and a blank outside quotes (or the terminating NUL) ends the argument.
      `doubled` says whether two quotes inside a quoted part mean one literal quote,
      as the runtimes since 2008 read them. */
  function ReadArgument(s: Str, quoted: bool, doubled: bool, read: Str): (r: (Str, Str))
    ensures |r.1| <= |s|
    ensures s != [] && (quoted || !Blank(s[0])) && s[0] != NUL ==> |r.1| < |s|
    decreases |s|
  {
    if s == [] || s[0] == NUL then (read, [])
    else if !quoted && Blank(s[0]) then (read, s)
    else
      var n := Run(s);
      if n < |s| && s[n] == QUOTE then
        if n % 2 == 1 then ReadArgument(s[n + 1..], quoted, doubled, read + Repeat(BACKSLASH, n / 2) + [QUOTE])
        else if quoted && doubled && n + 1 < |s| && s[n + 1] == QUOTE then
          ReadArgument(s[n + 2..], quoted, doubled, read + Repeat(BACKSLASH, n / 2) + [QUOTE])
        else ReadArgument(s[n + 1..], !quoted, doubled, read + Repeat(BACKSLASH, n / 2))
      else if n > 0 then ReadArgument(s[n..], quoted, doubled, read + Repeat(BACKSLASH, n))
      else ReadArgument(s[1..], quoted, doubled, read + [s[0]])
  }

  function ParseArguments(s: Str, doubled: bool): seq<Str>
    decreases |s|
  {
    if s == [] || s[0] == NUL then []
    else if Blank(s[0]) then ParseArguments(s[1..], doubled)
    else
      var (argument, rest) := ReadArgument(s, false, doubled, []);
      [argument] + ParseArguments(rest, doubled)
  }

  // ---------------------------------------------------------------- round trip

  /** An argument is followed by nothing or by the separating blank. */
  predicate AtEnd(rest: Str) {
    rest == [] || rest[0] == SPACE
  }

  lemma {:induction false} RunOf(n: nat, tail: Str)
    requires tail != [] && tail[0] != BACKSLASH
    ensures Run(Repeat(BACKSLASH, n) + tail) == n
  {
    var s := Repeat(BACKSLASH, n) + tail;
    assert s[n] == tail[0];
    assert forall i | 0 <= i < n :: s[i] == BACKSLASH;
  }

  /** The 2n / 2n+1 rule as one step of the reader. */
  lemma ReadsRunThenQuote(n: nat, rest: Str, quoted: bool, doubled: bool, read: Str)
    requires n % 2 == 0 ==> rest == [] || rest[0] != QUOTE
    ensures ReadArgument(Repeat(BACKSLASH, n) + [QUOTE] + rest, quoted, doubled, read)
         == if n % 2 == 1 then ReadArgument(rest, quoted, doubled, read + Repeat(BACKSLASH, n / 2) + [QUOTE])
            else ReadArgument(rest, !quoted, doubled, read + Repeat(BACKSLASH, n / 2))
  {
    var s := Repeat(BACKSLASH, n) + [QUOTE] + rest;
    assert s == Repeat(BACKSLASH, n) + ([QUOTE] + rest);
    RunOf(n, [QUOTE] + rest);
    assert s[n] == QUOTE && s[n + 1..] == rest;
    assert s[0] == if n == 0 then QUOTE else BACKSLASH;
  }

  /** Backslashes not followed by a quote are read as they stand. */
  lemma ReadsRunThenPlain(n: nat, c: CodeUnit, rest: Str, doubled: bool, read: Str)
    requires c != BACKSLASH && c != QUOTE && c != NUL
    ensures ReadArgument(Repeat(BACKSLASH, n) + [c] + rest, true, doubled, read)
         == ReadArgument(rest, true, doubled, read + Repeat(BACKSLASH, n) + [c])
  {
    var tail := [c] + rest;
    var s := Repeat(BACKSLASH, n) + [c] + rest;
    assert s == Repeat(BACKSLASH, n) + tail;
    RunOf(n, tail);
    assert tail[1..] == rest;
    assert Run(tail) == 0;
    assert ReadArgument(tail, true, doubled, read + Repeat(BACKSLASH, n))
        == ReadArgument(rest, true, doubled, read + Repeat(BACKSLASH, n) + [c]);
    if n == 0 {
      assert s == tail && read + Repeat(BACKSLASH, n) == read;
    } else {
      assert s[0] == BACKSLASH && s[n] == c && s[n..] == tail;
    }
  }

  lemma EscapedFirst(value: Str, slashes: nat, rest: Str)
    requires value != [] && value[0] != BACKSLASH
    ensures Escaped(value, slashes) + rest
         == Repeat(BACKSLASH, if value[0] == QUOTE then 2 * slashes + 1 else slashes) + [value[0]]
            + (Escaped(value[1..], 0) + rest)
  {
  }

  /** Up to and including the first character that is not a backslash, the reader
      undoes what the printer's loop wrote. */
  lemma ReadsFirst(value: Str, slashes: nat, rest: Str, doubled: bool, read: Str)
    requires value != [] && value[0] != BACKSLASH && value[0] != NUL
    ensures ReadArgument(Escaped(value, slashes) + rest, true, doubled, read)
         == ReadArgument(Escaped(value[1..], 0) + rest, true, doubled, read + Repeat(BACKSLASH, slashes) + [value[0]])
  {
    var next := Escaped(value[1..], 0) + rest;
    EscapedFirst(value, slashes, rest);
    if value[0] == QUOTE {
      var n := 2 * slashes + 1;
      assert n % 2 == 1 && n / 2 == slashes;
      ReadsRunThenQuote(n, next, true, doubled, read);
    } else {
      ReadsRunThenPlain(slashes, value[0], next, doubled, read);
    }
  }

  /** Inside quotes the reader undoes the printer's loop and stops just after the
      closing quote. */
  lemma {:induction false} ReadsEscaped(value: Str, slashes: nat, rest: Str, doubled: bool, read: Str)
    requires NUL !in value && AtEnd(rest)
    ensures ReadArgument(Escaped(value, slashes) + rest, true, doubled, read)
         == ReadArgument(rest, false, doubled, read + Repeat(BACKSLASH, slashes) + value)
    decreases |value|
  {
    if value == [] {
      ReadsRunThenQuote(2 * slashes, rest, true, doubled, read);
      assert read + Repeat(BACKSLASH, slashes) + value == read + Repeat(BACKSLASH, slashes);
    } else if value[0] == BACKSLASH {
      ReadsEscaped(value[1..], slashes + 1, rest, doubled, read);
      assert read + Repeat(BACKSLASH, slashes + 1) + value[1..] == read + Repeat(BACKSLASH, slashes) + value;
    } else {
      ReadsFirst(value, slashes, rest, doubled, read);
      var read' := read + Repeat(BACKSLASH, slashes) + [value[0]];
      ReadsEscaped(value[1..], 0, rest, doubled, read');
      assert read' + Repeat(BACKSLASH, 0) + value[1..] == read + Repeat(BACKSLASH, slashes) + value;
    }
  }

  /** A word the printer leaves bare is read back as it stands. */
  lemma {:induction false} ReadsBare(value: Str, rest: Str, doubled: bool, read: Str)
    requires SPACE !in value && TAB !in value && QUOTE !in value && NUL !in value && AtEnd(rest)
    ensures ReadArgument(value + rest, false, doubled, read) == ReadArgument(rest, false, doubled, read + value)
    decreases |value|
  {
    var s := value + rest;
    if value == [] {
      assert s == rest && read + value == read;
    } else {
      var n := Run(s);
      assert s[0] == value[0];
      if n == 0 {
        assert s[0] != QUOTE;
        assert s[1..] == value[1..] + rest;
        ReadsBare(value[1..], rest, doubled, read + [value[0]]);
        assert read + [value[0]] + value[1..] == read + value;
      } else {
        assert rest != [] ==> s[|value|] == rest[0];
        assert forall i | 0 <= i < |value| :: s[i] == value[i];
        assert s[n..] == value[n..] + rest;
        ReadsBare(value[n..], rest, doubled, read + Repeat(BACKSLASH, n));
        assert value[..n] == Repeat(BACKSLASH, n) by {
          forall i | 0 <= i < n ensures value[i] == BACKSLASH { assert s[i] == value[i]; }
        }
        assert value == value[..n] + value[n..];
        assert read + Repeat(BACKSLASH, n) + value[n..] == read + value;
      }
    }
  }

  /** One quoted argument, whatever follows it, is read back exactly. */
  lemma {:induction false} ReadsQuoted(value: Str, rest: Str, doubled: bool)
    requires NUL !in value && AtEnd(rest)
    ensures Quoted(value) != [] && !Blank(Quoted(value)[0]) && Quoted(value)[0] != NUL
    ensures ReadArgument(Quoted(value) + rest, false, doubled, []) == (value, rest)
  {
    var s := Quoted(value) + rest;
    if NeedsQuotes(value) {
      assert s[0] == QUOTE && s[1..] == Escaped(value, 0) + rest;
      assert Run(s) == 0;
      assert [] + Repeat(BACKSLASH, 0) == Repeat(BACKSLASH, 0);
      assert ReadArgument(s, false, doubled, []) == ReadArgument(s[1..], true, doubled, []);
      ReadsEscaped(value, 0, rest, doubled, []);
      assert [] + Repeat(BACKSLASH, 0) + value == value;
    } else {
      ReadsBare(value, rest, doubled, []);
      assert [] + value == value;
    }
    assert ReadArgument(rest, false, doubled, value) == (value, rest);
  }

  lemma {:induction false} ParsesJoined(arguments: seq<Str>, doubled: bool)
    requires forall a | a in arguments :: NUL !in a
    ensures ParseArguments(Joined(arguments), doubled) == arguments
    decreases |arguments|
  {
    if |arguments| >= 1 {
      var rest := if |arguments| == 1 then [] else [SPACE] + Joined(arguments[1..]);
      var s := Joined(arguments);
      assert s == Quoted(arguments[0]) + rest;
      ReadsQuoted(arguments[0], rest, doubled);
      assert s[0] == Quoted(arguments[0])[0];
      ParsesJoined(arguments[1..], doubled);
      if |arguments| > 1 {
        assert rest[1..] == Joined(arguments[1..]);
      }
      assert ParseArguments(rest, doubled) == arguments[1..];
    }
  }

  lemma {:induction false} ReadsNoNul(s: Str, quoted: bool, doubled: bool, read: Str)
    requires NUL !in read
    ensures NUL !in ReadArgument(s, quoted, doubled, read).0
    decreases |s|
  {
    if s == [] || s[0] == NUL || (!quoted && Blank(s[0])) {
    } else {
      var n := Run(s);
      if n < |s| && s[n] == QUOTE {
        if n % 2 == 1 {
          ReadsNoNul(s[n + 1..], quoted, doubled, read + Repeat(BACKSLASH, n / 2) + [QUOTE]);
        } else if quoted && doubled && n + 1 < |s| && s[n + 1] == QUOTE {
          ReadsNoNul(s[n + 2..], quoted, doubled, read + Repeat(BACKSLASH, n / 2) + [QUOTE]);
        } else {
          ReadsNoNul(s[n + 1..], !quoted, doubled, read + Repeat(BACKSLASH, n / 2));
        }
      } else if n > 0 {
        ReadsNoNul(s[n..], quoted, doubled, read + Repeat(BACKSLASH, n));
      } else {
        ReadsNoNul(s[1..], quoted, doubled, read + [s[0]]);
      }
    }
  }

  lemma {:induction false} ParsedNoNul(s: Str, doubled: bool)
    ensures forall a | a in ParseArguments(s, doubled) :: NUL !in a
    decreases |s|
  {
    if s == [] || s[0] == NUL {
    } else if Blank(s[0]) {
      ParsedNoNul(s[1..], doubled);
    } else {
      var (argument, rest) := ReadArgument(s, false, doubled, []);
      ReadsNoNul(s, false, doubled, []);
      ParsedNoNul(rest, doubled);
    }
  }

  /** The launched process sees exactly the arguments it was given, under either
      reading of doubled quotes, for every list of arguments that a NUL-terminated
      command line can carry, and for no other. */
  lemma RoundTrip(arguments: seq<Str>, doubled: bool)
    ensures ParseArguments(Joined(arguments), doubled) == arguments <==> forall a | a in arguments :: NUL !in a
  {
    if forall a | a in arguments :: NUL !in a {
      ParsesJoined(arguments, doubled);
    } else {
      ParsedNoNul(Joined(arguments), doubled);
    }
  }

  /** Two different argument lists never share a command line. */
  lemma Injective(left: seq<Str>, right: seq<Str>)
    requires forall a | a in left :: NUL !in a
    requires forall a | a in right :: NUL !in a
    ensures Joined(left) == Joined(right) ==> left == right
  {
    ParsesJoined(left, true);
    ParsesJoined(right, true);
  }
}
