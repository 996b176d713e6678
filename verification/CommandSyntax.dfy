/** How a chat line is split into arguments, and a spelling for every list of them. */
module CommandSyntax {

  const QUOTE := '\"'
  const BACKSLASH := '\\'

  /** The arguments still to come, with part of one read already. */
  function Scan(text: string, current: string, quoted: bool, started: bool): seq<string> {
    if text == "" then
      if started || current != "" then [current] else []
    else if text[0] == BACKSLASH && |text| > 1 && text[1] == QUOTE then
      Scan(text[2..], current + [QUOTE], quoted, true)
    else if text[0] == QUOTE then
      Scan(text[1..], current, !quoted, true)
    else if text[0] == ' ' && !quoted then
      (if started || current != "" then [current] else []) + Scan(text[1..], "", false, false)
    else
      Scan(text[1..], current + [text[0]], quoted, started)
  }

  function Tokens(text: string): seq<string> {
    Scan(text, "", false, false)
  }

  method Tokenize(text: string) returns (tokens: seq<string>)
    ensures tokens == Tokens(text)
  {
    tokens := [];
    var current, quoted, started, i := "", false, false, 0;
    while i < |text|
      invariant 0 <= i <= |text|
      invariant tokens + Scan(text[i..], current, quoted, started) == Tokens(text)
    {
      var c := text[i];
      if c == BACKSLASH && i + 1 < |text| && text[i + 1] == QUOTE {
        assert text[i..][2..] == text[i + 2..];
        current := current + [QUOTE];
        i := i + 2;
        started := true;
        continue;
      }
      assert text[i..][1..] == text[i + 1..];
      i := i + 1;
      if c == QUOTE {
        quoted := !quoted;
        started := true;
        continue;
      }
      if c == ' ' && !quoted {
        if started || current != "" {
          tokens := tokens + [current];
        }
        current := "";
        started := false;
        continue;
      }
      current := current + [c];
    }
    if started || current != "" {
      tokens := tokens + [current];
    }
  }

  // ---- The spelling ----

  function Escape(body: string): string {
    if body == "" then "" else (if body[0] == QUOTE then [BACKSLASH, QUOTE] else [body[0]]) + Escape(body[1..])
  }

  /** How much of the argument comes before its trailing backslashes. */
  function BodyLength(arg: string): (n: nat)
    ensures n <= |arg| && (n > 0 ==> arg[n - 1] != BACKSLASH)
    ensures forall i | n <= i < |arg| :: arg[i] == BACKSLASH
  {
    if arg == "" || arg[|arg| - 1] != BACKSLASH then |arg| else BodyLength(arg[..|arg| - 1])
  }

  /** Quoted and escaped, but a backslash at the end stands after the closing quote, which it would escape. */
  function Spell(arg: string): string {
    [QUOTE] + Escape(arg[..BodyLength(arg)]) + [QUOTE] + arg[BodyLength(arg)..]
  }

  function Print(args: seq<string>): string {
    if args == [] then ""
    else if |args| == 1 then Spell(args[0])
    else Spell(args[0]) + " " + Print(args[1..])
  }

  // ---- Reading it back ----

  /** Escaped text inside quotes reads as itself, unless a backslash at its end meets a quote after it. */
  lemma {:induction false} ReadsEscaped(body: string, rest: string, current: string)
    requires body == "" || body[|body| - 1] != BACKSLASH || rest == "" || rest[0] != QUOTE
    ensures Scan(Escape(body) + rest, current, true, true) == Scan(rest, current + body, true, true)
  {
    if body == "" {
      assert Escape(body) + rest == rest && current + body == current;
    } else {
      var tail := body[1..];
      var after := Escape(tail) + rest;
      assert current + body == current + [body[0]] + tail;
      if body[0] == QUOTE {
        assert Escape(body) + rest == [BACKSLASH, QUOTE] + after;
      } else {
        assert Escape(body) + rest == [body[0]] + after;
      }
      ReadsEscaped(tail, rest, current + [body[0]]);
    }
  }

  /** Backslashes that no quote follows are plain text. */
  lemma {:induction false} ReadsBackslashes(slashes: string, rest: string, current: string)
    requires forall i | 0 <= i < |slashes| :: slashes[i] == BACKSLASH
    requires rest == "" || rest[0] == ' '
    ensures Scan(slashes + rest, current, false, true) == Scan(rest, current + slashes, false, true)
  {
    if slashes == "" {
      assert slashes + rest == rest && current + slashes == current;
    } else {
      var after := slashes[1..] + rest;
      assert slashes + rest == [slashes[0]] + after;
      assert current + slashes == current + [slashes[0]] + slashes[1..];
      ReadsBackslashes(slashes[1..], rest, current + [slashes[0]]);
    }
  }

  lemma ReadsParts(body: string, slashes: string, rest: string)
    requires body == "" || body[|body| - 1] != BACKSLASH
    requires forall i | 0 <= i < |slashes| :: slashes[i] == BACKSLASH
    requires rest == "" || rest[0] == ' '
    ensures Tokens([QUOTE] + (Escape(body) + ([QUOTE] + (slashes + rest)))) == Scan(rest, body + slashes, false, true)
  {
    var closing := [QUOTE] + (slashes + rest);
    ReadsEscaped(body, closing, "");
    assert "" + body == body;
    ReadsBackslashes(slashes, rest, body);
  }

  lemma ReadsSpelled(arg: string, rest: string)
    requires rest == "" || rest[0] == ' '
    ensures Tokens(Spell(arg) + rest) == [arg] + Tokens(if rest == "" then "" else rest[1..])
  {
    var n := BodyLength(arg);
    assert Spell(arg) + rest == [QUOTE] + (Escape(arg[..n]) + ([QUOTE] + (arg[n..] + rest)));
    ReadsParts(arg[..n], arg[n..], rest);
    assert arg[..n] + arg[n..] == arg;
  }

  /** Every list of arguments has a spelling: printing it and splitting the line gives the list back, empty
      arguments and any quotes, backslashes and spaces included. */
  lemma {:induction false} EveryListHasASpelling(args: seq<string>)
    ensures Tokens(Print(args)) == args
  {
    if |args| == 1 {
      ReadsSpelled(args[0], "");
      assert Spell(args[0]) + "" == Spell(args[0]);
      assert [args[0]] + Tokens("") == args;
    } else if |args| > 1 {
      var rest := " " + Print(args[1..]);
      assert Print(args) == Spell(args[0]) + rest;
      ReadsSpelled(args[0], rest);
      assert rest[1..] == Print(args[1..]);
      EveryListHasASpelling(args[1..]);
    }
  }

  // ---- Quoting and escaping alone ----

  function Quoted(arg: string): string {
    [QUOTE] + Escape(arg) + [QUOTE]
  }

  lemma {:induction false} EscapeLast(arg: string)
    requires arg != "" && arg[|arg| - 1] == BACKSLASH
    ensures Escape(arg) == Escape(arg[..|arg| - 1]) + [BACKSLASH]
  {
    if |arg| > 1 {
      EscapeLast(arg[1..]);
      assert arg[1..][..|arg| - 2] == arg[..|arg| - 1][1..];
    }
  }

  /** Quoting and escaping alone reads back exactly when the argument does not end in a backslash. */
  lemma QuotedReadsBackExactlyWhen(arg: string)
    ensures Tokens(Quoted(arg)) == [arg] <==> arg == "" || arg[|arg| - 1] != BACKSLASH
  {
    assert "" + arg == arg;
    assert Quoted(arg) == [QUOTE] + (Escape(arg) + [QUOTE]);
    if arg == "" || arg[|arg| - 1] != BACKSLASH {
      ReadsEscaped(arg, [QUOTE], "");
      assert [QUOTE] + "" == [QUOTE];
    } else {
      var front := arg[..|arg| - 1];
      EscapeLast(arg);
      assert Escape(arg) + [QUOTE] == Escape(front) + [BACKSLASH, QUOTE];
      ReadsEscaped(front, [BACKSLASH, QUOTE], "");
      assert "" + front == front;
      assert [BACKSLASH, QUOTE] + "" == [BACKSLASH, QUOTE];
      assert (front + [QUOTE])[|front|] != arg[|front|];
    }
  }

  // ---- Words without quotes, and with quotes in the middle ----

  predicate NoSpaces(word: string) {
    forall i | 0 <= i < |word| :: word[i] != ' '
  }

  /** Outside quotes too, escaped text reads as itself up to a space. */
  lemma {:induction false} ReadsBare(word: string, rest: string, current: string, started: bool)
    requires NoSpaces(word)
    requires word == "" || word[|word| - 1] != BACKSLASH || rest == "" || rest[0] != QUOTE
    ensures Scan(Escape(word) + rest, current, false, started)
         == Scan(rest, current + word, false, started || QUOTE in word)
  {
    if word == "" {
      assert Escape(word) + rest == rest && current + word == current;
    } else {
      var tail := word[1..];
      var after := Escape(tail) + rest;
      assert current + word == current + [word[0]] + tail;
      assert QUOTE in word <==> word[0] == QUOTE || QUOTE in tail;
      if word[0] == QUOTE {
        assert Escape(word) + rest == [BACKSLASH, QUOTE] + after;
        ReadsBare(tail, rest, current + [QUOTE], true);
      } else {
        assert Escape(word) + rest == [word[0]] + after;
        ReadsBare(tail, rest, current + [word[0]], started);
      }
    }
  }

  /** A word without spaces needs no quotes: it is one argument, up to the next space. */
  lemma BareWordReads(word: string, rest: string)
    requires word != "" && NoSpaces(word) && (rest == "" || rest[0] == ' ')
    ensures Tokens(Escape(word) + rest) == [word] + Tokens(if rest == "" then "" else rest[1..])
  {
    ReadsBare(word, rest, "", false);
    assert "" + word == word;
    assert [word] + Tokens("") == [word];
  }

  lemma SpacesAreSkipped(rest: string)
    ensures Tokens("") == [] && Tokens(" " + rest) == Tokens(rest)
  {
    assert (" " + rest)[1..] == rest;
    assert [] + Tokens(rest) == Tokens(rest);
  }

  /** Quotes inside a word keep the spaces between them and go away themselves; they do not cut the word. */
  lemma QuotesDoNotCut(before: string, body: string, after: string, rest: string)
    requires NoSpaces(before) && NoSpaces(after) && (rest == "" || rest[0] == ' ')
    requires before == "" || before[|before| - 1] != BACKSLASH
    requires body == "" || body[|body| - 1] != BACKSLASH
    ensures Tokens(Escape(before) + ([QUOTE] + (Escape(body) + ([QUOTE] + (Escape(after) + rest)))))
         == [before + body + after] + Tokens(if rest == "" then "" else rest[1..])
  {
    var tail := Escape(after) + rest;
    var closing := [QUOTE] + tail;
    var inside := Escape(body) + closing;
    ReadsBare(before, [QUOTE] + inside, "", false);
    assert "" + before == before && ([QUOTE] + inside)[1..] == inside && closing[1..] == tail;
    assert QUOTE !in before || QUOTE in before;
    ReadsEscaped(body, closing, before);
    ReadsBare(after, rest, before + body, true);
    assert [before + body + after] + Tokens("") == [before + body + after];
  }

  /** A quote that is never closed takes the rest of the line. */
  lemma UnclosedQuoteTakesTheRest(body: string)
    ensures Tokens([QUOTE] + Escape(body)) == [body]
  {
    ReadsEscaped(body, "", "");
    assert ([QUOTE] + Escape(body))[1..] == Escape(body) + "";
    assert "" + body == body;
  }
}
