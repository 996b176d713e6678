/** The runtime's hand-written placeholder scanner, proved equal to the command line's regular expression. */
module Dialects {
  import opened Placeholders

  datatype Dialect = Dialect(
    autoIncrementKey: string,
    epochNow: string,
    trueText: string,
    falseText: string,
    insertIfAbsent: string,
    needsConflictClause: bool)

  function DialectFor(driver: Driver): Dialect {
    match driver
    case Postgres =>
      Dialect("BIGSERIAL PRIMARY KEY", "EXTRACT(EPOCH FROM NOW())::BIGINT", "TRUE", "FALSE", "INSERT INTO", true)
    case MariaDb =>
      Dialect("BIGINT AUTO_INCREMENT PRIMARY KEY", "(UNIX_TIMESTAMP())", "TRUE", "FALSE", "INSERT IGNORE INTO", false)
    case Sqlite =>
      Dialect("INTEGER PRIMARY KEY AUTOINCREMENT", "(strftime('%s','now'))", "1", "0", "INSERT OR IGNORE INTO", false)
  }

  // ---- The string searches the scanner uses; the length stands for "not found" ----

  function Find(s: string, c: char, from: nat): (i: nat)
    requires from <= |s|
    ensures from <= i <= |s|
    ensures i < |s| ==> s[i] == c
    ensures forall k | from <= k < i :: s[k] != c
    decreases |s| - from
  {
    if from == |s| || s[from] == c then from else Find(s, c, from + 1)
  }

  function FindNotName(s: string, from: nat): (i: nat)
    requires from <= |s|
    ensures from <= i <= |s|
    ensures i < |s| ==> !IsNameChar(s[i])
    ensures forall k | from <= k < i :: IsNameChar(s[k])
    decreases |s| - from
  {
    if from == |s| || !IsNameChar(s[from]) then from else FindNotName(s, from + 1)
  }

  function FindParenOrAt(s: string, from: nat): (i: nat)
    requires from <= |s|
    ensures from <= i <= |s|
    ensures i < |s| ==> s[i] == ')' || s[i] == '@'
    ensures forall k | from <= k < i :: s[k] != ')' && s[k] != '@'
    decreases |s| - from
  {
    if from == |s| || s[from] == ')' || s[from] == '@' then from else FindParenOrAt(s, from + 1)
  }

  /** Where the scanner puts the closing `@` of a placeholder opened at open. */
  function CloseOf(sql: string, open: nat): (close: nat)
    requires open < |sql|
    ensures open < close <= |sql|
  {
    var close := FindNotName(sql, open + 1);
    if close > open + 1 && close < |sql| && sql[close] == '(' then
      var args := FindParenOrAt(sql, close);
      if args < |sql| && sql[args] == ')' then args + 1 else close
    else close
  }

  predicate ScannerAccepts(sql: string, open: nat)
    requires open < |sql|
  {
    FindNotName(sql, open + 1) > open + 1 && CloseOf(sql, open) < |sql| && sql[CloseOf(sql, open)] == '@'
  }

  lemma InnerOfSlice(s: string, i: nat, j: nat)
    requires i + 2 <= j <= |s|
    ensures s[i..j][1..|s[i..j]| - 1] == s[i + 1..j - 1]
  {
    var inner := s[i..j][1..j - i - 1];
    assert |inner| == j - i - 2;
    assert forall k | 0 <= k < |inner| :: inner[k] == s[i + 1 + k];
  }

  /** What the scanner reads between the two signs is a token. */
  lemma AcceptedTokenShape(sql: string, open: nat, n: nat)
    requires open < |sql| && ScannerAccepts(sql, open) && n == FindNotName(sql, open + 1) - (open + 1)
    ensures open + 1 < CloseOf(sql, open) && TokenShape(sql[open + 1..CloseOf(sql, open)], n)
  {
    var close := CloseOf(sql, open);
    var t := sql[open + 1..close];
    var at := FindNotName(sql, open + 1);
    assert n <= |t|;
    var name := t[..n];
    forall i | 0 <= i < |name| ensures InClass(name[i], NameChar) {
      assert name[i] == t[i] == sql[open + 1 + i];
      assert IsNameChar(sql[open + 1 + i]);
    }
    if n < |t| {
      assert sql[at] == '(' && close == FindParenOrAt(sql, at) + 1;
      assert t[n] == sql[at] && t[|t| - 1] == sql[close - 1] == ')';
      var args := t[n + 1..|t| - 1];
      forall i | 0 <= i < |args| ensures InClass(args[i], NotParenNorAt) {
        assert args[i] == t[n + 1 + i] == sql[at + 1 + i];
      }
    }
  }

  lemma ScannerAcceptsOnlyMatches(sql: string, open: nat)
    requires open < |sql| && sql[open] == '@' && ScannerAccepts(sql, open)
    ensures MatchAt(sql, open, CloseOf(sql, open) + 1)
  {
    var close := CloseOf(sql, open);
    var w := sql[open..close + 1];
    var n := FindNotName(sql, open + 1) - (open + 1);
    AcceptedTokenShape(sql, open, n);
    InnerOfSlice(sql, open, close + 1);
    assert w[0] == sql[open] && w[|w| - 1] == sql[close];
    assert PlaceholderShape(w, n);
    PlaceholderMatches(w);
  }

  /** The places in the text that make sql[open..j] a placeholder whose name has n characters. */
  ghost predicate ReadsAs(sql: string, open: nat, j: nat, n: nat) {
    && open + 2 + n <= j <= |sql| && n >= 1 && sql[open] == sql[j - 1] == '@'
    && (forall k | open + 1 <= k < open + 1 + n :: IsNameChar(sql[k]))
    && (j == open + 2 + n
        || (open + 4 + n <= j && sql[open + 1 + n] == '(' && sql[j - 2] == ')'
            && forall k | open + 1 + n < k < j - 2 :: sql[k] != ')' && sql[k] != '@'))
  }

  lemma TokenReadsOff(sql: string, open: nat, j: nat, n: nat)
    requires open + 2 <= j <= |sql| && sql[open] == sql[j - 1] == '@' && TokenShape(sql[open + 1..j - 1], n)
    ensures ReadsAs(sql, open, j, n)
  {
    var t := sql[open + 1..j - 1];
    forall k | open + 1 <= k < open + 1 + n ensures IsNameChar(sql[k]) {
      assert InClass(t[..n][k - (open + 1)], NameChar);
      assert sql[k] == t[..n][k - (open + 1)];
    }
    if n < |t| {
      assert sql[open + 1 + n] == t[n] && sql[j - 2] == t[|t| - 1];
      var args := t[n + 1..|t| - 1];
      forall k | open + 1 + n < k < j - 2 ensures sql[k] != ')' && sql[k] != '@' {
        assert InClass(args[k - (open + 2 + n)], NotParenNorAt);
        assert args[k - (open + 2 + n)] == t[k - (open + 1)] == sql[k];
      }
    }
  }

  lemma MatchReadsOff(sql: string, open: nat, j: nat) returns (n: nat)
    requires open < |sql| && MatchAt(sql, open, j)
    ensures ReadsAs(sql, open, j, n)
  {
    var w := sql[open..j];
    PlaceholderMatches(w);
    n :| PlaceholderShape(w, n);
    InnerOfSlice(sql, open, j);
    assert w[0] == sql[open] && w[|w| - 1] == sql[j - 1];
    TokenReadsOff(sql, open, j, n);
  }

  lemma ScannerAcceptsEveryMatch(sql: string, open: nat, j: nat)
    requires open < |sql| && MatchAt(sql, open, j)
    ensures sql[open] == '@' && ScannerAccepts(sql, open) && j == CloseOf(sql, open) + 1
  {
    var n := MatchReadsOff(sql, open, j);
    var at := open + 1 + n;
    assert !IsNameChar(sql[at]);
    assert FindNotName(sql, open + 1) == at;
    if sql[at] == '(' {
      assert FindParenOrAt(sql, at) == j - 2;
    }
  }

  // ---- Rendering, piece by piece ----

  type Replace = string -> Result<string>

  lemma {:induction false} PlainTextIsCopied(sql: string, a: nat, b: nat, replace: Replace)
    requires a <= b <= |sql|
    requires forall k | a <= k < b :: sql[k] != '@' || !ScannerAccepts(sql, k)
    ensures Substitute(sql, a, replace) == Prepend(sql[a..b], Substitute(sql, b, replace))
    decreases b - a
  {
    if a == b {
      PrependNothing(Substitute(sql, b, replace));
    } else {
      forall j: nat ensures !MatchAt(sql, a, j) {
        if MatchAt(sql, a, j) {
          ScannerAcceptsEveryMatch(sql, a, j);
        }
      }
      PlainTextIsCopied(sql, a + 1, b, replace);
      assert sql[a..b] == [sql[a]] + sql[a + 1..b];
      PrependTwice([sql[a]], sql[a + 1..b], Substitute(sql, b, replace));
    }
  }

  lemma PrependNothing(rest: Result<string>)
    ensures Prepend("", rest) == rest
  {
    if rest.Ok? {
      assert "" + rest.value == rest.value;
    }
  }

  lemma PrependTwice(a: string, b: string, rest: Result<string>)
    ensures Prepend(a, Prepend(b, rest)) == Prepend(a + b, rest)
  {
    if rest.Ok? {
      assert a + (b + rest.value) == a + b + rest.value;
    }
  }

  lemma PlaceholderIsReplaced(sql: string, open: nat, replace: Replace)
    requires open < |sql| && sql[open] == '@' && ScannerAccepts(sql, open)
    ensures var close := CloseOf(sql, open);
            var replaced := replace(sql[open + 1..close]);
            Substitute(sql, open, replace)
            == if replaced.Ok? then Prepend(replaced.value, Substitute(sql, close + 1, replace)) else replaced
  {
    ScannerAcceptsOnlyMatches(sql, open);
    ScannerAcceptsEveryMatch(sql, open, MatchEnd(sql, open));
    var close := CloseOf(sql, open);
    InnerOfSlice(sql, open, close + 1);
    assert Inner(sql[open..close + 1]) == sql[open + 1..close];
  }

  /** A conflict token always closes its parenthesis, so cutting it off and printing it agree. */
  lemma ConflictTokenIsClosed(sql: string, open: nat)
    requires open < |sql| && sql[open] == '@' && ScannerAccepts(sql, open)
    ensures var t := sql[open + 1..CloseOf(sql, open)];
            CONFLICT_PREFIX <= t ==> RemoveParen(t[|CONFLICT_PREFIX|..]) + ")" == t[|CONFLICT_PREFIX|..]
  {
    var close := CloseOf(sql, open);
    var t := sql[open + 1..close];
    if CONFLICT_PREFIX <= t {
      ConflictTokenEndsInParen(sql, open);
    }
  }

  lemma ConflictTokenEndsInParen(sql: string, open: nat)
    requires open < |sql| && sql[open] == '@' && ScannerAccepts(sql, open)
    requires CONFLICT_PREFIX <= sql[open + 1..CloseOf(sql, open)]
    ensures var rest := sql[open + 1..CloseOf(sql, open)][|CONFLICT_PREFIX|..];
            rest != [] && rest[|rest| - 1] == ')'
  {
    var close := CloseOf(sql, open);
    var t := sql[open + 1..close];
    var at := FindNotName(sql, open + 1);
    assert t[..|CONFLICT_PREFIX|] == CONFLICT_PREFIX;
    assert sql[open + 12] == t[11] == '(' && !IsNameChar('(');
    forall k | open + 1 <= k < open + 12 ensures IsNameChar(sql[k]) {
      assert sql[k] == t[k - open - 1] == CONFLICT_PREFIX[k - open - 1];
    }
    assert at == open + 12;
    assert sql[close] == '@' && sql[close - 1] == ')';
    var rest := t[|CONFLICT_PREFIX|..];
    assert rest != [] by {
      assert close - 1 > at;
    }
    assert rest[|rest| - 1] == sql[close - 1];
  }

  /** The branches that append a token's spelling to the output; false for an unknown token. */
  method AppendSpelling(dialect: Dialect, token: string, out: string, ghost driver: Driver)
      returns (known: bool, result: string)
    requires dialect == DialectFor(driver)
    requires CONFLICT_PREFIX <= token ==>
               RemoveParen(token[|CONFLICT_PREFIX|..]) + ")" == token[|CONFLICT_PREFIX|..]
    ensures known == Replacement(token, driver).Ok?
    ensures known ==> result == out + Replacement(token, driver).value
    ensures !known ==> Replacement(token, driver) == UnknownPlaceholder(token)
  {
    known, result := true, out;
    if token == "ID" {
      result := result + dialect.autoIncrementKey;
    } else if token == "NOW" {
      result := result + dialect.epochNow;
    } else if token == "TRUE" {
      result := result + dialect.trueText;
    } else if token == "FALSE" {
      result := result + dialect.falseText;
    } else if token == "INSERT_IF_ABSENT" {
      result := result + dialect.insertIfAbsent;
    } else if CONFLICT_PREFIX <= token {
      if dialect.needsConflictClause {
        result := result + "ON CONFLICT (" + token[|CONFLICT_PREFIX|..] + " DO NOTHING";
      }
      ConflictText(token, driver, out);
    } else {
      known := false;
    }
    if !(CONFLICT_PREFIX <= token) && known {
      SpelledText(token, driver);
    }
  }

  lemma {:induction false} ConflictText(token: string, driver: Driver, out: string)
    requires CONFLICT_PREFIX <= token
    requires RemoveParen(token[|CONFLICT_PREFIX|..]) + ")" == token[|CONFLICT_PREFIX|..]
    ensures Replacement(token, driver).Ok?
    ensures out + Replacement(token, driver).value
         == if DialectFor(driver).needsConflictClause
            then out + "ON CONFLICT (" + token[|CONFLICT_PREFIX|..] + " DO NOTHING" else out
  {
    var columns := RemoveParen(token[|CONFLICT_PREFIX|..]);
    if driver == Postgres {
      assert out + ("ON CONFLICT (" + columns + ") DO NOTHING")
          == out + "ON CONFLICT (" + (columns + ")") + " DO NOTHING";
    } else {
      assert out + "" == out;
    }
  }

  /** Both tables spell the five fixed tokens the same way, for every driver. */
  lemma SpelledText(token: string, driver: Driver)
    requires token in {"ID", "NOW", "TRUE", "FALSE", "INSERT_IF_ABSENT"}
    ensures var d := DialectFor(driver);
            Replacement(token, driver)
            == Ok(if token == "ID" then d.autoIncrementKey
                  else if token == "NOW" then d.epochNow
                  else if token == "TRUE" then d.trueText
                  else if token == "FALSE" then d.falseText
                  else d.insertIfAbsent)
  {
    assert !(CONFLICT_PREFIX <= token) by {
      assert CONFLICT_PREFIX[0] == 'O';
      assert token[0] in {'I', 'N', 'T', 'F'};
    }
  }

  /** The output so far, followed by what is left to render. */
  ghost function Rendered(out: string, sql: string, copied: nat, replace: Replace): Result<string>
    requires copied <= |sql|
  {
    Prepend(out, Substitute(sql, copied, replace))
  }

  lemma TextCopied(whole: Result<string>, out: string, sql: string, copied: nat, upTo: nat, replace: Replace)
    requires copied <= upTo <= |sql| && whole == Rendered(out, sql, copied, replace)
    requires forall k | copied <= k < upTo :: sql[k] != '@' || !ScannerAccepts(sql, k)
    ensures whole == Rendered(out + sql[copied..upTo], sql, upTo, replace)
  {
    PlainTextIsCopied(sql, copied, upTo, replace);
    PrependTwice(out, sql[copied..upTo], Substitute(sql, upTo, replace));
  }

  lemma TokenReplaced(whole: Result<string>, out: string, sql: string, open: nat, replace: Replace)
    requires open < |sql| && sql[open] == '@' && ScannerAccepts(sql, open) && whole == Rendered(out, sql, open, replace)
    ensures var replaced := replace(sql[open + 1..CloseOf(sql, open)]);
            if replaced.Ok? then whole == Rendered(out + replaced.value, sql, CloseOf(sql, open) + 1, replace)
            else whole == replaced
  {
    PlaceholderIsReplaced(sql, open, replace);
    var close := CloseOf(sql, open);
    var replaced := replace(sql[open + 1..close]);
    if replaced.Ok? {
      PrependTwice(out, replaced.value, Substitute(sql, close + 1, replace));
    }
  }

  lemma RestCopied(whole: Result<string>, out: string, sql: string, copied: nat, replace: Replace)
    requires copied <= |sql| && whole == Rendered(out, sql, copied, replace)
    requires forall k | copied <= k < |sql| :: sql[k] != '@'
    ensures whole == Ok(out + sql[copied..])
  {
    TextCopied(whole, out, sql, copied, |sql|, replace);
    assert sql[copied..|sql|] == sql[copied..];
    assert out + sql[copied..] + "" == out + sql[copied..];
  }

  method FindClose(sql: string, open: nat) returns (named: bool, close: nat)
    requires open < |sql|
    ensures close == CloseOf(sql, open)
    ensures ScannerAccepts(sql, open) <==> named && close < |sql| && sql[close] == '@'
  {
    close := FindNotName(sql, open + 1);
    named := close > open + 1;
    if named && close < |sql| && sql[close] == '(' {
      var args := FindParenOrAt(sql, close);
      if args < |sql| && sql[args] == ')' {
        close := args + 1;
      }
    }
  }

  // ---- The scan, turn by turn ----

  datatype Scanned = Scanned(out: string, copied: nat)

  /** What one turn of the loop does: passes over an `@` that begins no placeholder, or replaces one. */
  ghost predicate Turns(sql: string, replace: Replace, b: Scanned, a: Scanned) {
    && b.copied <= |sql| && Find(sql, '@', b.copied) < |sql|
    && var open := Find(sql, '@', b.copied);
       if !ScannerAccepts(sql, open) then a == Scanned(b.out + sql[b.copied..open + 1], open + 1)
       else
         var replaced := replace(sql[open + 1..CloseOf(sql, open)]);
         replaced.Ok? && a == Scanned(b.out + sql[b.copied..open] + replaced.value, CloseOf(sql, open) + 1)
  }

  ghost predicate IsTrace(sql: string, replace: Replace, trace: seq<Scanned>) {
    && trace != [] && trace[0] == Scanned("", 0)
    && forall k | 0 <= k < |trace| - 1 :: Turns(sql, replace, trace[k], trace[k + 1])
  }

  lemma TraceGrows(sql: string, replace: Replace, trace: seq<Scanned>, a: Scanned)
    requires IsTrace(sql, replace, trace) && Turns(sql, replace, trace[|trace| - 1], a)
    ensures IsTrace(sql, replace, trace + [a])
  {
    var longer := trace + [a];
    forall k | 0 <= k < |longer| - 1 ensures Turns(sql, replace, longer[k], longer[k + 1]) {
      assert longer[k] == trace[k];
      assert k < |trace| - 1 ==> longer[k + 1] == trace[k + 1];
    }
  }

  lemma TurnKeepsRendering(whole: Result<string>, sql: string, replace: Replace, b: Scanned, a: Scanned)
    requires Turns(sql, replace, b, a) && whole == Rendered(b.out, sql, b.copied, replace)
    ensures a.copied <= |sql| && whole == Rendered(a.out, sql, a.copied, replace)
  {
    var open := Find(sql, '@', b.copied);
    var upTo := if ScannerAccepts(sql, open) then open else open + 1;
    var text := b.out + sql[b.copied..upTo];
    TextCopied(whole, b.out, sql, b.copied, upTo, replace);
    if ScannerAccepts(sql, open) {
      TokenReplaced(whole, text, sql, open, replace);
    }
  }

  lemma {:induction false} TraceRenders(sql: string, replace: Replace, trace: seq<Scanned>, n: nat)
    requires IsTrace(sql, replace, trace) && n < |trace|
    ensures trace[n].copied <= |sql|
    ensures Substitute(sql, 0, replace) == Rendered(trace[n].out, sql, trace[n].copied, replace)
  {
    if n == 0 {
      PrependNothing(Substitute(sql, 0, replace));
    } else {
      TraceRenders(sql, replace, trace, n - 1);
      assert Turns(sql, replace, trace[n - 1], trace[(n - 1) + 1]);
      TurnKeepsRendering(Substitute(sql, 0, replace), sql, replace, trace[n - 1], trace[n]);
    }
  }

  /** A placeholder the table does not know is what the whole rendering reports. */
  lemma {:induction false} TraceMeetsUnknown(sql: string, replace: Replace, trace: seq<Scanned>, open: nat)
    requires IsTrace(sql, replace, trace) && trace[|trace| - 1].copied <= |sql|
    requires open == Find(sql, '@', trace[|trace| - 1].copied) < |sql| && ScannerAccepts(sql, open)
    requires replace(sql[open + 1..CloseOf(sql, open)]).UnknownPlaceholder?
    ensures Substitute(sql, 0, replace) == replace(sql[open + 1..CloseOf(sql, open)])
  {
    var b, whole := trace[|trace| - 1], Substitute(sql, 0, replace);
    TraceRenders(sql, replace, trace, |trace| - 1);
    TextCopied(whole, b.out, sql, b.copied, open, replace);
    TokenReplaced(whole, b.out + sql[b.copied..open], sql, open, replace);
  }

  lemma {:induction false} TraceEnds(sql: string, replace: Replace, trace: seq<Scanned>)
    requires IsTrace(sql, replace, trace) && trace[|trace| - 1].copied <= |sql|
    requires Find(sql, '@', trace[|trace| - 1].copied) == |sql|
    ensures Substitute(sql, 0, replace) == Ok(trace[|trace| - 1].out + sql[trace[|trace| - 1].copied..])
  {
    var b := trace[|trace| - 1];
    TraceRenders(sql, replace, trace, |trace| - 1);
    RestCopied(Substitute(sql, 0, replace), b.out, sql, b.copied, replace);
  }

  lemma TokenTurns(sql: string, copied: nat, open: nat, out: string, driver: Driver, result: string)
    requires copied <= |sql| && open == Find(sql, '@', copied) < |sql| && ScannerAccepts(sql, open)
    requires var replaced := Replacement(sql[open + 1..CloseOf(sql, open)], driver);
             replaced.Ok? && result == out + sql[copied..open] + replaced.value
    ensures Turns(sql, Replacer(driver), Scanned(out, copied), Scanned(result, CloseOf(sql, open) + 1))
  {
    var token := sql[open + 1..CloseOf(sql, open)];
    assert Replacer(driver)(token) == Replacement(token, driver);
  }

  lemma TextTurns(sql: string, replace: Replace, copied: nat, open: nat, out: string)
    requires copied <= |sql| && open == Find(sql, '@', copied) < |sql| && !ScannerAccepts(sql, open)
    ensures Turns(sql, replace, Scanned(out, copied), Scanned(out + sql[copied..open + 1], open + 1))
  {
  }

  /** Copies the text before the placeholder at open, then its spelling. */
  method ReplaceToken(sql: string, copied: nat, open: nat, close: nat, out: string, dialect: Dialect,
                      ghost driver: Driver)
      returns (known: bool, result: string)
    requires copied <= |sql| && open == Find(sql, '@', copied) < |sql|
    requires ScannerAccepts(sql, open) && close == CloseOf(sql, open)
    requires dialect == DialectFor(driver)
    ensures known <==> Replacement(sql[open + 1..close], driver).Ok?
    ensures known ==> result == out + sql[copied..open] + Replacement(sql[open + 1..close], driver).value
    ensures !known ==> Replacement(sql[open + 1..close], driver) == UnknownPlaceholder(sql[open + 1..close])
  {
    var token := sql[open + 1..close];
    ConflictTokenIsClosed(sql, open);
    known, result := AppendSpelling(dialect, token, out + sql[copied..open], driver);
  }

  /** The scanner. `copied` strictly grows, and the result is the regular expression's, down to which unknown
      placeholder is reported. */
  method ResolveDialect(sql: string, driver: Driver) returns (r: Result<string>)
    ensures r == Render(sql, driver)
  {
    var dialect := DialectFor(driver);
    var out := "";
    var copied := 0;
    var open := Find(sql, '@', copied);
    ghost var trace := [Scanned("", 0)];
    while open < |sql|
      invariant copied <= open <= |sql| && open == Find(sql, '@', copied)
      invariant IsTrace(sql, Replacer(driver), trace) && trace[|trace| - 1] == Scanned(out, copied)
      decreases |sql| - copied
    {
      var named, close := FindClose(sql, open);
      if !named || close >= |sql| || sql[close] != '@' {
        TextTurns(sql, Replacer(driver), copied, open, out);
        out := out + sql[copied..open + 1];
        copied := open + 1;
        open := Find(sql, '@', copied);
        TraceGrows(sql, Replacer(driver), trace, Scanned(out, copied));
        trace := trace + [Scanned(out, copied)];
        continue;
      }
      var known, result := ReplaceToken(sql, copied, open, close, out, dialect, driver);
      if !known {
        TraceMeetsUnknown(sql, Replacer(driver), trace, open);
        return UnknownPlaceholder(sql[open + 1..close]);
      }
      TokenTurns(sql, copied, open, out, driver, result);
      out := result;
      copied := close + 1;
      open := Find(sql, '@', copied);
      TraceGrows(sql, Replacer(driver), trace, Scanned(out, copied));
      trace := trace + [Scanned(out, copied)];
    }
    TraceEnds(sql, Replacer(driver), trace);
    return Ok(out + sql[copied..]);
  }

  /** A file without placeholders is left as it is. */
  lemma NoPlaceholderNoChange(sql: string, driver: Driver)
    requires '@' !in sql
    ensures Render(sql, driver) == Ok(sql)
  {
    PlainTextIsCopied(sql, 0, |sql|, Replacer(driver));
    assert sql[0..|sql|] + "" == sql;
  }
}
