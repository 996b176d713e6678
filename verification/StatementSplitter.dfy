/** Splitting a migration file into statements in one pass. */
module StatementSplitter {
  import opened Statements

  /** What is left at position i, which the comment loop may leave one past the end. */
  function Rest(sql: string, i: nat): string {
    if i <= |sql| then sql[i..] else ""
  }

  /** The inner loop over a comment: stops on the newline, or at the end of the text. */
  method SkipComment(sql: string, start: nat) returns (i: nat)
    requires start < |sql|
    ensures AfterLine(Rest(sql, start)) == Rest(sql, i + 1) && start <= i <= |sql|
  {
    i := start;
    while i < |sql| && sql[i] != '\n'
      invariant start <= i <= |sql|
      invariant AfterLine(Rest(sql, i)) == AfterLine(Rest(sql, start))
    {
      assert Rest(sql, i)[1..] == Rest(sql, i + 1);
      i := i + 1;
    }
    assert i < |sql| ==> Rest(sql, i)[1..] == Rest(sql, i + 1);
  }

  /** The code's flush: the collected text becomes a statement unless it is blank. */
  method Flush(statements: seq<string>, current: string) returns (flushed: seq<string>)
    ensures flushed == statements + AsStatement(current)
  {
    var begin := FirstNonBlank(current);
    flushed := statements;
    if begin < |current| {
      assert EndOfNonBlank(current) > begin;
      flushed := flushed + [current[begin..EndOfNonBlank(current)]];
    }
  }

  /** The scanner's variables. */
  datatype Reading = Reading(statements: seq<string>, current: string, i: nat, inLiteral: bool)

  /** What one turn of the loop does to them. */
  ghost predicate Turns(sql: string, b: Reading, a: Reading)
    requires b.i < |sql|
  {
    var c := sql[b.i];
    if !b.inLiteral && StartsComment(Rest(sql, b.i)) then
      AfterLine(Rest(sql, b.i)) == Rest(sql, a.i) && a == b.(current := b.current + "\n", i := a.i)
    else if !b.inLiteral && c == ';' then
      a == Reading(b.statements + AsStatement(b.current), "", b.i + 1, false)
    else
      a == b.(current := b.current + [c], i := b.i + 1, inLiteral := NextInLiteral(b.inLiteral, c))
  }

  /** The variables' values at the head of the loop, turn by turn. */
  ghost predicate IsTrace(sql: string, trace: seq<Reading>) {
    && trace != [] && trace[0] == Reading([], "", 0, false)
    && forall k | 0 <= k < |trace| - 1 :: trace[k].i < |sql| && Turns(sql, trace[k], trace[k + 1])
  }

  lemma TraceGrows(sql: string, trace: seq<Reading>, a: Reading)
    requires IsTrace(sql, trace) && trace[|trace| - 1].i < |sql| && Turns(sql, trace[|trace| - 1], a)
    ensures IsTrace(sql, trace + [a])
  {
    var longer := trace + [a];
    forall k | 0 <= k < |longer| - 1 ensures longer[k].i < |sql| && Turns(sql, longer[k], longer[k + 1]) {
      assert longer[k] == trace[k];
      assert k < |trace| - 1 ==> longer[k + 1] == trace[k + 1];
    }
  }

  method SplitStatements(sql: string) returns (statements: seq<string>)
    ensures statements == Split(sql)
  {
    statements := [];
    var current := "";
    var inLiteral := false;
    var i := 0;
    ghost var trace := [Reading([], "", 0, false)];
    while i < |sql|
      invariant 0 <= i <= |sql| + 1
      invariant IsTrace(sql, trace) && trace[|trace| - 1] == Reading(statements, current, i, inLiteral)
    {
      var c := sql[i];
      if inLiteral {
        inLiteral := c != QUOTE;
        current := current + [c];
      } else if c == '-' && i + 1 < |sql| && sql[i + 1] == '-' {
        i := SkipComment(sql, i);
        current := current + "\n";
      } else if c == ';' {
        statements := Flush(statements, current);
        current := "";
      } else {
        inLiteral := c == QUOTE;
        current := current + [c];
      }
      i := i + 1;
      TraceGrows(sql, trace, Reading(statements, current, i, inLiteral));
      trace := trace + [Reading(statements, current, i, inLiteral)];
    }
    TraceSplits(sql, trace);
    statements := Flush(statements, current);
  }

  /** The statements found so far, completed by the piece being collected, which continues with the rest of the
      text. */
  ghost function Completed(statements: seq<string>, current: string, sql: string, i: nat, inLiteral: bool):
    seq<string>
  {
    statements + NonBlank(ToFirst(current, Pieces(StripComments(Rest(sql, i), inLiteral), inLiteral)))
  }

  ghost predicate Whole(whole: seq<string>, sql: string, r: Reading) {
    whole == Completed(r.statements, r.current, sql, r.i, r.inLiteral)
  }

  lemma StepKeepsWhole(whole: seq<string>, sql: string, b: Reading, a: Reading)
    requires b.i < |sql| && Turns(sql, b, a) && Whole(whole, sql, b)
    ensures Whole(whole, sql, a)
  {
    if !b.inLiteral && StartsComment(Rest(sql, b.i)) {
      CommentTurnKeepsWhole(whole, sql, b, a);
    } else if !b.inLiteral && sql[b.i] == ';' {
      FlushTurnKeepsWhole(whole, sql, b, a);
    } else {
      PlainTurn(sql, b, a);
      PlainTurnKeepsWhole(whole, sql, b);
    }
  }

  lemma CommentTurnKeepsWhole(whole: seq<string>, sql: string, b: Reading, a: Reading)
    requires b.i < |sql| && Turns(sql, b, a) && Whole(whole, sql, b)
    requires !b.inLiteral && StartsComment(Rest(sql, b.i))
    ensures Whole(whole, sql, a)
  {
    CommentSkipped(whole, b.statements, b.current, sql, b.i, a.i);
  }

  lemma FlushTurnKeepsWhole(whole: seq<string>, sql: string, b: Reading, a: Reading)
    requires b.i < |sql| && Turns(sql, b, a) && Whole(whole, sql, b)
    requires !b.inLiteral && !StartsComment(Rest(sql, b.i)) && sql[b.i] == ';'
    ensures Whole(whole, sql, a)
  {
    Flushed(whole, b.statements, b.current, sql, b.i);
  }

  lemma PlainTurn(sql: string, b: Reading, a: Reading)
    requires b.i < |sql| && Turns(sql, b, a)
    requires b.inLiteral || (!StartsComment(Rest(sql, b.i)) && sql[b.i] != ';')
    ensures a == Reading(b.statements, b.current + [sql[b.i]], b.i + 1, NextInLiteral(b.inLiteral, sql[b.i]))
  {
  }

  lemma PlainTurnKeepsWhole(whole: seq<string>, sql: string, b: Reading)
    requires b.i < |sql| && Whole(whole, sql, b)
    requires b.inLiteral || (!StartsComment(Rest(sql, b.i)) && sql[b.i] != ';')
    ensures whole == Completed(b.statements, b.current + [sql[b.i]], sql, b.i + 1, NextInLiteral(b.inLiteral, sql[b.i]))
  {
    Collected(whole, b.statements, b.current, sql, b.i, b.inLiteral);
  }

  lemma {:induction false} TraceKeepsWhole(sql: string, trace: seq<Reading>, n: nat)
    requires IsTrace(sql, trace) && n < |trace|
    ensures Whole(Split(sql), sql, trace[n])
  {
    if n == 0 {
      NothingDone(sql);
    } else {
      TraceKeepsWhole(sql, trace, n - 1);
      assert trace[n - 1].i < |sql| && Turns(sql, trace[n - 1], trace[(n - 1) + 1]);
      StepKeepsWhole(Split(sql), sql, trace[n - 1], trace[n]);
    }
  }

  /** A loop that has run to the end has found every statement but the one being collected. */
  lemma TraceSplits(sql: string, trace: seq<Reading>)
    requires IsTrace(sql, trace) && trace[|trace| - 1].i >= |sql|
    ensures Split(sql) == trace[|trace| - 1].statements + AsStatement(trace[|trace| - 1].current)
  {
    var last := trace[|trace| - 1];
    TraceKeepsWhole(sql, trace, |trace| - 1);
    NothingLeft(Split(sql), last.statements, last.current, sql, last.i, last.inLiteral);
  }

  lemma ToFirstTwice(current: string, prefix: string, pieces: seq<string>)
    requires pieces != []
    ensures ToFirst(current, ToFirst(prefix, pieces)) == ToFirst(current + prefix, pieces)
    ensures ToFirst("", pieces) == pieces
  {
    assert current + (prefix + pieces[0]) == current + prefix + pieces[0];
    assert "" + pieces[0] == pieces[0];
  }

  lemma NothingDone(sql: string)
    ensures Split(sql) == Completed([], "", sql, 0, false)
  {
    assert Rest(sql, 0) == sql;
    ToFirstTwice("", "", Pieces(StripComments(sql, false), false));
  }

  lemma NothingLeft(whole: seq<string>, statements: seq<string>, current: string, sql: string, i: nat, inLiteral: bool)
    requires i >= |sql| && whole == Completed(statements, current, sql, i, inLiteral)
    ensures whole == statements + AsStatement(current)
  {
    assert Rest(sql, i) == "";
    assert current + "" == current;
    assert ToFirst(current, [""]) == [current];
    OnePiece(current);
  }

  lemma Collected(whole: seq<string>, statements: seq<string>, current: string, sql: string, i: nat, inLiteral: bool)
    requires i < |sql| && (inLiteral || (!StartsComment(Rest(sql, i)) && sql[i] != ';'))
    requires whole == Completed(statements, current, sql, i, inLiteral)
    ensures whole == Completed(statements, current + [sql[i]], sql, i + 1, NextInLiteral(inLiteral, sql[i]))
  {
    var next := NextInLiteral(inLiteral, sql[i]);
    assert Rest(sql, i)[1..] == Rest(sql, i + 1);
    var stripped := StripComments(Rest(sql, i + 1), next);
    assert ([sql[i]] + stripped)[1..] == stripped;
    ToFirstTwice(current, [sql[i]], Pieces(stripped, next));
  }

  lemma CommentSkipped(whole: seq<string>, statements: seq<string>, current: string, sql: string, i: nat, next: nat)
    requires StartsComment(Rest(sql, i)) && AfterLine(Rest(sql, i)) == Rest(sql, next)
    requires whole == Completed(statements, current, sql, i, false)
    ensures whole == Completed(statements, current + "\n", sql, next, false)
  {
    var stripped := StripComments(Rest(sql, next), false);
    assert ("\n" + stripped)[1..] == stripped;
    ToFirstTwice(current, "\n", Pieces(stripped, false));
  }

  lemma Flushed(whole: seq<string>, statements: seq<string>, current: string, sql: string, i: nat)
    requires i < |sql| && sql[i] == ';' && whole == Completed(statements, current, sql, i, false)
    ensures whole == Completed(statements + AsStatement(current), "", sql, i + 1, false)
  {
    assert Rest(sql, i)[1..] == Rest(sql, i + 1);
    var stripped := StripComments(Rest(sql, i + 1), false);
    assert ([';'] + stripped)[1..] == stripped;
    var pieces := Pieces(stripped, false);
    CurrentIsComplete(current, pieces);
    ToFirstTwice("", "", pieces);
    Regroup(statements, AsStatement(current), NonBlank(pieces));
  }

  lemma Regroup(a: seq<string>, b: seq<string>, c: seq<string>)
    ensures a + (b + c) == a + b + c
  {
  }

  lemma CurrentIsComplete(current: string, pieces: seq<string>)
    ensures NonBlank(ToFirst(current, [""] + pieces)) == AsStatement(current) + NonBlank(pieces)
  {
    assert current + "" == current;
    assert ToFirst(current, [""] + pieces) == [current] + pieces;
    assert ([current] + pieces)[1..] == pieces;
  }
}
