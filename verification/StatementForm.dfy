/** Which lists of statements a split produces, and that splitting their join gives them back. */
module StatementForm {
  import opened Statements

  /** No separator and no comment outside a literal. */
  predicate Plain(t: string, inLiteral: bool) {
    t != "" ==>
      && (!inLiteral ==> t[0] != ';' && !StartsComment(t))
      && Plain(t[1..], NextInLiteral(inLiteral, t[0]))
  }

  predicate NoComment(t: string, inLiteral: bool) {
    t != "" ==>
      && (!inLiteral ==> !StartsComment(t))
      && NoComment(t[1..], NextInLiteral(inLiteral, t[0]))
  }

  predicate LiteralAfter(t: string, inLiteral: bool) {
    if t == "" then inLiteral else LiteralAfter(t[1..], NextInLiteral(inLiteral, t[0]))
  }

  /** A statement is trimmed, not empty, and plain. */
  predicate IsStatement(t: string) {
    t != "" && !IsBlank(t[0]) && !IsBlank(t[|t| - 1]) && Plain(t, false)
  }

  /** Only the last statement may leave a literal open. */
  predicate IsSplit(statements: seq<string>) {
    && (forall i | 0 <= i < |statements| :: IsStatement(statements[i]))
    && (forall i | 0 <= i < |statements| - 1 :: !LiteralAfter(statements[i], false))
  }

  function Join(statements: seq<string>): string {
    if statements == [] then ""
    else if |statements| == 1 then statements[0]
    else statements[0] + ";" + Join(statements[1..])
  }

  // ---- Comments ----

  lemma {:induction false} StrippedHasNoComment(t: string, inLiteral: bool)
    ensures NoComment(StripComments(t, inLiteral), inLiteral)
    decreases |t|
  {
    var stripped := StripComments(t, inLiteral);
    if t == "" {
    } else if !inLiteral && StartsComment(t) {
      StrippedHasNoComment(AfterLine(t), false);
      assert stripped[1..] == StripComments(AfterLine(t), false);
    } else {
      var next := NextInLiteral(inLiteral, t[0]);
      StrippedHasNoComment(t[1..], next);
      assert stripped[1..] == StripComments(t[1..], next);
    }
  }

  lemma {:induction false} NothingToStrip(t: string, inLiteral: bool)
    requires NoComment(t, inLiteral)
    ensures StripComments(t, inLiteral) == t
    decreases |t|
  {
    if t != "" {
      NothingToStrip(t[1..], NextInLiteral(inLiteral, t[0]));
    }
  }

  // ---- Pieces ----

  /** Cutting a text without comments leaves plain pieces, and every piece but the last ends outside a literal. */
  ghost predicate PlainPieces(pieces: seq<string>, inLiteral: bool) {
    && pieces != []
    && Plain(pieces[0], inLiteral)
    && (forall i | 0 < i < |pieces| :: Plain(pieces[i], false))
    && (|pieces| > 1 ==> !LiteralAfter(pieces[0], inLiteral))
    && (forall i | 0 < i < |pieces| - 1 :: !LiteralAfter(pieces[i], false))
  }

  lemma {:induction false} PiecesArePlain(t: string, inLiteral: bool)
    requires NoComment(t, inLiteral)
    ensures PlainPieces(Pieces(t, inLiteral), inLiteral)
    decreases |t|
  {
    if t == "" {
    } else if !inLiteral && t[0] == ';' {
      PiecesArePlain(t[1..], false);
    } else {
      var next := NextInLiteral(inLiteral, t[0]);
      PiecesArePlain(t[1..], next);
      var rest := Pieces(t[1..], next);
      var first := [t[0]] + rest[0];
      assert first[1..] == rest[0];
    }
  }

  // ---- Trimming ----

  lemma {:induction false} PlainPrefix(t: string, k: nat, inLiteral: bool)
    requires Plain(t, inLiteral) && k <= |t|
    ensures Plain(t[..k], inLiteral)
    decreases |t|
  {
    if k > 0 {
      PlainPrefix(t[1..], k - 1, NextInLiteral(inLiteral, t[0]));
      assert t[..k][1..] == t[1..][..k - 1];
    }
  }

  lemma {:induction false} DropLeadingBlanks(t: string, k: nat)
    requires k <= |t| && forall i | 0 <= i < k :: IsBlank(t[i])
    ensures Plain(t, false) ==> Plain(t[k..], false)
    ensures LiteralAfter(t[k..], false) == LiteralAfter(t, false)
    decreases k
  {
    if k > 0 {
      DropLeadingBlanks(t[1..], k - 1);
      assert t[1..][k - 1..] == t[k..];
    } else {
      assert t[0..] == t;
    }
  }

  lemma {:induction false} DropTrailingBlanks(t: string, k: nat, inLiteral: bool)
    requires k <= |t| && forall i | k <= i < |t| :: IsBlank(t[i])
    ensures LiteralAfter(t[..k], inLiteral) == LiteralAfter(t, inLiteral)
    decreases |t|
  {
    if t != "" {
      var next := NextInLiteral(inLiteral, t[0]);
      if k == 0 {
        DropTrailingBlanks(t[1..], 0, next);
      } else {
        DropTrailingBlanks(t[1..], k - 1, next);
        assert t[..k][1..] == t[1..][..k - 1];
      }
    }
  }

  lemma {:induction false} TrimmedPiece(p: string)
    requires Plain(p, false)
    ensures Trim(p) != "" ==> IsStatement(Trim(p)) && LiteralAfter(Trim(p), false) == LiteralAfter(p, false)
  {
    var a, b := FirstNonBlank(p), EndOfNonBlank(p);
    if a < b {
      DropLeadingBlanks(p, a);
      PlainPrefix(p[a..], b - a, false);
      DropTrailingBlanks(p[a..], b - a, false);
      assert p[a..][..b - a] == p[a..b];
    }
  }

  lemma StatementIsTrimmed(t: string)
    requires t != "" && !IsBlank(t[0]) && !IsBlank(t[|t| - 1])
    ensures Trim(t) == t
  {
    assert t[0..|t|] == t;
  }

  lemma {:induction false} PiecesGiveStatements(pieces: seq<string>)
    requires PlainPieces(pieces, false)
    ensures IsSplit(NonBlank(pieces))
  {
    TrimmedPiece(pieces[0]);
    if |pieces| > 1 {
      PiecesGiveStatements(pieces[1..]);
      PrependStatement(pieces[0], NonBlank(pieces[1..]));
    } else {
      assert pieces[1..] == [];
    }
  }

  lemma PrependStatement(piece: string, rest: seq<string>)
    requires IsSplit(rest) && Plain(piece, false) && !LiteralAfter(piece, false)
    ensures IsSplit(AsStatement(piece) + rest)
  {
    TrimmedPiece(piece);
    var all := AsStatement(piece) + rest;
    var skip := |AsStatement(piece)|;
    forall i | 0 <= i < |all|
      ensures IsStatement(all[i]) && (i < |all| - 1 ==> !LiteralAfter(all[i], false))
    {
      if i >= skip {
        assert all[i] == rest[i - skip];
      }
    }
  }

  // ---- Joining ----

  lemma {:induction false} JoinedParts(a: string, b: string, inLiteral: bool)
    requires Plain(a, inLiteral) && !LiteralAfter(a, inLiteral) && NoComment(b, false)
    ensures NoComment(a + ";" + b, inLiteral)
    ensures Pieces(a + ";" + b, inLiteral) == [a] + Pieces(b, false)
    decreases |a|
  {
    var joined := a + ";" + b;
    if a == "" {
      assert joined == ";" + b && joined[1..] == b;
    } else {
      var next := NextInLiteral(inLiteral, a[0]);
      JoinedParts(a[1..], b, next);
      assert joined[1..] == a[1..] + ";" + b;
      assert [a[0]] + a[1..] == a;
      assert ([a[1..]] + Pieces(b, false))[1..] == Pieces(b, false);
    }
  }

  lemma {:induction false} PlainIsOnePiece(a: string, inLiteral: bool)
    requires Plain(a, inLiteral)
    ensures NoComment(a, inLiteral) && Pieces(a, inLiteral) == [a]
    decreases |a|
  {
    if a != "" {
      PlainIsOnePiece(a[1..], NextInLiteral(inLiteral, a[0]));
      assert [a[0]] + a[1..] == a;
      assert [a[1..]][1..] == [];
    }
  }

  lemma FirstIsKept(statement: string, pieces: seq<string>)
    requires IsStatement(statement)
    ensures NonBlank([statement] + pieces) == [statement] + NonBlank(pieces)
  {
    StatementIsTrimmed(statement);
    assert ([statement] + pieces)[1..] == pieces;
  }

  lemma {:induction false} JoinedStatements(statements: seq<string>)
    requires IsSplit(statements)
    ensures NoComment(Join(statements), false)
    ensures NonBlank(Pieces(Join(statements), false)) == statements
  {
    if statements == [] {
      OnePiece("");
    } else if |statements| == 1 {
      PlainIsOnePiece(statements[0], false);
      StatementIsTrimmed(statements[0]);
      OnePiece(statements[0]);
    } else {
      var rest := statements[1..];
      assert forall i | 0 <= i < |rest| :: rest[i] == statements[i + 1];
      JoinedStatements(rest);
      JoinedParts(statements[0], Join(rest), false);
      FirstIsKept(statements[0], Pieces(Join(rest), false));
      assert [statements[0]] + rest == statements;
    }
  }

  // ---- Main results ----

  lemma {:induction false} SplitGivesStatements(sql: string)
    ensures IsSplit(Split(sql))
  {
    StrippedHasNoComment(sql, false);
    PiecesArePlain(StripComments(sql, false), false);
    PiecesGiveStatements(Pieces(StripComments(sql, false), false));
  }

  /** Splitting is a normal form: the statements, joined by separators, split into themselves. */
  lemma {:induction false} SplitIsNormalForm(sql: string)
    ensures Split(Join(Split(sql))) == Split(sql)
  {
    SplitGivesStatements(sql);
    JoinedStatements(Split(sql));
    NothingToStrip(Join(Split(sql)), false);
  }

  /** A list of strings is what some file splits into if and only if each is a statement and only the last
      leaves a literal open. */
  lemma WhatSplittingProduces(statements: seq<string>)
    ensures (exists sql: string :: Split(sql) == statements) <==> IsSplit(statements)
  {
    if IsSplit(statements) {
      JoinedStatements(statements);
      NothingToStrip(Join(statements), false);
      assert Split(Join(statements)) == statements;
    }
    if sql: string :| Split(sql) == statements {
      SplitGivesStatements(sql);
    }
  }

  // ---- Plain, by counting quotes ----

  function Quotes(t: string): nat {
    if t == "" then 0 else (if t[0] == '\'' then 1 else 0) + Quotes(t[1..])
  }

  predicate OutsideLiteral(t: string, k: nat)
    requires k <= |t|
  {
    Quotes(t[..k]) % 2 == 0
  }

  lemma {:induction false} QuotesShift(t: string, k: nat)
    requires 0 < k <= |t|
    ensures Quotes(t[..k]) == (if t[0] == QUOTE then 1 else 0) + Quotes(t[1..][..k - 1])
  {
    assert t[..k][1..] == t[1..][..k - 1];
  }

  lemma {:induction false} PlainCountsQuotes(t: string, inLiteral: bool)
    ensures Plain(t, inLiteral) <==>
              forall k: nat | k < |t| && (Quotes(t[..k]) % 2 == if inLiteral then 1 else 0) ::
                t[k] != ';' && !StartsComment(t[k..])
    decreases |t|
  {
    if t != "" {
      var next := NextInLiteral(inLiteral, t[0]);
      PlainCountsQuotes(t[1..], next);
      forall k: nat | 0 < k < |t|
        ensures t[k..] == t[1..][k - 1..] && t[k] == t[1..][k - 1]
        ensures (Quotes(t[..k]) % 2 == if inLiteral then 1 else 0)
           <==> (Quotes(t[1..][..k - 1]) % 2 == if next then 1 else 0)
      {
        QuotesShift(t, k);
      }
      assert t[..0] == "" && t[0..] == t;
      if Plain(t, inLiteral) {
        forall k: nat | k < |t| && (Quotes(t[..k]) % 2 == if inLiteral then 1 else 0)
          ensures t[k] != ';' && !StartsComment(t[k..])
        {
        }
      } else if Plain(t[1..], next) {
        assert Quotes(t[..0]) % 2 == if inLiteral then 1 else 0;
      } else {
        var k: nat :| k < |t[1..]| && (Quotes(t[1..][..k]) % 2 == if next then 1 else 0)
                      && (t[1..][k] == ';' || StartsComment(t[1..][k..]));
        assert t[1..][k] == t[k + 1] && t[1..][k..] == t[k + 1..];
      }
    }
  }

  /** Every statement is non-empty and trimmed, and holds no `;` and no `--` outside a literal. */
  lemma {:induction false} StatementsAreClean(sql: string, i: nat, k: nat)
    requires i < |Split(sql)| && k < |Split(sql)[i]|
    ensures var t := Split(sql)[i];
            && !IsBlank(t[0]) && !IsBlank(t[|t| - 1])
            && (OutsideLiteral(t, k) ==> t[k] != ';' && !(t[k] == '-' && k + 1 < |t| && t[k + 1] == '-'))
  {
    SplitGivesStatements(sql);
    PlainCountsQuotes(Split(sql)[i], false);
  }

  // ---- What is kept of the text ----

  function Squeezed(s: string): string {
    if s == "" then "" else (if IsBlank(s[0]) then "" else [s[0]]) + Squeezed(s[1..])
  }

  function Concat(parts: seq<string>): string {
    if parts == [] then "" else parts[0] + Concat(parts[1..])
  }

  /** The file's own text, less comments, separators outside literals, and blanks. */
  function KeptText(t: string, inLiteral: bool): string
    decreases |t|
  {
    if t == "" then ""
    else if !inLiteral && StartsComment(t) then KeptText(AfterLine(t), false)
    else if !inLiteral && t[0] == ';' then KeptText(t[1..], false)
    else (if IsBlank(t[0]) then "" else [t[0]]) + KeptText(t[1..], NextInLiteral(inLiteral, t[0]))
  }

  lemma {:induction false} SqueezedJoins(a: string, b: string)
    ensures Squeezed(a + b) == Squeezed(a) + Squeezed(b)
  {
    if a == "" {
      assert a + b == b;
    } else {
      assert (a + b)[1..] == a[1..] + b;
      SqueezedJoins(a[1..], b);
    }
  }

  lemma {:induction false} BlanksSqueezeAway(s: string)
    requires forall k | 0 <= k < |s| :: IsBlank(s[k])
    ensures Squeezed(s) == ""
  {
    if s != "" {
      BlanksSqueezeAway(s[1..]);
    }
  }

  lemma TrimKeepsText(s: string)
    ensures Squeezed(Trim(s)) == Squeezed(s)
  {
    var i, j := FirstNonBlank(s), EndOfNonBlank(s);
    if i < j {
      assert s == s[..i] + (s[i..j] + s[j..]);
      MiddleKeepsText(s[..i], s[i..j], s[j..]);
    } else {
      BlanksSqueezeAway(s);
    }
  }

  lemma MiddleKeepsText(before: string, middle: string, after: string)
    requires forall k | 0 <= k < |before| :: IsBlank(before[k])
    requires forall k | 0 <= k < |after| :: IsBlank(after[k])
    ensures Squeezed(before + (middle + after)) == Squeezed(middle)
  {
    SqueezedJoins(before, middle + after);
    SqueezedJoins(middle, after);
    BlanksSqueezeAway(before);
    BlanksSqueezeAway(after);
  }

  lemma {:induction false} StatementsKeepText(pieces: seq<string>)
    ensures Squeezed(Concat(NonBlank(pieces))) == Squeezed(Concat(pieces))
  {
    if pieces != [] {
      var piece, rest := pieces[0], pieces[1..];
      StatementsKeepText(rest);
      TrimKeepsText(piece);
      SqueezedJoins(piece, Concat(rest));
      SqueezedJoins(Trim(piece), Concat(NonBlank(rest)));
      if Trim(piece) == "" {
        assert AsStatement(piece) + NonBlank(rest) == NonBlank(rest);
      } else {
        assert ([Trim(piece)] + NonBlank(rest))[1..] == NonBlank(rest);
      }
    }
  }

  lemma ConcatOfFirst(prefix: string, pieces: seq<string>)
    requires pieces != []
    ensures Concat(ToFirst(prefix, pieces)) == prefix + Concat(pieces)
  {
    assert prefix + pieces[0] + Concat(pieces[1..]) == prefix + (pieces[0] + Concat(pieces[1..]));
  }

  /** Cutting one character, then the rest. */
  lemma {:induction false} PiecesKeepOne(c: char, rest: string, inLiteral: bool)
    requires inLiteral || c != ';'
    ensures Squeezed(Concat(Pieces([c] + rest, inLiteral)))
         == (if IsBlank(c) then "" else [c]) + Squeezed(Concat(Pieces(rest, NextInLiteral(inLiteral, c))))
  {
    var pieces := Pieces(rest, NextInLiteral(inLiteral, c));
    assert ([c] + rest)[1..] == rest;
    ConcatOfFirst([c], pieces);
    SqueezedJoins([c], Concat(pieces));
    assert Squeezed([c]) == if IsBlank(c) then "" else [c] by {
      assert [c][1..] == "";
    }
  }

  lemma {:induction false} PiecesKeepText(t: string, inLiteral: bool)
    ensures Squeezed(Concat(Pieces(StripComments(t, inLiteral), inLiteral))) == KeptText(t, inLiteral)
    decreases |t|
  {
    if t == "" {
      assert Concat([""]) == "";
    } else if !inLiteral && StartsComment(t) {
      PiecesKeepText(AfterLine(t), false);
      PiecesKeepOne('\n', StripComments(AfterLine(t), false), false);
    } else {
      var next := NextInLiteral(inLiteral, t[0]);
      var rest := StripComments(t[1..], next);
      PiecesKeepText(t[1..], next);
      if !inLiteral && t[0] == ';' {
        assert ([t[0]] + rest)[1..] == rest;
        assert ([""] + Pieces(rest, false))[1..] == Pieces(rest, false);
        assert "" + Concat(Pieces(rest, false)) == Concat(Pieces(rest, false));
      } else {
        PiecesKeepOne(t[0], rest, inLiteral);
      }
    }
  }

  /** Nothing is lost, repeated or reordered: blanks apart, the statements together are the file without its
      comments and separators. */
  lemma {:induction false} SplittingKeepsEverythingElse(sql: string)
    ensures Squeezed(Concat(Split(sql))) == KeptText(sql, false)
  {
    StatementsKeepText(Pieces(StripComments(sql, false), false));
    PiecesKeepText(sql, false);
  }

  // ---- Blanks and comments ----

  predicate AllBlanks(s: string) {
    forall i | 0 <= i < |s| :: s[i] == ' ' || s[i] == '\t' || s[i] == '\r' || s[i] == '\n'
  }

  /** Trimming takes spaces, tabs and line ends off both sides, and nothing else. */
  lemma TrimTakesBlanksOff(before: string, t: string, after: string)
    requires AllBlanks(before) && AllBlanks(after)
    requires t == "" || (!AllBlanks(t[..1]) && !AllBlanks(t[|t| - 1..]))
    ensures Trim(before + (t + after)) == t
  {
    var s := before + (t + after);
    if t == "" {
      assert forall i | 0 <= i < |s| :: IsBlank(s[i]);
    } else {
      assert t[..1][0] == t[0] && t[|t| - 1..][0] == t[|t| - 1];
      var last := |before| + |t| - 1;
      assert s[|before|] == t[0] && !IsBlank(s[|before|]);
      assert s[last] == t[|t| - 1] && !IsBlank(s[last]);
      assert forall i | 0 <= i < |before| :: s[i] == before[i];
      assert forall i | last < i < |s| :: s[i] == after[i - last - 1];
      assert FirstNonBlank(s) == |before| && EndOfNonBlank(s) == last + 1;
      assert s[|before|..last + 1] == t;
    }
  }

  lemma StripsOne(c: char, rest: string, inLiteral: bool)
    requires inLiteral || c != '-' || rest == "" || rest[0] != '-'
    ensures StripComments([c] + rest, inLiteral) == [c] + StripComments(rest, NextInLiteral(inLiteral, c))
  {
    assert ([c] + rest)[1..] == rest;
  }

  lemma {:induction false} StripsTheRest(text: string, rest: string, inLiteral: bool)
    requires NoComment(text, inLiteral)
    requires text == "" || text[|text| - 1] != '-' || rest == "" || rest[0] != '-'
    ensures StripComments(text + rest, inLiteral) == text + StripComments(rest, LiteralAfter(text, inLiteral))
    decreases |text|
  {
    if text == "" {
      assert text + rest == rest;
    } else {
      var c, tail := text[0], text[1..];
      StripsTheRest(tail, rest, NextInLiteral(inLiteral, c));
      StripsOne(c, tail + rest, inLiteral);
      Regroup(c, tail, rest, text);
      Regroup(c, tail, StripComments(rest, LiteralAfter(text, inLiteral)), text);
    }
  }

  lemma Regroup(c: char, tail: string, rest: string, text: string)
    requires text == [c] + tail
    ensures [c] + (tail + rest) == text + rest
  {
  }

  lemma {:induction false} LineEnds(comment: string, rest: string)
    requires '\n' !in comment
    ensures AfterLine(comment + ("\n" + rest)) == rest && AfterLine(comment) == ""
  {
    if comment == "" {
      assert comment + ("\n" + rest) == "\n" + rest;
    } else {
      assert (comment + ("\n" + rest))[1..] == comment[1..] + ("\n" + rest);
      LineEnds(comment[1..], rest);
    }
  }

  /** The first comment of a file, outside any literal, reads as the end of its line, whatever is in it: quotes,
      separators and further dashes. */
  lemma CommentIsALineEnd(text: string, comment: string, rest: string)
    requires NoComment(text, false) && !LiteralAfter(text, false) && (text == "" || text[|text| - 1] != '-')
    requires '\n' !in comment
    ensures Split(text + ("--" + (comment + ("\n" + rest)))) == Split(text + ("\n" + rest))
    ensures Split(text + ("--" + comment)) == Split(text + "\n")
  {
    var tail := comment + ("\n" + rest);
    LineEnds(comment, rest);
    LineEnds("--", "");
    StripsTheRest(text, "--" + tail, false);
    StripsTheRest(text, "--" + comment, false);
    StripsTheRest(text, "\n" + rest, false);
    StripsTheRest(text, "\n", false);
    CommentStrips(tail);
    CommentStrips(comment);
    assert ("\n" + rest)[1..] == rest && "\n"[1..] == "";
  }

  lemma CommentStrips(tail: string)
    ensures StripComments("--" + tail, false) == "\n" + StripComments(AfterLine(tail), false)
  {
    var all := "--" + tail;
    assert all[1..] == "-" + tail && all[1..][1..] == tail;
    assert AfterLine(all) == AfterLine(all[1..]) == AfterLine(tail);
  }
}
