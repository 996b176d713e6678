/** What the statements of a migration file are. This reads the file twice: once to take comments out, once to
    cut at separators. */
module Statements {

  const QUOTE := '\''

  predicate IsBlank(c: char) {
    c == ' ' || c == '\t' || c == '\r' || c == '\n'
  }

  predicate StartsComment(text: string) {
    |text| >= 2 && text[0] == '-' && text[1] == '-'
  }

  /** The text after its first line. */
  function AfterLine(text: string): (rest: string)
    ensures text != "" ==> |rest| < |text|
  {
    if text == "" then "" else if text[0] == '\n' then text[1..] else AfterLine(text[1..])
  }

  /** Whether the scan is inside a literal after c; a doubled quote closes and reopens it. */
  function NextInLiteral(inLiteral: bool, c: char): bool {
    if inLiteral then c != QUOTE else c == QUOTE
  }

  // ---- The reference ----

  function StripComments(text: string, inLiteral: bool): string
    decreases |text|
  {
    if text == "" then ""
    else if !inLiteral && StartsComment(text) then "\n" + StripComments(AfterLine(text), false)
    else [text[0]] + StripComments(text[1..], NextInLiteral(inLiteral, text[0]))
  }

  /** The stretches between separators outside literals; n separators make n + 1 of them. */
  function Pieces(text: string, inLiteral: bool): (pieces: seq<string>)
    ensures pieces != []
  {
    if text == "" then [""]
    else if !inLiteral && text[0] == ';' then [""] + Pieces(text[1..], false)
    else ToFirst([text[0]], Pieces(text[1..], NextInLiteral(inLiteral, text[0])))
  }

  function ToFirst(prefix: string, pieces: seq<string>): seq<string>
    requires pieces != []
  {
    [prefix + pieces[0]] + pieces[1..]
  }

  function NonBlankFrom(s: string, from: nat): (i: nat)
    requires from <= |s|
    ensures from <= i <= |s| && (i < |s| ==> !IsBlank(s[i])) && forall k | from <= k < i :: IsBlank(s[k])
    decreases |s| - from
  {
    if from == |s| || !IsBlank(s[from]) then from else NonBlankFrom(s, from + 1)
  }

  function FirstNonBlank(s: string): (i: nat)
    ensures i <= |s| && (i < |s| ==> !IsBlank(s[i])) && forall k | 0 <= k < i :: IsBlank(s[k])
  {
    NonBlankFrom(s, 0)
  }

  /** One past the last non-blank character; 0 when there is none. */
  function EndOfNonBlank(s: string): (i: nat)
    ensures i <= |s| && (i > 0 ==> !IsBlank(s[i - 1])) && forall k | i <= k < |s| :: IsBlank(s[k])
  {
    if s == "" then 0 else if !IsBlank(s[|s| - 1]) then |s| else EndOfNonBlank(s[..|s| - 1])
  }

  function Trim(s: string): string {
    if FirstNonBlank(s) < EndOfNonBlank(s) then s[FirstNonBlank(s)..EndOfNonBlank(s)] else ""
  }

  function NonBlank(pieces: seq<string>): seq<string> {
    if pieces == [] then [] else AsStatement(pieces[0]) + NonBlank(pieces[1..])
  }

  function AsStatement(piece: string): seq<string> {
    if Trim(piece) == "" then [] else [Trim(piece)]
  }

  function Split(sql: string): seq<string> {
    NonBlank(Pieces(StripComments(sql, false), false))
  }

  lemma OnePiece(piece: string)
    ensures NonBlank([piece]) == AsStatement(piece)
  {
    assert [piece][1..] == [];
  }
}
