/** The command-line renderer's side of migration placeholders: a regular expression, given its textbook
    meaning, and a leftmost substitution. */
module Placeholders {

  datatype Driver = Postgres | MariaDb | Sqlite

  datatype Result<+T> = Ok(value: T) | UnknownPlaceholder(token: string)

  // ---- Regular expressions ----

  datatype CharClass = Only(c: char) | NameChar | NotParenNorAt

  datatype Regex =
    | One(cls: CharClass)
    | Cat(first: Regex, second: Regex)
    | Opt(inner: Regex)
    | Star(inner: Regex)

  predicate IsNameChar(c: char) {
    'A' <= c <= 'Z' || c == '_'
  }

  predicate InClass(c: char, cls: CharClass) {
    match cls
    case Only(d) => c == d
    case NameChar => IsNameChar(c)
    case NotParenNorAt => c != ')' && c != '@'
  }

  /** Whether r matches the whole of w. */
  ghost predicate Matches(r: Regex, w: string)
    decreases r, |w|
  {
    match r
    case One(cls) => |w| == 1 && InClass(w[0], cls)
    case Cat(a, b) => exists k | 0 <= k <= |w| :: Matches(a, w[..k]) && Matches(b, w[k..])
    case Opt(a) => w == [] || Matches(a, w)
    case Star(a) => w == [] || exists k | 0 < k <= |w| :: Matches(a, w[..k]) && Matches(r, w[k..])
  }

  const NAMES := Cat(One(NameChar), Star(One(NameChar)))
  const ARGUMENTS := Cat(One(Only('(')), Cat(Star(One(NotParenNorAt)), One(Only(')'))))
  const GROUP := Cat(NAMES, Opt(ARGUMENTS))

  /** `@([A-Z_]+(?:\([^)@]*\))?)@` */
  const PLACEHOLDER := Cat(One(Only('@')), Cat(GROUP, One(Only('@'))))

  // ---- The renderer ----

  const CONFLICT_PREFIX := "ON_CONFLICT("

  function Dialects(driver: Driver): map<string, string> {
    match driver
    case Postgres => map[
      "ID" := "BIGSERIAL PRIMARY KEY",
      "NOW" := "EXTRACT(EPOCH FROM NOW())::BIGINT",
      "TRUE" := "TRUE",
      "FALSE" := "FALSE",
      "INSERT_IF_ABSENT" := "INSERT INTO"]
    case MariaDb => map[
      "ID" := "BIGINT AUTO_INCREMENT PRIMARY KEY",
      "NOW" := "(UNIX_TIMESTAMP())",
      "TRUE" := "TRUE",
      "FALSE" := "FALSE",
      "INSERT_IF_ABSENT" := "INSERT IGNORE INTO"]
    case Sqlite => map[
      "ID" := "INTEGER PRIMARY KEY AUTOINCREMENT",
      "NOW" := "(strftime('%s','now'))",
      "TRUE" := "1",
      "FALSE" := "0",
      "INSERT_IF_ABSENT" := "INSERT OR IGNORE INTO"]
  }

  function RemoveParen(s: string): string {
    if s != [] && s[|s| - 1] == ')' then s[..|s| - 1] else s
  }

  function Replacement(token: string, driver: Driver): Result<string> {
    if CONFLICT_PREFIX <= token then
      var columns := RemoveParen(token[|CONFLICT_PREFIX|..]);
      Ok(if driver == Postgres then "ON CONFLICT (" + columns + ") DO NOTHING" else "")
    else if token !in Dialects(driver) then UnknownPlaceholder(token)
    else Ok(Dialects(driver)[token])
  }

  /** The regular expression's group: a match without its two `@`. */
  function Inner(w: string): string {
    if |w| >= 2 then w[1..|w| - 1] else w
  }

  ghost predicate MatchAt(sql: string, i: nat, j: nat) {
    i < j <= |sql| && Matches(PLACEHOLDER, sql[i..j])
  }

  ghost function MatchEnd(sql: string, i: nat): (j: nat)
    requires exists j: nat :: MatchAt(sql, i, j)
    ensures MatchAt(sql, i, j)
  {
    var j: nat :| MatchAt(sql, i, j);
    j
  }

  function Prepend(text: string, rest: Result<string>): Result<string> {
    if rest.Ok? then Ok(text + rest.value) else rest
  }

  /** Leftmost, non-overlapping substitution from position i on; the first placeholder replace fails on fails it. */
  ghost function Substitute(sql: string, i: nat, replace: string -> Result<string>): Result<string>
    requires i <= |sql|
    decreases |sql| - i
  {
    if i == |sql| then Ok("")
    else if exists j: nat :: MatchAt(sql, i, j) then
      var j := MatchEnd(sql, i);
      var replaced := replace(Inner(sql[i..j]));
      if replaced.Ok? then Prepend(replaced.value, Substitute(sql, j, replace)) else replaced
    else Prepend([sql[i]], Substitute(sql, i + 1, replace))
  }

  function Replacer(driver: Driver): string -> Result<string> {
    token => Replacement(token, driver)
  }

  /** What the command line prints for sql. */
  ghost function Render(sql: string, driver: Driver): Result<string> {
    Substitute(sql, 0, Replacer(driver))
  }

  // ---- What the expression matches ----

  predicate AllIn(w: string, cls: CharClass) {
    forall i | 0 <= i < |w| :: InClass(w[i], cls)
  }

  /** A name, then possibly arguments in parentheses. */
  ghost predicate TokenShape(t: string, n: nat) {
    && 1 <= n <= |t|
    && AllIn(t[..n], NameChar)
    && (n == |t| || (n + 2 <= |t| && t[n] == '(' && t[|t| - 1] == ')' && AllIn(t[n + 1..|t| - 1], NotParenNorAt)))
  }

  lemma {:induction false} StarMatches(cls: CharClass, w: string)
    ensures Matches(Star(One(cls)), w) <==> AllIn(w, cls)
    decreases |w|
  {
    if w != [] {
      StarMatches(cls, w[1..]);
      assert Matches(One(cls), w[..1]) <==> InClass(w[0], cls);
      forall k | 0 < k <= |w| && Matches(One(cls), w[..k]) ensures k == 1 {
      }
      assert AllIn(w, cls) <==> InClass(w[0], cls) && AllIn(w[1..], cls) by {
        if InClass(w[0], cls) && AllIn(w[1..], cls) {
          forall i | 0 <= i < |w| ensures InClass(w[i], cls) {
            if i > 0 {
              assert w[i] == w[1..][i - 1];
            }
          }
        }
      }
    }
  }

  lemma NamesMatch(w: string)
    ensures Matches(NAMES, w) <==> w != [] && AllIn(w, NameChar)
  {
    if Matches(NAMES, w) {
      var k :| 0 <= k <= |w| && Matches(One(NameChar), w[..k]) && Matches(Star(One(NameChar)), w[k..]);
      StarMatches(NameChar, w[k..]);
      assert w == w[..k] + w[k..];
    }
    if w != [] && AllIn(w, NameChar) {
      StarMatches(NameChar, w[1..]);
      assert Matches(One(NameChar), w[..1]);
    }
  }

  ghost predicate ArgumentShape(w: string) {
    |w| >= 2 && w[0] == '(' && w[|w| - 1] == ')' && AllIn(w[1..|w| - 1], NotParenNorAt)
  }

  lemma ArgumentsMatch(w: string)
    ensures Matches(ARGUMENTS, w) <==> ArgumentShape(w)
  {
    var tail := Cat(Star(One(NotParenNorAt)), One(Only(')')));
    if Matches(ARGUMENTS, w) {
      var k :| 0 <= k <= |w| && Matches(One(Only('(')), w[..k]) && Matches(tail, w[k..]);
      var v := w[k..];
      var l :| 0 <= l <= |v| && Matches(Star(One(NotParenNorAt)), v[..l]) && Matches(One(Only(')')), v[l..]);
      StarMatches(NotParenNorAt, v[..l]);
      assert w[1..|w| - 1] == v[..l];
      assert w[|w| - 1] == v[l..][0];
    }
    if ArgumentShape(w) {
      var v := w[1..];
      assert v[..|v| - 1] == w[1..|w| - 1];
      StarMatches(NotParenNorAt, v[..|v| - 1]);
      assert Matches(One(Only(')')), v[|v| - 1..]);
      assert Matches(tail, v);
      assert Matches(One(Only('(')), w[..1]);
    }
  }

  lemma GroupMatches(t: string)
    ensures Matches(GROUP, t) <==> exists n: nat :: TokenShape(t, n)
  {
    if Matches(GROUP, t) {
      var n :| 0 <= n <= |t| && Matches(NAMES, t[..n]) && Matches(Opt(ARGUMENTS), t[n..]);
      NamesMatch(t[..n]);
      ArgumentsMatch(t[n..]);
      if t[n..] != [] {
        assert t[n..][1..|t[n..]| - 1] == t[n + 1..|t| - 1];
      }
      assert TokenShape(t, n);
    }
    if n: nat :| TokenShape(t, n) {
      NamesMatch(t[..n]);
      ArgumentsMatch(t[n..]);
      if n < |t| {
        assert t[n..][1..|t[n..]| - 1] == t[n + 1..|t| - 1];
      }
      assert Matches(Opt(ARGUMENTS), t[n..]);
    }
  }

  ghost predicate PlaceholderShape(w: string, n: nat) {
    |w| >= 3 && w[0] == '@' && w[|w| - 1] == '@' && TokenShape(w[1..|w| - 1], n)
  }

  lemma EndsWithAt(r: Regex, v: string)
    ensures Matches(Cat(r, One(Only('@'))), v) <==> v != [] && v[|v| - 1] == '@' && Matches(r, v[..|v| - 1])
  {
    if Matches(Cat(r, One(Only('@'))), v) {
      var l :| 0 <= l <= |v| && Matches(r, v[..l]) && Matches(One(Only('@')), v[l..]);
      assert v[|v| - 1] == v[l..][0];
    }
    if v != [] && v[|v| - 1] == '@' && Matches(r, v[..|v| - 1]) {
      assert Matches(One(Only('@')), v[|v| - 1..]);
    }
  }

  lemma StartsWithAt(r: Regex, w: string)
    ensures Matches(Cat(One(Only('@')), r), w) <==> w != [] && w[0] == '@' && Matches(r, w[1..])
  {
    if w != [] && w[0] == '@' && Matches(r, w[1..]) {
      assert Matches(One(Only('@')), w[..1]);
    }
  }

  /** The expression matches exactly `@NAME@` and `@NAME(args)@`. */
  lemma PlaceholderMatches(w: string)
    ensures Matches(PLACEHOLDER, w) <==> exists n: nat :: PlaceholderShape(w, n)
  {
    StartsWithAt(Cat(GROUP, One(Only('@'))), w);
    if w != [] {
      var v := w[1..];
      EndsWithAt(GROUP, v);
      if v != [] {
        assert v[..|v| - 1] == w[1..|w| - 1] && v[|v| - 1] == w[|w| - 1];
        GroupMatches(v[..|v| - 1]);
      }
      if Matches(PLACEHOLDER, w) {
        var n: nat :| TokenShape(w[1..|w| - 1], n);
        assert PlaceholderShape(w, n);
      }
      if n: nat :| PlaceholderShape(w, n) {
        assert TokenShape(w[1..|w| - 1], n);
      }
    }
  }

  /** The five names and ON_CONFLICT with its argument are all there is, on every driver. */
  lemma OnlyTheseAreKnown(token: string, driver: Driver)
    ensures Replacement(token, driver) == UnknownPlaceholder(token)
       <==> !("ON_CONFLICT(" <= token) && token !in {"ID", "NOW", "TRUE", "FALSE", "INSERT_IF_ABSENT"}
  {
  }
}
