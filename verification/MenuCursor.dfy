/** Cursor movement over the rows of a menu, some of which cannot be selected. */
module MenuCursor {
  import opened Slots

  /** selectable unset means the cursor may stop on every row. */
  datatype Rows = Rows(count: int, selectable: Option<int -> bool>)

  predicate IsSelectable(rows: Rows, index: int) {
    0 <= index < rows.count && (rows.selectable.None? || rows.selectable.value(index))
  }

  // ---- Wrapping ----

  /** The place in 0..count reached from value by whole turns. */
  function Wrap(value: int, count: int): (r: int)
    requires count > 0
    ensures 0 <= r < count
    decreases if value < 0 then count - value else value
  {
    if value < 0 then Wrap(value + count, count)
    else if value >= count then Wrap(value - count, count)
    else value
  }

  /** Remainder as the language defines it: it takes the sign of the value. */
  function Rem(value: int, count: int): int
    requires count > 0
  {
    if value >= 0 then value % count else -((-value) % count)
  }

  /** Division as the language defines it, towards zero. */
  function Quot(value: int, count: int): int
    requires count > 0
  {
    if value >= 0 then value / count else -((-value) / count)
  }

  function WrapIndex(value: int, count: int): int {
    if count <= 0 then 0 else Rem(Rem(value, count) + count, count)
  }

  lemma {:induction false} MultipleIsFar(d: int, count: int)
    requires count > 0
    ensures d >= 1 ==> d * count >= count
    ensures d <= -1 ==> d * count <= -count
    decreases if d < 0 then -d else d
  {
    if d > 1 {
      MultipleIsFar(d - 1, count);
      assert d * count == (d - 1) * count + count;
    } else if d < -1 {
      MultipleIsFar(d + 1, count);
      assert d * count == (d + 1) * count - count;
    }
  }

  lemma {:induction false} SameRemainder(q: int, r: int, q': int, r': int, count: int)
    requires count > 0 && 0 <= r < count && 0 <= r' < count
    requires q * count + r == q' * count + r'
    ensures q == q' && r == r'
  {
    assert (q' - q) * count == q' * count - q * count;
    MultipleIsFar(q' - q, count);
  }

  lemma {:induction false} RemainderUnique(a: int, q: int, r: int, count: int)
    requires count > 0 && a == q * count + r && 0 <= r < count
    ensures a / count == q && a % count == r
  {
    SameRemainder(q, r, a / count, a % count, count);
  }

  lemma {:induction false} WrapIsMod(value: int, count: int)
    requires count > 0
    ensures Wrap(value, count) == value % count
    decreases if value < 0 then count - value else value
  {
    if value < 0 {
      WrapIsMod(value + count, count);
      var q := (value + count) / count;
      assert value == (q - 1) * count + (value + count) % count;
      RemainderUnique(value, q - 1, (value + count) % count, count);
    } else if value >= count {
      WrapIsMod(value - count, count);
      var q := (value - count) / count;
      assert value == (q + 1) * count + (value - count) % count;
      RemainderUnique(value, q + 1, (value - count) % count, count);
    } else {
      RemainderUnique(value, 0, value, count);
    }
  }

  /** The double remainder wraps every value, negative ones included. */
  lemma WrapIndexWraps(value: int, count: int)
    requires count > 0
    ensures WrapIndex(value, count) == Wrap(value, count)
  {
    WrapIsMod(value, count);
    var r := value % count;
    if value >= 0 {
      RemainderUnique(r + count, 1, r, count);
    } else {
      var m := (-value) % count;
      assert -value == (-value) / count * count + m;
      if m == 0 {
        RemainderUnique(value, -((-value) / count), 0, count);
        RemainderUnique(count, 1, 0, count);
      } else {
        RemainderUnique(value, -((-value) / count) - 1, count - m, count);
        RemainderUnique(count - m, 0, count - m, count);
      }
    }
  }

  lemma OneTurnMore(turns: int, count: int)
    ensures turns * count == (turns - 1) * count + count
  {
  }

  lemma {:induction false} WrapTurns(value: int, turns: int, count: int)
    requires count > 0
    ensures Wrap(value + turns * count, count) == Wrap(value, count)
    decreases if turns < 0 then -turns else turns
  {
    if turns > 0 {
      var less := (turns - 1) * count;
      WrapTurns(value, turns - 1, count);
      OneTurnMore(turns, count);
      WrapTurn(value + less, count);
    } else if turns < 0 {
      var more := (turns + 1) * count;
      WrapTurns(value, turns + 1, count);
      OneTurnMore(turns + 1, count);
      WrapTurn(value + more - count, count);
    } else {
      assert turns * count == 0;
    }
  }

  lemma WrapTurn(value: int, count: int)
    requires count > 0
    ensures Wrap(value + count, count) == Wrap(value, count)
  {
  }

  lemma {:induction false} WrapTwice(value: int, step: int, count: int)
    requires count > 0
    ensures Wrap(Wrap(value, count) + step, count) == Wrap(value + step, count)
    decreases if value < 0 then count - value else value
  {
    if value < 0 {
      WrapTwice(value + count, step, count);
      WrapTurn(value + step, count);
    } else if value >= count {
      WrapTwice(value - count, step, count);
      WrapTurn(value - count + step, count);
    }
  }

  // ---- Where a search goes ----

  /** The k-th place the search looks at. */
  function Place(rows: Rows, index: int, step: int, k: nat): int
    requires rows.count > 0
  {
    if k == 0 then Wrap(index, rows.count) else Wrap(Place(rows, index, step, k - 1) + step, rows.count)
  }

  /** The search stops at its k-th place: the first selectable one, or the last it may try. */
  ghost predicate StopsAfter(rows: Rows, index: int, step: int, k: nat) {
    && rows.count > 0 && 1 <= k <= rows.count
    && (forall i | 1 <= i < k :: !IsSelectable(rows, Place(rows, index, step, i)))
    && (k == rows.count || IsSelectable(rows, Place(rows, index, step, k)))
  }

  /** The number of moves Step makes. */
  function Moves(rows: Rows, index: int, step: int, made: nat): (k: nat)
    requires 0 <= made < rows.count
    ensures made < k <= rows.count
    ensures forall i | made < i < k :: !IsSelectable(rows, Place(rows, index, step, i))
    ensures k == rows.count || IsSelectable(rows, Place(rows, index, step, k))
    decreases rows, rows.count - made
  {
    if made + 1 == rows.count || IsSelectable(rows, Place(rows, index, step, made + 1)) then made + 1
    else Moves(rows, index, step, made + 1)
  }

  function Stepped(rows: Rows, index: int, step: int): int {
    if rows.count <= 0 then index else Place(rows, index, step, Moves(rows, index, step, 0))
  }

  method Step(rows: Rows, index: int, step: int) returns (r: int)
    ensures r == Stepped(rows, index, step)
  {
    if rows.count <= 0 {
      return index;
    }
    WrapIndexWraps(index + step, rows.count);
    WrapTwice(index, step, rows.count);
    r := WrapIndex(index + step, rows.count);
    var attempts := rows.count;
    ghost var k := 1;
    while !IsSelectable(rows, r) && attempts > 1
      invariant attempts >= 1 && k == rows.count - attempts + 1
      invariant r == Place(rows, index, step, k)
      invariant Moves(rows, index, step, 0) == Moves(rows, index, step, k - 1)
    {
      attempts := attempts - 1;
      WrapIndexWraps(r + step, rows.count);
      r := WrapIndex(r + step, rows.count);
      k := k + 1;
    }
  }

  lemma MovesIs(rows: Rows, index: int, step: int, k: nat)
    requires StopsAfter(rows, index, step, k)
    ensures Moves(rows, index, step, 0) == k
  {
  }

  lemma {:induction false} PlaceIs(rows: Rows, index: int, step: int, k: nat)
    requires rows.count > 0
    ensures Place(rows, index, step, k) == Wrap(index + k * step, rows.count)
  {
    if k > 0 {
      var before := (k - 1) * step;
      PlaceIs(rows, index, step, k - 1);
      WrapTwice(index + before, step, rows.count);
      assert k * step == before + step;
    } else {
      assert k * step == 0;
    }
  }

  /** Forward or backward by one, the places are plain distances. */
  lemma UnitPlaceIs(rows: Rows, index: int, step: int, k: nat)
    requires rows.count > 0 && (step == 1 || step == -1)
    ensures Place(rows, index, step, k) == Wrap(if step == 1 then index + k else index - k, rows.count)
  {
    PlaceIs(rows, index, step, k);
    var distance: int := k;
    assert distance * 1 == distance && distance * -1 == -distance;
  }

  lemma FullCircle(rows: Rows, index: int, step: int)
    requires rows.count > 0
    ensures Place(rows, index, step, rows.count) == Wrap(index, rows.count)
  {
    PlaceIs(rows, index, step, rows.count);
    WrapTurns(index, step, rows.count);
    assert rows.count * step == step * rows.count;
  }

  /** With nothing to select the search makes a whole number of turns, however long its stride. */
  lemma NothingSelectableStandsStill(rows: Rows, index: int, step: int)
    requires forall i :: !IsSelectable(rows, i)
    ensures Stepped(rows, index, step) == if rows.count > 0 then Wrap(index, rows.count) else index
  {
    if rows.count > 0 {
      assert StopsAfter(rows, index, step, rows.count);
      MovesIs(rows, index, step, rows.count);
      FullCircle(rows, index, step);
    }
  }

  // ---- The selectable rows in order ----

  function Picks(rows: Rows, n: nat): (picks: seq<int>)
    ensures forall i :: i in picks <==> i < n && IsSelectable(rows, i)
    ensures forall i | 0 <= i < |picks| :: picks[i] < n
    ensures forall i, j | 0 <= i < j < |picks| :: picks[i] < picks[j]
  {
    if n == 0 then [] else
    Picks(rows, n - 1) + if IsSelectable(rows, n - 1) then [n - 1] else []
  }

  function Selectables(rows: Rows): (picks: seq<int>)
    ensures forall i :: i in picks <==> IsSelectable(rows, i)
    ensures forall i, j | 0 <= i < j < |picks| :: picks[i] < picks[j]
  {
    if rows.count <= 0 then [] else Picks(rows, rows.count)
  }

  /** A selectable row is at or before the k-th pick, or at or after the next. */
  lemma NoneBetween(rows: Rows, k: int)
    requires -1 <= k < |Selectables(rows)|
    ensures var picks := Selectables(rows);
            forall t | IsSelectable(rows, t) :: (k >= 0 && t <= picks[k]) || (k + 1 < |picks| && picks[k + 1] <= t)
  {
    var picks := Selectables(rows);
    forall t | IsSelectable(rows, t)
      ensures (k >= 0 && t <= picks[k]) || (k + 1 < |picks| && picks[k + 1] <= t)
    {
      var n :| 0 <= n < |picks| && picks[n] == t;
    }
  }

  /** From a selectable row, one step forward is the next selectable row, cyclically. */
  lemma ForwardIsNext(rows: Rows, j: nat)
    requires j < |Selectables(rows)|
    ensures var picks := Selectables(rows);
            Stepped(rows, picks[j], 1) == picks[if j + 1 == |picks| then 0 else j + 1]
  {
    var picks := Selectables(rows);
    var from := picks[j];
    assert IsSelectable(rows, from) && IsSelectable(rows, picks[0]);
    var k := if j + 1 < |picks| then picks[j + 1] - from else rows.count - from + picks[0];
    assert j > 0 ==> picks[0] < from;
    if j + 1 < |picks| {
      assert IsSelectable(rows, picks[j + 1]);
    }
    NoneBetween(rows, j);
    NoneBetween(rows, -1);
    forall i | 1 <= i <= k ensures Place(rows, from, 1, i) == if from + i < rows.count then from + i
                                                             else from + i - rows.count {
      UnitPlaceIs(rows, from, 1, i);
    }
    MovesIs(rows, from, 1, k);
  }

  /** i rows before from, once round at most. */
  function Back(rows: Rows, from: int, i: int): int {
    if from - i >= 0 then from - i else from - i + rows.count
  }

  lemma NoneJustBefore(rows: Rows, j: nat, i: nat)
    requires j < |Selectables(rows)| && 1 <= i
    requires var picks := Selectables(rows);
             i < if j > 0 then picks[j] - picks[j - 1] else picks[j] + rows.count - picks[|picks| - 1]
    ensures !IsSelectable(rows, Back(rows, Selectables(rows)[j], i))
  {
    var picks := Selectables(rows);
    assert IsSelectable(rows, picks[j]) && (j > 0 ==> IsSelectable(rows, picks[j - 1]));
    NoneBetween(rows, j - 1);
    NoneBetween(rows, |picks| - 1);
  }

  /** One step backward is the selectable row before. */
  lemma BackwardIsPrevious(rows: Rows, j: nat)
    requires j < |Selectables(rows)|
    ensures var picks := Selectables(rows);
            Stepped(rows, picks[j], -1) == picks[if j == 0 then |picks| - 1 else j - 1]
  {
    var picks := Selectables(rows);
    var from, last := picks[j], picks[|picks| - 1];
    assert IsSelectable(rows, from) && IsSelectable(rows, last);
    assert j < |picks| - 1 ==> from < last;
    var k := if j > 0 then from - picks[j - 1] else from + rows.count - last;
    if j > 0 {
      assert IsSelectable(rows, picks[j - 1]);
    }
    forall i | 1 <= i <= k ensures Place(rows, from, -1, i) == Back(rows, from, i) {
      UnitPlaceIs(rows, from, -1, i);
    }
    forall i | 1 <= i < k ensures !IsSelectable(rows, Back(rows, from, i)) {
      NoneJustBefore(rows, j, i);
    }
    assert Back(rows, from, k) == if j > 0 then picks[j - 1] else last;
    MovesIs(rows, from, -1, k);
  }

  // ---- Main results ----

  lemma StepsAreInverseAt(rows: Rows, j: nat)
    requires j < |Selectables(rows)|
    ensures var index := Selectables(rows)[j];
            && Stepped(rows, Stepped(rows, index, 1), -1) == index
            && Stepped(rows, Stepped(rows, index, -1), 1) == index
  {
    var m := |Selectables(rows)|;
    ForwardIsNext(rows, j);
    BackwardIsPrevious(rows, if j + 1 == m then 0 else j + 1);
    BackwardIsPrevious(rows, j);
    ForwardIsNext(rows, if j == 0 then m - 1 else j - 1);
  }

  /** From a selectable row, stepping back undoes stepping forward, and forward undoes back. */
  lemma StepsAreInverse(rows: Rows, index: int)
    requires IsSelectable(rows, index)
    ensures Stepped(rows, Stepped(rows, index, 1), -1) == index
    ensures Stepped(rows, Stepped(rows, index, -1), 1) == index
  {
    var picks := Selectables(rows);
    var j :| 0 <= j < |picks| && picks[j] == index;
    StepsAreInverseAt(rows, j);
  }

  /** The row after n steps forward. */
  function Walk(rows: Rows, index: int, n: nat): int {
    if n == 0 then index else Stepped(rows, Walk(rows, index, n - 1), 1)
  }

  /** n places further along a cycle of m, once round at most. */
  function Ahead(j: nat, n: nat, m: nat): nat
    requires j < m && n <= m
  {
    if j + n < m then j + n else j + n - m
  }

  lemma {:induction false} WalkGoesInOrder(rows: Rows, j: nat, n: nat)
    requires j < |Selectables(rows)| && n <= |Selectables(rows)|
    ensures var picks := Selectables(rows); Walk(rows, picks[j], n) == picks[Ahead(j, n, |picks|)]
  {
    if n > 0 {
      var m := |Selectables(rows)|;
      var before := Ahead(j, n - 1, m);
      assert Ahead(j, n, m) == if before + 1 == m then 0 else before + 1;
      WalkGoesInOrder(rows, j, n - 1);
      ForwardIsNext(rows, before);
    }
  }

  lemma WalksDiffer(rows: Rows, j: nat, a: nat, b: nat)
    requires j < |Selectables(rows)| && a < b < |Selectables(rows)|
    ensures Walk(rows, Selectables(rows)[j], a) != Walk(rows, Selectables(rows)[j], b)
  {
    var picks := Selectables(rows);
    WalkGoesInOrder(rows, j, a);
    WalkGoesInOrder(rows, j, b);
    assert Ahead(j, a, |picks|) != Ahead(j, b, |picks|);
  }

  /** Repeated steps reach every selectable row within one round. */
  lemma WalkReachesEveryRow(rows: Rows, index: int, target: int)
    requires IsSelectable(rows, index) && IsSelectable(rows, target)
    ensures exists n :: 0 <= n < |Selectables(rows)| && Walk(rows, index, n) == target
  {
    var picks := Selectables(rows);
    var j :| 0 <= j < |picks| && picks[j] == index;
    var k :| 0 <= k < |picks| && picks[k] == target;
    var n := if k >= j then k - j else k - j + |picks|;
    WalkGoesInOrder(rows, j, n);
    assert Walk(rows, index, n) == target;
  }

  /** And repeat none of them before the round is over, which ends where it began. */
  lemma WalkRepeatsOnlyAfterARound(rows: Rows, index: int)
    requires IsSelectable(rows, index)
    ensures var m := |Selectables(rows)|;
            && (forall a, b | 0 <= a < b < m :: Walk(rows, index, a) != Walk(rows, index, b))
            && Walk(rows, index, m) == index
  {
    var picks := Selectables(rows);
    var j :| 0 <= j < |picks| && picks[j] == index;
    forall a, b | 0 <= a < b < |picks| ensures Walk(rows, index, a) != Walk(rows, index, b) {
      WalksDiffer(rows, j, a, b);
    }
    WalkGoesInOrder(rows, j, |picks|);
  }

  /** From any row at all, a step of one lands on the nearest selectable row in its direction. */
  lemma StepFindsTheNearest(rows: Rows, index: int, step: int)
    requires rows.count > 0 && (step == 1 || step == -1)
    requires Selectables(rows) != []
    ensures var k := Moves(rows, index, step, 0);
            && 1 <= k <= rows.count
            && Stepped(rows, index, step) == Wrap(index + k * step, rows.count)
            && IsSelectable(rows, Stepped(rows, index, step))
            && forall i | 1 <= i < k :: !IsSelectable(rows, Wrap(index + i * step, rows.count))
  {
    var k := Moves(rows, index, step, 0);
    PlaceIs(rows, index, step, k);
    forall i | 1 <= i < k ensures !IsSelectable(rows, Wrap(index + i * step, rows.count)) {
      PlaceIs(rows, index, step, i);
    }
    var target := Selectables(rows)[0];
    assert IsSelectable(rows, target);
    var i := DistanceTo(rows.count, index, step, target);
    UnitPlaceIs(rows, index, step, i);
    assert Place(rows, index, step, i) == target;
  }

  /** Some distance up to a whole turn reaches any row. */
  lemma {:induction false} DistanceTo(count: int, index: int, step: int, target: int) returns (i: nat)
    requires count > 0 && 0 <= target < count && (step == 1 || step == -1)
    ensures 1 <= i <= count
    ensures Wrap(if step == 1 then index + i else index - i, count) == target
    decreases if index < 0 then count - index else index
  {
    if index < 0 {
      i := DistanceTo(count, index + count, step, target);
      WrapTurn(if step == 1 then index + i else index - i, count);
    } else if index >= count {
      i := DistanceTo(count, index - count, step, target);
      WrapTurn(if step == 1 then index - count + i else index - count - i, count);
    } else if step == 1 {
      i := if target > index then target - index else target - index + count;
    } else {
      i := if target < index then index - target else index - target + count;
    }
  }

  /** The first selectable row, or row 0 when there is none. */
  method First(rows: Rows) returns (r: int)
    ensures r == if Selectables(rows) == [] then 0 else Selectables(rows)[0]
  {
    ghost var picks := Selectables(rows);
    if rows.count <= 0 || IsSelectable(rows, 0) {
      if picks != [] {
        assert 0 in picks && picks[0] >= 0 by {
          assert IsSelectable(rows, picks[0]);
        }
      }
      return 0;
    }
    if picks == [] {
      assert forall i :: IsSelectable(rows, i) ==> i in picks;
      NothingSelectableStandsStill(rows, 0, 1);
    } else {
      FirstFromZero(rows);
    }
    r := Step(rows, 0, 1);
  }

  lemma FirstFromZero(rows: Rows)
    requires Selectables(rows) != [] && !IsSelectable(rows, 0)
    ensures Stepped(rows, 0, 1) == Selectables(rows)[0]
  {
    var target := Selectables(rows)[0];
    assert IsSelectable(rows, target);
    NoneBetween(rows, -1);
    forall i | 1 <= i <= target ensures Place(rows, 0, 1, i) == i {
      UnitPlaceIs(rows, 0, 1, i);
    }
    MovesIs(rows, 0, 1, target);
  }

  // ---- Pages, counted off row by row ----

  function PageOf(row: nat, perPage: int): nat
    requires perPage > 0
  {
    if row < perPage then 0 else 1 + PageOf(row - perPage, perPage)
  }

  function OffsetOf(row: nat, perPage: int): (offset: nat)
    requires perPage > 0
    ensures offset < perPage
  {
    if row < perPage then row else OffsetOf(row - perPage, perPage)
  }

  function StartOf(page: nat, perPage: int): (start: nat)
    requires perPage > 0
    ensures start >= page
  {
    if page == 0 then 0 else StartOf(page - 1, perPage) + perPage
  }

  function PageCount(items: int, perPage: int): (pages: nat)
    requires perPage > 0
    ensures pages > 0
  {
    if items <= perPage then 1 else 1 + PageCount(items - perPage, perPage)
  }

  lemma {:induction false} StartIsProduct(page: nat, perPage: int)
    requires perPage > 0
    ensures StartOf(page, perPage) == page * perPage
  {
    if page > 0 {
      StartIsProduct(page - 1, perPage);
      OneTurnMore(page, perPage);
    } else {
      assert page * perPage == 0;
    }
  }

  lemma {:induction false} RowIsStartAndOffset(row: nat, perPage: int)
    requires perPage > 0
    ensures row == StartOf(PageOf(row, perPage), perPage) + OffsetOf(row, perPage)
  {
    if row >= perPage {
      RowIsStartAndOffset(row - perPage, perPage);
    }
  }

  /** The counts are what the code computes by division and multiplication. */
  lemma PagesAreDivisions(row: nat, perPage: int)
    requires perPage > 0
    ensures PageOf(row, perPage) == row / perPage && OffsetOf(row, perPage) == row % perPage
  {
    RowIsStartAndOffset(row, perPage);
    StartIsProduct(PageOf(row, perPage), perPage);
    RemainderUnique(row, PageOf(row, perPage), OffsetOf(row, perPage), perPage);
  }

  lemma {:induction false} PageCountIsCeiling(items: int, perPage: int)
    requires perPage > 0
    ensures PageCount(items, perPage) == if items <= 0 then 1 else (items + perPage - 1) / perPage
  {
    if items > 0 {
      CeilingByRows(items, perPage);
      PagesAreDivisions(items + perPage - 1, perPage);
    }
  }

  lemma {:induction false} CeilingByRows(items: nat, perPage: int)
    requires perPage > 0 && items > 0
    ensures PageCount(items, perPage) == PageOf(items + perPage - 1, perPage)
  {
    if items > perPage {
      CeilingByRows(items - perPage, perPage);
    }
  }

  lemma {:induction false} RowOnPage(page: nat, offset: nat, perPage: int)
    requires perPage > 0 && offset < perPage
    ensures PageOf(StartOf(page, perPage) + offset, perPage) == page
    ensures OffsetOf(StartOf(page, perPage) + offset, perPage) == offset
  {
    if page > 0 {
      RowOnPage(page - 1, offset, perPage);
    }
  }

  lemma {:induction false} LastPageHasRows(count: int, perPage: int, page: nat)
    requires perPage > 0 && count > 0
    ensures page < PageCount(count, perPage) <==> StartOf(page, perPage) < count
  {
    if page > 0 && count > perPage {
      LastPageHasRows(count - perPage, perPage, page - 1);
    }
  }

  /** Rows start..end of one page. */
  datatype Span = Span(start: int, end: int)

  function PageSpan(count: int, perPage: int, page: nat): Span
    requires perPage > 0
  {
    var start := StartOf(page, perPage);
    Span(start, if count < start + perPage then count else start + perPage)
  }

  /** Every page has a row, and its rows are the ones counted to it. */
  lemma PageHasRows(count: int, perPage: int, page: nat)
    requires count > 0 && perPage > 0 && page < PageCount(count, perPage)
    ensures var span := PageSpan(count, perPage, page);
            && 0 <= span.start < span.end <= count
            && forall row: nat | span.start <= row < span.end ::
                 PageOf(row, perPage) == page && OffsetOf(row, perPage) == row - span.start
  {
    LastPageHasRows(count, perPage, page);
    var span := PageSpan(count, perPage, page);
    forall row: nat | span.start <= row < span.end
      ensures PageOf(row, perPage) == page && OffsetOf(row, perPage) == row - span.start
    {
      RowOnPage(page, row - span.start, perPage);
    }
  }

  lemma RowIsOnAPage(count: int, perPage: int, row: nat)
    requires perPage > 0 && row < count
    ensures PageOf(row, perPage) < PageCount(count, perPage)
    ensures var span := PageSpan(count, perPage, PageOf(row, perPage));
            span.start <= row < span.end && row == span.start + OffsetOf(row, perPage)
  {
    RowIsStartAndOffset(row, perPage);
    LastPageHasRows(count, perPage, PageOf(row, perPage));
  }

  // ---- The jump ----

  /** Going round the page from a row until one can be selected. */
  function Round(rows: Rows, span: Span, at: int, attempts: nat): int
    decreases attempts
  {
    if attempts == 0 || IsSelectable(rows, at) then at
    else Round(rows, span, if at + 1 < span.end then at + 1 else span.start, attempts - 1)
  }

  /** Pages and offset counted from row 0, backwards for a negative index. */
  function PagesTo(index: int, perPage: int): int
    requires perPage > 0
  {
    if index >= 0 then PageOf(index, perPage) else 0 - PageOf(-index, perPage)
  }

  function OffsetAt(index: int, perPage: int): int
    requires perPage > 0
  {
    if index >= 0 then OffsetOf(index, perPage) else 0 - OffsetOf(-index, perPage)
  }

  function TargetPage(count: int, index: int, perPage: int, delta: int): nat
    requires perPage > 0
  {
    Wrap(PagesTo(index, perPage) + delta, PageCount(count, perPage))
  }

  function TargetSpan(count: int, index: int, perPage: int, delta: int): Span
    requires perPage > 0
  {
    PageSpan(count, perPage, TargetPage(count, index, perPage, delta))
  }

  /** The row at the same offset, or the last of the page. */
  function WantedRow(span: Span, offset: int): int {
    if span.start + offset < span.end - 1 then span.start + offset else span.end - 1
  }

  function Jumped(rows: Rows, index: int, perPage: int, delta: int): int {
    if rows.count <= 0 || perPage <= 0 then index else
    var span := TargetSpan(rows.count, index, perPage, delta);
    var attempts := if span.end > span.start then span.end - span.start else 0;
    Round(rows, span, WantedRow(span, OffsetAt(index, perPage)), attempts)
  }

  /** The page wanted, by division. */
  method WantedPage(count: int, index: int, rowsPerPage: int, delta: int) returns (page: int)
    requires count > 0 && rowsPerPage > 0
    ensures page == TargetPage(count, index, rowsPerPage, delta)
  {
    var pages := if count <= 0 then 1 else (count + rowsPerPage - 1) / rowsPerPage;
    PageCountIsCeiling(count, rowsPerPage);
    RemIsOffset(index, rowsPerPage);
    page := WrapIndex(Quot(index, rowsPerPage) + delta, pages);
    WrapIndexWraps(Quot(index, rowsPerPage) + delta, pages);
  }

  method JumpPage(rows: Rows, index: int, rowsPerPage: int, delta: int) returns (landed: int)
    ensures landed == Jumped(rows, index, rowsPerPage, delta)
  {
    if rows.count <= 0 || rowsPerPage <= 0 {
      return index;
    }
    var page := WantedPage(rows.count, index, rowsPerPage, delta);
    PageHasRows(rows.count, rowsPerPage, page);
    StartIsProduct(page, rowsPerPage);
    var start := page * rowsPerPage;
    var end := if rows.count < start + rowsPerPage then rows.count else start + rowsPerPage;
    var offset := Rem(index, rowsPerPage);
    RemIsOffset(index, rowsPerPage);
    var wanted := if start + offset < end - 1 then start + offset else end - 1;
    landed := GoRound(rows, start, end, wanted);
  }

  lemma RemIsOffset(index: int, perPage: int)
    requires perPage > 0
    ensures Rem(index, perPage) == OffsetAt(index, perPage) && Quot(index, perPage) == PagesTo(index, perPage)
  {
    PagesAreDivisions(if index >= 0 then index else -index, perPage);
  }

  method GoRound(rows: Rows, start: int, end: int, wanted: int) returns (landed: int)
    requires start < end
    ensures landed == Round(rows, Span(start, end), wanted, end - start)
  {
    landed := wanted;
    var attempts := end - start;
    while attempts > 0
      invariant attempts >= 0
      invariant Round(rows, Span(start, end), wanted, end - start) == Round(rows, Span(start, end), landed, attempts)
    {
      if IsSelectable(rows, landed) {
        break;
      }
      landed := if landed + 1 < end then landed + 1 else start;
      attempts := attempts - 1;
    }
  }

  /** Going round looks at as many rows as it has attempts, and stays on the page. */
  lemma {:induction false} RoundFinds(rows: Rows, span: Span, at: int, attempts: nat)
    requires span.start <= at < span.end && attempts <= span.end - span.start
    ensures var r := Round(rows, span, at, attempts);
            && span.start <= r < span.end
            && (IsSelectable(rows, r)
                || forall k | 0 <= k < attempts :: !IsSelectable(rows, RoundAt(span, at, k)))
    decreases attempts
  {
    if attempts > 0 && !IsSelectable(rows, at) {
      var next := if at + 1 < span.end then at + 1 else span.start;
      RoundFinds(rows, span, next, attempts - 1);
      if !IsSelectable(rows, Round(rows, span, at, attempts)) {
        forall k | 0 <= k < attempts ensures !IsSelectable(rows, RoundAt(span, at, k)) {
          assert k > 0 ==> RoundAt(span, at, k) == RoundAt(span, next, k - 1);
        }
      }
    }
  }

  /** The k-th row after at, going round. */
  function RoundAt(span: Span, at: int, k: int): int {
    if at + k < span.end then at + k else at + k - (span.end - span.start)
  }

  lemma RoundSelectsWhenItCan(rows: Rows, span: Span, wanted: int, row: int)
    requires span.start <= wanted < span.end && span.start <= row < span.end && IsSelectable(rows, row)
    ensures IsSelectable(rows, Round(rows, span, wanted, span.end - span.start))
  {
    RoundFinds(rows, span, wanted, span.end - span.start);
    var k := if row >= wanted then row - wanted else row - wanted + (span.end - span.start);
    assert RoundAt(span, wanted, k) == row;
  }

  // ---- What a page jump promises ----

  lemma JumpStaysOnItsPage(rows: Rows, index: nat, perPage: int, delta: int)
    requires rows.count > 0 && perPage > 0
    ensures var span := TargetSpan(rows.count, index, perPage, delta);
            && 0 <= span.start < span.end <= rows.count
            && span.start <= WantedRow(span, OffsetOf(index, perPage)) < span.end
            && span.start <= Jumped(rows, index, perPage, delta) < span.end
  {
    var span := TargetSpan(rows.count, index, perPage, delta);
    PageHasRows(rows.count, perPage, TargetPage(rows.count, index, perPage, delta));
    RoundFinds(rows, span, WantedRow(span, OffsetOf(index, perPage)), span.end - span.start);
  }

  /** The landing row is a row of the menu on the wanted page, and selectable if and only if that page has such
      a row. */
  lemma {:induction false} JumpLandsOnItsPage(rows: Rows, index: nat, perPage: int, delta: int)
    requires rows.count > 0 && perPage > 0
    ensures var page, r := TargetPage(rows.count, index, perPage, delta), Jumped(rows, index, perPage, delta);
            && 0 <= r < rows.count && PageOf(r, perPage) == page
            && (IsSelectable(rows, r) <==> exists i: nat :: PageOf(i, perPage) == page && IsSelectable(rows, i))
  {
    var page, r := TargetPage(rows.count, index, perPage, delta), Jumped(rows, index, perPage, delta);
    JumpStaysOnItsPage(rows, index, perPage, delta);
    PageHasRows(rows.count, perPage, page);
    var span := PageSpan(rows.count, perPage, page);
    forall i: nat | PageOf(i, perPage) == page && IsSelectable(rows, i) ensures IsSelectable(rows, r) {
      RowIsOnAPage(rows.count, perPage, i);
      RoundSelectsWhenItCan(rows, span, WantedRow(span, OffsetOf(index, perPage)), i);
    }
  }

  /** Started before the page, going round ends on it exactly when it gets there: nothing before the page can be
      selected, and the attempts suffice. */
  lemma {:induction false} RoundFromBefore(rows: Rows, span: Span, at: int, attempts: nat)
    requires at < span.start < span.end && attempts <= span.end - span.start
    ensures span.start <= Round(rows, span, at, attempts) < span.end
        <==> span.start - at <= attempts && forall row | at <= row < span.start :: !IsSelectable(rows, row)
    decreases attempts
  {
    if attempts > 0 && !IsSelectable(rows, at) {
      if at + 1 < span.start {
        RoundFromBefore(rows, span, at + 1, attempts - 1);
      } else {
        RoundFinds(rows, span, span.start, attempts - 1);
      }
    }
  }

  /** For any index at all, the jump ends on the wanted page exactly when the index leaves no negative offset, or
      the rows that offset reaches back to are no more than the page has and none can be selected. A cursor is never
      negative, so it always does. */
  lemma {:induction false} JumpEndsOnThePageExactlyWhen(rows: Rows, index: int, perPage: int, delta: int)
    requires rows.count > 0 && perPage > 0
    ensures var span, offset := TargetSpan(rows.count, index, perPage, delta), OffsetAt(index, perPage);
            span.start <= Jumped(rows, index, perPage, delta) < span.end
            <==> || offset >= 0
                 || (-offset <= span.end - span.start
                     && forall row | span.start + offset <= row < span.start :: !IsSelectable(rows, row))
  {
    var span, offset := TargetSpan(rows.count, index, perPage, delta), OffsetAt(index, perPage);
    PageHasRows(rows.count, perPage, TargetPage(rows.count, index, perPage, delta));
    if offset >= 0 {
      RoundFinds(rows, span, WantedRow(span, offset), span.end - span.start);
    } else {
      RoundFromBefore(rows, span, span.start + offset, span.end - span.start);
    }
  }

  lemma NegativeIndexCanMissThePage()
    ensures var rows := Rows(10, None);
            TargetSpan(10, -1, 5, 1) == Span(5, 10) && !(5 <= Jumped(rows, -1, 5, 1) < 10)
  {
    var rows := Rows(10, None);
    assert TargetSpan(10, -1, 5, 1) == Span(5, 10) by {
      assert PagesTo(-1, 5) == 0 && PageCount(10, 5) == 2;
    }
    assert OffsetAt(-1, 5) == -1;
    assert IsSelectable(rows, 4);
    JumpEndsOnThePageExactlyWhen(rows, -1, 5, 1);
  }

  lemma WrapBack(page: nat, delta: int, pages: nat)
    requires page < pages
    ensures Wrap(Wrap(page + delta, pages) + -delta, pages) == page
  {
    WrapTwice(page + delta, -delta, pages);
  }

  /** The row jumped to and back from. */
  function JumpedBack(rows: Rows, index: nat, perPage: int, delta: int): int
    requires index < rows.count && perPage > 0
  {
    JumpStaysOnItsPage(rows, index, perPage, delta);
    Jumped(rows, Jumped(rows, index, perPage, delta), perPage, -delta)
  }

  /** The page jumped back to is the one started from. */
  lemma {:induction false} BackIsTheSamePage(rows: Rows, index: nat, perPage: int, delta: int, r: nat)
    requires index < rows.count && perPage > 0 && r == Jumped(rows, index, perPage, delta)
    ensures TargetPage(rows.count, r, perPage, -delta) == PageOf(index, perPage)
  {
    JumpLandsOnItsPage(rows, index, perPage, delta);
    RowIsOnAPage(rows.count, perPage, index);
    WrapBack(PageOf(index, perPage), delta, PageCount(rows.count, perPage));
  }

  /** Jumping forth and back returns to the page started from, wrapping included. */
  lemma {:induction false} JumpBackReturnsToThePage(rows: Rows, index: nat, perPage: int, delta: int)
    requires index < rows.count && perPage > 0
    ensures var back := JumpedBack(rows, index, perPage, delta);
            0 <= back < rows.count && PageOf(back, perPage) == PageOf(index, perPage)
  {
    var r := Jumped(rows, index, perPage, delta);
    JumpStaysOnItsPage(rows, index, perPage, delta);
    BackIsTheSamePage(rows, index, perPage, delta, r);
    JumpLandsOnItsPage(rows, r, perPage, -delta);
  }

  /** When every row can be selected, it returns to the very row if and only if the page jumped to is long enough
      to have a row at the same offset. */
  lemma {:induction false} JumpBackReturnsToTheRowExactlyWhen(rows: Rows, index: nat, perPage: int, delta: int)
    requires index < rows.count && perPage > 0 && rows.selectable.None?
    ensures var span := TargetSpan(rows.count, index, perPage, delta);
            JumpedBack(rows, index, perPage, delta) == index <==> OffsetOf(index, perPage) < span.end - span.start
  {
    var span, r := TargetSpan(rows.count, index, perPage, delta), Jumped(rows, index, perPage, delta);
    JumpStaysOnItsPage(rows, index, perPage, delta);
    PageHasRows(rows.count, perPage, TargetPage(rows.count, index, perPage, delta));
    assert OffsetOf(r, perPage) == r - span.start;
    JumpBackReturnsToThePage(rows, index, perPage, delta);
    JumpStaysOnItsPage(rows, r, perPage, -delta);
    BackIsTheSamePage(rows, index, perPage, delta, r);
    RowIsOnAPage(rows.count, perPage, index);
  }

  /** Without rows, or rows to a page, a jump stays where it is. */
  lemma JumpWithoutPagesStays(rows: Rows, index: int, perPage: int, delta: int)
    requires rows.count <= 0 || perPage <= 0
    ensures Jumped(rows, index, perPage, delta) == index
  {
  }
}
