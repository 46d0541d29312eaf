/** Ordering and pagination of the list endpoint. */
module Listing {
  import opened Prelude

  type Column = string
  /** A row: the value of every column. */
  type Row = map<Column, int>

  datatype Model = Model(columns: set<Column>, primaryKey: Column)

  /** Rows of one table: all columns present, primary keys distinct. */
  ghost predicate TableOk(model: Model, table: seq<Row>)
  {
    && model.primaryKey in model.columns
    && (forall i :: 0 <= i < |table| ==> model.columns <= table[i].Keys)
    && (forall i, j :: 0 <= i < j < |table| ==>
          model.primaryKey in table[i] && model.primaryKey in table[j]
              && table[i][model.primaryKey] != table[j][model.primaryKey])
  }

  datatype Clause = Clause(column: Column, descending: bool)

  /** `-name` is descending. */
  function ClauseOf(item: string): Clause
  {
    if item != "" && item[0] == '-' then Clause(item[1..], true) else Clause(item, false)
  }

  datatype OrderingError = UnknownOrderingField

  /** A known requested column wins, with the primary key as tie-break; otherwise the configuration decides. */
  method ApplyOrdering(model: Model, configured: seq<string>, requested: Option<string>)
    returns (result: Result<seq<Clause>, OrderingError>)
    ensures result == Ordering(model, configured, requested)
  {
    if requested.Some? && requested.value != "" {
      var clause := ClauseOf(requested.value);
      if clause.column in model.columns {
        if clause.column == model.primaryKey {
          return Ok([clause]);
        }
        return Ok([clause, Clause(model.primaryKey, false)]);
      }
    }
    if configured == [] {
      return Ok([Clause(model.primaryKey, false)]);
    }
    var clauses: seq<Clause> := [];
    for i := 0 to |configured|
      invariant |clauses| == i
      invariant forall j :: 0 <= j < i ==> clauses[j] == ClauseOf(configured[j]) && clauses[j].column in model.columns
    {
      var clause := ClauseOf(configured[i]);
      if clause.column !in model.columns {
        return Err(UnknownOrderingField);
      }
      clauses := clauses + [clause];
    }
    assert clauses == seq(|configured|, i requires 0 <= i < |configured| => ClauseOf(configured[i]));
    return Ok(clauses);
  }

  ghost function Ordering(model: Model, configured: seq<string>,
                          requested: Option<string>): Result<seq<Clause>, OrderingError>
  {
    if Honoured(model, requested) then
      var clause := ClauseOf(requested.value);
      Ok(if clause.column == model.primaryKey then [clause] else [clause, Clause(model.primaryKey, false)])
    else if configured == [] then Ok([Clause(model.primaryKey, false)])
    else if forall i :: 0 <= i < |configured| ==> ClauseOf(configured[i]).column in model.columns then
      Ok(seq(|configured|, i requires 0 <= i < |configured| => ClauseOf(configured[i])))
    else Err(UnknownOrderingField)
  }

  /** The request names a column the model has. */
  predicate Honoured(model: Model, requested: Option<string>)
  {
    requested.Some? && requested.value != "" && ClauseOf(requested.value).column in model.columns
  }

  // ---- The order a clause list defines ----

  function Cell(row: Row, column: Column): int
  {
    if column in row then row[column] else 0
  }

  predicate Before(clauses: seq<Clause>, a: Row, b: Row)
  {
    clauses != [] &&
    var c := clauses[0];
    if Cell(a, c.column) == Cell(b, c.column) then Before(clauses[1..], a, b)
    else (Cell(a, c.column) < Cell(b, c.column)) != c.descending
  }

  /** Equal in every column the clauses look at. */
  predicate Tied(clauses: seq<Clause>, a: Row, b: Row)
  {
    forall i :: 0 <= i < |clauses| ==> Cell(a, clauses[i].column) == Cell(b, clauses[i].column)
  }

  lemma {:induction false} Trichotomy(clauses: seq<Clause>, a: Row, b: Row)
    ensures Before(clauses, a, b) || Before(clauses, b, a) || Tied(clauses, a, b)
    ensures !(Before(clauses, a, b) && Before(clauses, b, a))
    ensures Tied(clauses, a, b) ==> !Before(clauses, a, b) && !Before(clauses, b, a)
  {
    if clauses != [] {
      Trichotomy(clauses[1..], a, b);
      if Cell(a, clauses[0].column) == Cell(b, clauses[0].column) && Tied(clauses[1..], a, b) {
        forall i | 0 <= i < |clauses| ensures Cell(a, clauses[i].column) == Cell(b, clauses[i].column) {
          if i > 0 { assert clauses[1..][i - 1] == clauses[i]; }
        }
      }
      if Tied(clauses, a, b) {
        assert Tied(clauses[1..], a, b);
      }
    }
  }

  lemma {:induction false} BeforeTransitive(clauses: seq<Clause>, a: Row, b: Row, c: Row)
    requires !Before(clauses, b, a) && !Before(clauses, c, b)
    ensures !Before(clauses, c, a)
  {
    if clauses != [] {
      var column := clauses[0].column;
      if Cell(a, column) == Cell(b, column) == Cell(c, column) {
        BeforeTransitive(clauses[1..], a, b, c);
      }
    }
  }

  // ---- What the database may answer ----

  ghost predicate Sorted(clauses: seq<Clause>, rows: seq<Row>)
  {
    forall i, j :: 0 <= i < j < |rows| ==> !Before(clauses, rows[j], rows[i])
  }

  /** Any sorted permutation of the matching rows. */
  ghost predicate IsAnswer(clauses: seq<Clause>, matching: seq<Row>, answer: seq<Row>)
  {
    Sorted(clauses, answer) && multiset(answer) == multiset(matching)
  }

  /** No two of the rows are tied: the order is a strict total order on them. */
  ghost predicate TotalOn(clauses: seq<Clause>, rows: seq<Row>)
  {
    forall i, j :: 0 <= i < j < |rows| ==> !Tied(clauses, rows[i], rows[j])
  }

  lemma TiedSymmetric(clauses: seq<Clause>, a: Row, b: Row)
    ensures Tied(clauses, a, b) <==> Tied(clauses, b, a)
  {
  }

  /** A strict total order leaves no room for a duplicate. */
  lemma NoRowTwice(clauses: seq<Clause>, rows: seq<Row>, a: Row)
    requires TotalOn(clauses, rows)
    ensures multiset(rows)[a] <= 1
  {
    if multiset(rows)[a] >= 2 {
      var k, l := TwoIndices(rows, a);
      assert false;
    }
  }

  /** Totality does not depend on the order in which the rows are listed. */
  lemma TotalOnPermutation(clauses: seq<Clause>, rows: seq<Row>, other: seq<Row>)
    requires TotalOn(clauses, rows) && multiset(rows) == multiset(other)
    ensures TotalOn(clauses, other)
  {
    forall i, j | 0 <= i < j < |other| ensures !Tied(clauses, other[i], other[j]) {
      var a, b := other[i], other[j];
      assert a in multiset(rows) && b in multiset(rows);
      if a == b {
        TwiceInMultiset(other, i, j);
        NoRowTwice(clauses, rows, a);
        assert false;
      } else {
        var k :| 0 <= k < |rows| && rows[k] == a;
        var l :| 0 <= l < |rows| && rows[l] == b;
        TiedSymmetric(clauses, a, b);
      }
    }
  }

  lemma TwiceInMultiset(rows: seq<Row>, i: nat, j: nat)
    requires i < j < |rows| && rows[i] == rows[j]
    ensures multiset(rows)[rows[i]] >= 2
  {
    assert rows == rows[..i] + [rows[i]] + rows[i + 1..j] + [rows[j]] + rows[j + 1..];
  }

  lemma {:induction false} TwoIndices(rows: seq<Row>, a: Row) returns (k: nat, l: nat)
    requires multiset(rows)[a] >= 2
    ensures k < l < |rows| && rows[k] == rows[l] == a
  {
    var n := |rows| - 1;
    assert rows == rows[..n] + [rows[n]];
    if rows[n] == a {
      assert a in multiset(rows[..n]);
      k :| 0 <= k < n && rows[..n][k] == a;
      l := n;
    } else {
      k, l := TwoIndices(rows[..n], a);
    }
  }

  /** Under a strict total order there is only one answer. */
  lemma {:induction false} AnswerIsUnique(clauses: seq<Clause>, one: seq<Row>, other: seq<Row>)
    requires TotalOn(clauses, one) && Sorted(clauses, one) && Sorted(clauses, other)
    requires multiset(one) == multiset(other)
    ensures one == other
  {
    assert |one| == |multiset(one)| && |other| == |multiset(other)|;
    if one != [] {
      FirstAgrees(clauses, one, other);
      assert one == [one[0]] + one[1..] && other == [other[0]] + other[1..];
      assert multiset(one[1..]) == multiset(one) - multiset{one[0]};
      assert multiset(other[1..]) == multiset(other) - multiset{other[0]};
      AnswerIsUnique(clauses, one[1..], other[1..]);
    }
  }

  lemma FirstAgrees(clauses: seq<Clause>, one: seq<Row>, other: seq<Row>)
    requires TotalOn(clauses, one) && Sorted(clauses, one) && Sorted(clauses, other)
    requires multiset(one) == multiset(other) && one != [] && other != []
    ensures one[0] == other[0]
  {
    assert one[0] in multiset(other) && other[0] in multiset(one);
    var i :| 0 <= i < |other| && other[i] == one[0];
    var j :| 0 <= j < |one| && one[j] == other[0];
    if i > 0 && j > 0 {
      Trichotomy(clauses, one[0], one[j]);
    }
  }

  /** Requested ordering on a known column, or no configured ordering: the order is total. */
  lemma DefaultOrderingsAreTotal(model: Model, configured: seq<string>, requested: Option<string>, table: seq<Row>)
    requires TableOk(model, table)
    requires Honoured(model, requested) || configured == []
    ensures Ordering(model, configured, requested).Ok? && TotalOn(Ordering(model, configured, requested).value, table)
  {
    var clauses := Ordering(model, configured, requested).value;
    var k := |clauses| - 1;
    assert clauses[k].column == model.primaryKey;
    forall i, j | 0 <= i < j < |table| ensures !Tied(clauses, table[i], table[j]) {
      assert Cell(table[i], clauses[k].column) != Cell(table[j], clauses[k].column);
    }
  }

  // ---- What an ordered answer looks like, cell by cell ----

  /** Where two rows first differ, at clause `k`, that column decides which may come first. */
  lemma {:induction false} FirstDifference(clauses: seq<Clause>, a: Row, b: Row, k: nat)
    requires k < |clauses| && !Before(clauses, b, a)
    requires forall l :: 0 <= l < k ==> Cell(a, clauses[l].column) == Cell(b, clauses[l].column)
    ensures if clauses[k].descending then Cell(a, clauses[k].column) >= Cell(b, clauses[k].column)
            else Cell(a, clauses[k].column) <= Cell(b, clauses[k].column)
  {
    if k > 0 {
      assert Cell(a, clauses[0].column) == Cell(b, clauses[0].column);
      FirstDifference(clauses[1..], a, b, k - 1);
    }
  }

  /** Rows with equal cells in the given column come in ascending order of the primary key. */
  ghost predicate TiesByKey(model: Model, column: Column, a: Row, b: Row)
  {
    Cell(a, column) == Cell(b, column) ==> Cell(a, model.primaryKey) <= Cell(b, model.primaryKey)
  }

  /** A requested column orders the answer upwards, whatever is configured. */
  lemma RequestedAscends(model: Model, configured: seq<string>, name: string, answer: seq<Row>, i: nat, j: nat)
    requires name in model.columns && name != "" && name[0] != '-' && i < j < |answer|
    requires Sorted(Ordering(model, configured, Some(name)).value, answer)
    ensures Cell(answer[i], name) <= Cell(answer[j], name) && TiesByKey(model, name, answer[i], answer[j])
  {
    var clauses := Ordering(model, configured, Some(name)).value;
    FirstDifference(clauses, answer[i], answer[j], 0);
    if Cell(answer[i], name) == Cell(answer[j], name) {
      FirstDifference(clauses, answer[i], answer[j], |clauses| - 1);
    }
  }

  /** A requested column with a leading minus orders it downwards; ties still go by ascending key. */
  lemma RequestedDescends(model: Model, configured: seq<string>, name: string, answer: seq<Row>, i: nat, j: nat)
    requires name in model.columns && i < j < |answer|
    requires Sorted(Ordering(model, configured, Some("-" + name)).value, answer)
    ensures Cell(answer[i], name) >= Cell(answer[j], name)
    ensures name != model.primaryKey ==> TiesByKey(model, name, answer[i], answer[j])
  {
    assert ("-" + name)[1..] == name;
    var clauses := Ordering(model, configured, Some("-" + name)).value;
    FirstDifference(clauses, answer[i], answer[j], 0);
    if name != model.primaryKey && Cell(answer[i], name) == Cell(answer[j], name) {
      FirstDifference(clauses, answer[i], answer[j], 1);
    }
  }

  /** The column an item of the configuration names. */
  function ColumnOf(item: string): Column
  {
    if "-" <= item then item[1..] else item
  }

  /** The request names no column: there is none, it is empty, or its column is unknown. */
  predicate AsksNothing(model: Model, requested: Option<string>)
  {
    requested.None? || requested.value == "" || ColumnOf(requested.value) !in model.columns
  }

  /** Otherwise the configured items order the answer lexicographically, each upwards or, with a minus, downwards. */
  lemma ConfiguredIsLexicographic(model: Model, configured: seq<string>, requested: Option<string>, answer: seq<Row>,
                                  i: nat, j: nat, k: nat)
    requires AsksNothing(model, requested) && Ordering(model, configured, requested).Ok?
    requires Sorted(Ordering(model, configured, requested).value, answer) && i < j < |answer| && k < |configured|
    requires forall l :: 0 <= l < k ==>
               Cell(answer[i], ColumnOf(configured[l])) == Cell(answer[j], ColumnOf(configured[l]))
    ensures if "-" <= configured[k] then Cell(answer[i], configured[k][1..]) >= Cell(answer[j], configured[k][1..])
            else Cell(answer[i], configured[k]) <= Cell(answer[j], configured[k])
  {
    var clauses := Ordering(model, configured, requested).value;
    forall l | 0 <= l <= k ensures clauses[l].column == ColumnOf(configured[l]) { }
    FirstDifference(clauses, answer[i], answer[j], k);
  }

  /** With nothing asked and nothing configured the primary key orders the answer upwards. */
  lemma KeyOrdersByDefault(model: Model, requested: Option<string>, answer: seq<Row>, i: nat, j: nat)
    requires AsksNothing(model, requested) && i < j < |answer|
    requires Sorted(Ordering(model, [], requested).value, answer)
    ensures Cell(answer[i], model.primaryKey) <= Cell(answer[j], model.primaryKey)
  {
    FirstDifference(Ordering(model, [], requested).value, answer[i], answer[j], 0);
  }

  /** An ordering fails exactly when nothing is asked and a configured item names no column. */
  lemma OrderingFailsIff(model: Model, configured: seq<string>, requested: Option<string>)
    ensures Ordering(model, configured, requested).Err? <==>
              && AsksNothing(model, requested)
              && exists i :: 0 <= i < |configured| && ColumnOf(configured[i]) !in model.columns
  {
    forall i | 0 <= i < |configured| ensures ClauseOf(configured[i]).column == ColumnOf(configured[i]) { }
  }

  // ---- There is always an answer ----

  ghost function Inserted(clauses: seq<Clause>, row: Row, sorted: seq<Row>): seq<Row>
  {
    if sorted == [] then [row]
    else if Before(clauses, sorted[0], row) then [sorted[0]] + Inserted(clauses, row, sorted[1..])
    else [row] + sorted
  }

  lemma {:induction false} InsertedIsSorted(clauses: seq<Clause>, row: Row, sorted: seq<Row>)
    requires Sorted(clauses, sorted)
    ensures Sorted(clauses, Inserted(clauses, row, sorted))
    ensures multiset(Inserted(clauses, row, sorted)) == multiset{row} + multiset(sorted)
  {
    if sorted != [] {
      var first, rest := sorted[0], sorted[1..];
      assert sorted == [first] + rest;
      if Before(clauses, first, row) {
        InsertedIsSorted(clauses, row, rest);
        Trichotomy(clauses, first, row);
        var tail := Inserted(clauses, row, rest);
        forall r | r in tail ensures !Before(clauses, r, first) {
          assert r in multiset(tail);
        }
        SortedCons(clauses, first, tail);
      } else {
        forall r | r in sorted ensures !Before(clauses, r, row) {
          if r != first {
            assert !Before(clauses, r, first);
            BeforeTransitive(clauses, row, first, r);
          }
        }
        SortedCons(clauses, row, sorted);
      }
    }
  }

  lemma SortedCons(clauses: seq<Clause>, first: Row, rest: seq<Row>)
    requires Sorted(clauses, rest) && forall r :: r in rest ==> !Before(clauses, r, first)
    ensures Sorted(clauses, [first] + rest)
  {
  }

  /** Any rows can be put in order, so the database has an answer to give. */
  lemma {:induction false} AnswerExists(clauses: seq<Clause>, rows: seq<Row>) returns (answer: seq<Row>)
    ensures IsAnswer(clauses, rows, answer)
  {
    if rows == [] {
      answer := [];
    } else {
      var rest := AnswerExists(clauses, rows[1..]);
      answer := Inserted(clauses, rows[0], rest);
      InsertedIsSorted(clauses, rows[0], rest);
      assert rows == [rows[0]] + rows[1..];
    }
  }

  // ---- Limits and pages ----

  const MAX_PAGE_LIMIT: nat := 500
  const DEFAULT_PAGE_LIMIT: nat := 100

  /** `validate_limit_offset`. */
  function NormalizeLimitOffset(limit: Option<int>, offset: Option<int>): (r: (nat, nat))
    ensures 1 <= r.0 <= MAX_PAGE_LIMIT
    ensures limit.None? ==> r.0 == DEFAULT_PAGE_LIMIT
    ensures limit.Some? && 1 <= limit.value <= MAX_PAGE_LIMIT ==> r.0 == limit.value
    ensures limit.Some? && limit.value < 1 ==> r.0 == 1
    ensures limit.Some? && limit.value > MAX_PAGE_LIMIT ==> r.0 == MAX_PAGE_LIMIT
    ensures offset.Some? && offset.value >= 0 ==> r.1 == offset.value
    ensures offset.None? || offset.value < 0 ==> r.1 == 0
  {
    var l := if limit.None? then DEFAULT_PAGE_LIMIT
             else if limit.value < 1 then 1
             else if limit.value > MAX_PAGE_LIMIT then MAX_PAGE_LIMIT else limit.value;
    var o := if offset.None? || offset.value < 0 then 0 else offset.value;
    (l, o)
  }

  function Min(a: nat, b: nat): nat
  {
    if a < b then a else b
  }

  /** The rows a LIMIT / OFFSET cut returns. */
  function Page(answer: seq<Row>, limit: nat, offset: nat): seq<Row>
  {
    answer[Min(offset, |answer|)..Min(offset + limit, |answer|)]
  }

  datatype PageResult = PageResult(items: seq<Row>, total: nat, limit: nat, offset: nat)

  function Matching(table: seq<Row>, keep: Row -> bool): seq<Row>
  {
    if table == [] then []
    else (if keep(table[0]) then [table[0]] else []) + Matching(table[1..], keep)
  }

  /**
   One list request. `answer` is what the database returns for the ordered statement; the total is
   counted before ordering, limit and offset are applied.
   */
  method ListRecords(table: seq<Row>, keep: Row -> bool, clauses: seq<Clause>, limit: Option<int>,
                     offset: Option<int>, answer: seq<Row>)
    returns (page: PageResult)
    requires IsAnswer(clauses, Matching(table, keep), answer)
    ensures page.total == |answer| == |Matching(table, keep)|
    ensures (page.limit, page.offset) == NormalizeLimitOffset(limit, offset)
    ensures page.items == Page(answer, page.limit, page.offset)
    ensures forall r :: r in page.items ==> r in Matching(table, keep)
  {
    var (l, o) := NormalizeLimitOffset(limit, offset);
    var matching := Matching(table, keep);
    assert |answer| == |multiset(answer)| == |multiset(matching)| == |matching|;
    var items := Page(answer, l, o);
    forall r | r in items ensures r in matching { assert r in multiset(answer); }
    page := PageResult(items, |matching|, l, o);
  }

  /** The first `n` pages, each cut from whatever the database answered for that request. */
  ghost function Pages(answers: nat -> seq<Row>, limit: nat, n: nat): seq<Row>
  {
    if n == 0 then [] else Pages(answers, limit, n - 1) + Page(answers(n - 1), limit, (n - 1) * limit)
  }

  lemma PageExtends(answer: seq<Row>, limit: nat, m: nat)
    ensures answer[..Min(m, |answer|)] + Page(answer, limit, m) == answer[..Min(m + limit, |answer|)]
  {
  }

  lemma {:induction false} PagesArePrefix(answers: nat -> seq<Row>, answer: seq<Row>, limit: nat, n: nat)
    requires forall k :: 0 <= k < n ==> answers(k) == answer
    ensures Pages(answers, limit, n) == answer[..Min(n * limit, |answer|)]
  {
    if n > 0 {
      var m := (n - 1) * limit;
      PagesArePrefix(answers, answer, limit, n - 1);
      assert n * limit == m + limit;
      PageExtends(answer, limit, m);
    }
  }

  /** Enough pages to reach the end. */
  ghost predicate Covers(n: nat, limit: nat, total: nat)
  {
    n * limit >= total
  }

  /** Whatever the database answers, page by page, the pages make up the matching rows exactly once each. */
  ghost predicate PagesTile(clauses: seq<Clause>, matching: seq<Row>)
  {
    forall answers: nat -> seq<Row>, limit: nat, n: nat ::
      limit >= 1 && Covers(n, limit, |matching|) && (forall k :: IsAnswer(clauses, matching, answers(k)))
      ==> multiset(Pages(answers, limit, n)) == multiset(matching)
  }

  lemma TotalOrderTiles(clauses: seq<Clause>, matching: seq<Row>)
    requires TotalOn(clauses, matching)
    ensures PagesTile(clauses, matching)
  {
    forall answers: nat -> seq<Row>, limit: nat, n: nat
      | limit >= 1 && Covers(n, limit, |matching|) && (forall k :: IsAnswer(clauses, matching, answers(k)))
      ensures multiset(Pages(answers, limit, n)) == multiset(matching)
    {
      var answer := answers(0);
      assert IsAnswer(clauses, matching, answer);
      TotalOnPermutation(clauses, matching, answer);
      forall k | 0 <= k < n ensures answers(k) == answer {
        assert IsAnswer(clauses, matching, answers(k));
        AnswerIsUnique(clauses, answer, answers(k));
      }
      PagesArePrefix(answers, answer, limit, n);
      assert |answer| == |multiset(answer)| == |multiset(matching)| == |matching|;
      assert answer[..|answer|] == answer;
    }
  }

  /** Swapping neighbouring tied rows gives another answer the database is free to return. */
  lemma SwapTied(clauses: seq<Clause>, answer: seq<Row>, i: nat)
    requires Sorted(clauses, answer) && i + 1 < |answer| && Tied(clauses, answer[i], answer[i + 1])
    ensures var swapped := answer[i := answer[i + 1]][i + 1 := answer[i]];
            Sorted(clauses, swapped) && multiset(swapped) == multiset(answer)
  {
    var swapped := answer[i := answer[i + 1]][i + 1 := answer[i]];
    forall k, l | 0 <= k < l < |swapped| ensures !Before(clauses, swapped[l], swapped[k]) {
      if k == i && l == i + 1 {
        Trichotomy(clauses, answer[i], answer[i + 1]);
      }
    }
  }

  /** Rows between two tied ones in a sorted answer are tied too. */
  lemma NeighboursTied(clauses: seq<Clause>, answer: seq<Row>, i: nat, j: nat)
    requires Sorted(clauses, answer) && i < j < |answer| && Tied(clauses, answer[i], answer[j])
    ensures Tied(clauses, answer[i], answer[i + 1])
  {
    Trichotomy(clauses, answer[i], answer[i + 1]);
    Trichotomy(clauses, answer[i], answer[j]);
    if Before(clauses, answer[i], answer[i + 1]) {
      assert !Before(clauses, answer[j], answer[i + 1]) || j == i + 1;
      BeforeTransitive(clauses, answer[i + 1], answer[j], answer[i]);
    }
  }

  /**
   Pages tile for every behaviour of the database exactly when the order has no ties: with a tie, pages
   of one row cut from two equally sorted answers return one row twice and another not at all.
   */
  lemma PagesTileIffTotal(clauses: seq<Clause>, matching: seq<Row>, answer: seq<Row>)
    requires IsAnswer(clauses, matching, answer)
    requires forall i, j :: 0 <= i < j < |matching| ==> matching[i] != matching[j]
    ensures PagesTile(clauses, matching) <==> TotalOn(clauses, matching)
  {
    if TotalOn(clauses, matching) {
      TotalOrderTiles(clauses, matching);
    } else if PagesTile(clauses, matching) {
      if TotalOn(clauses, answer) {
        TotalOnPermutation(clauses, answer, matching);
        assert false;
      }
      var i, j :| 0 <= i < j < |answer| && Tied(clauses, answer[i], answer[j]);
      NeighboursTied(clauses, answer, i, j);
      TieBreaksTiling(clauses, matching, answer, i);
    }
  }

  /** The filter keeps exactly the rows it accepts. */
  lemma {:induction false} MatchingKeeps(table: seq<Row>, keep: Row -> bool, r: Row)
    ensures r in Matching(table, keep) <==> r in table && keep(r)
  {
    if table != [] {
      MatchingKeeps(table[1..], keep, r);
      assert table == [table[0]] + table[1..];
    }
  }

  /** Filtering a table gives a table: no primary key comes twice. */
  lemma {:induction false} MatchingIsTable(model: Model, table: seq<Row>, keep: Row -> bool)
    requires TableOk(model, table)
    ensures TableOk(model, Matching(table, keep))
  {
    if table != [] {
      var rest := Matching(table[1..], keep);
      MatchingIsTable(model, table[1..], keep);
      forall i | 0 <= i < |rest|
        ensures rest[i][model.primaryKey] != table[0][model.primaryKey]
      {
        MatchingKeeps(table[1..], keep, rest[i]);
      }
    }
  }

  /**
   For a list request as a whole: the pages tile the matching rows exactly when its ordering ties no two
   of them, and they always do when the request orders by a known column or nothing is configured.
   */
  lemma RequestPagesTileIff(model: Model, configured: seq<string>, requested: Option<string>, table: seq<Row>,
                            keep: Row -> bool)
    requires TableOk(model, table) && Ordering(model, configured, requested).Ok?
    ensures var clauses, matching := Ordering(model, configured, requested).value, Matching(table, keep);
            && (PagesTile(clauses, matching) <==> TotalOn(clauses, matching))
            && (Honoured(model, requested) || configured == [] ==> PagesTile(clauses, matching))
  {
    var clauses, matching := Ordering(model, configured, requested).value, Matching(table, keep);
    MatchingIsTable(model, table, keep);
    var answer := AnswerExists(clauses, matching);
    PagesTileIffTotal(clauses, matching, answer);
    if Honoured(model, requested) || configured == [] {
      DefaultOrderingsAreTotal(model, configured, requested, matching);
    }
  }

  /** And then the database has one answer only. */
  lemma RequestAnswerIsUnique(model: Model, configured: seq<string>, requested: Option<string>, table: seq<Row>,
                              keep: Row -> bool, one: seq<Row>, other: seq<Row>)
    requires TableOk(model, table) && (Honoured(model, requested) || configured == [])
    requires IsAnswer(Ordering(model, configured, requested).value, Matching(table, keep), one)
    requires IsAnswer(Ordering(model, configured, requested).value, Matching(table, keep), other)
    ensures one == other
  {
    var clauses, matching := Ordering(model, configured, requested).value, Matching(table, keep);
    MatchingIsTable(model, table, keep);
    DefaultOrderingsAreTotal(model, configured, requested, matching);
    TotalOnPermutation(clauses, matching, one);
    AnswerIsUnique(clauses, one, other);
  }

  /** The database answers one way up to page `i` and another way from then on. */
  ghost function SwitchAfter(one: seq<Row>, other: seq<Row>, i: nat): nat -> seq<Row>
  {
    k => if k <= i then one else other
  }

  lemma TieBreaksTiling(clauses: seq<Clause>, matching: seq<Row>, answer: seq<Row>, i: nat)
    requires IsAnswer(clauses, matching, answer)
    requires forall i, j :: 0 <= i < j < |matching| ==> matching[i] != matching[j]
    requires i + 1 < |answer| && Tied(clauses, answer[i], answer[i + 1])
    ensures !PagesTile(clauses, matching)
  {
    var swapped := answer[i := answer[i + 1]][i + 1 := answer[i]];
    SwapTied(clauses, answer, i);
    var answers, n := SwitchAfter(answer, swapped, i), |answer|;
    RowComesTwice(answers, n, i, answer[i]);
    if multiset(Pages(answers, 1, n)) == multiset(matching) {
      var k, l := TwoIndices(matching, answer[i]);
      assert false;
    }
    assert n == |multiset(answer)| == |multiset(matching)| == |matching|;
    assert Covers(n, 1, |matching|);
    assert forall k: nat :: IsAnswer(clauses, matching, answers(k));
  }

  lemma RowComesTwice(answers: nat -> seq<Row>, n: nat, i: nat, row: Row)
    requires i + 1 < n && forall k: nat :: |answers(k)| == n
    requires answers(i)[i] == row && answers(i + 1)[i + 1] == row
    ensures multiset(Pages(answers, 1, n))[row] >= 2
  {
    SingleRowPages(answers, n, n);
    var pages := Pages(answers, 1, n);
    assert pages[i] == row && pages[i + 1] == row;
    TwiceInMultiset(pages, i, i + 1);
  }

  lemma {:induction false} SingleRowPages(answers: nat -> seq<Row>, total: nat, n: nat)
    requires n <= total && forall k: nat :: |answers(k)| == total
    ensures |Pages(answers, 1, n)| == n
    ensures forall k :: 0 <= k < n ==> Pages(answers, 1, n)[k] == answers(k)[k]
  {
    if n > 0 {
      SingleRowPages(answers, total, n - 1);
      assert |answers(n - 1)| == total;
      assert Page(answers(n - 1), 1, (n - 1) * 1) == [answers(n - 1)[n - 1]];
    }
  }

  /** Stepping through one answer by `stride` while each page is cut to `limit` rows. */
  ghost function Strided(answer: seq<Row>, stride: nat, limit: nat, n: nat): seq<Row>
  {
    if n == 0 then [] else Strided(answer, stride, limit, n - 1) + Page(answer, limit, (n - 1) * stride)
  }

  /**
   A client that advances by the limit it asked for sees every row exactly when the limit was not cut
   or one page holds everything; advancing by the returned limit always works.
   */
  lemma RequestedStrideIff(answer: seq<Row>, requested: nat, n: nat)
    requires requested >= 1 && Covers(n, requested, |answer|)
    ensures var limit := NormalizeLimitOffset(Some(requested), Some(0)).0;
            |Strided(answer, requested, limit, n)| == |answer| <==>
                requested <= MAX_PAGE_LIMIT || |answer| <= MAX_PAGE_LIMIT
    ensures var limit := NormalizeLimitOffset(Some(requested), Some(0)).0;
            requested <= MAX_PAGE_LIMIT ==> Strided(answer, requested, limit, n) == answer
  {
    var limit := NormalizeLimitOffset(Some(requested), Some(0)).0;
    StridedLength(answer, requested, limit, n);
    if requested <= MAX_PAGE_LIMIT {
      StridedIsPages(answer, requested, n);
      PagesArePrefix(k => answer, answer, requested, n);
      assert answer[..|answer|] == answer;
    } else if n == 0 {
    } else {
      FirstStride(answer, requested, limit, n);
    }
  }

  lemma {:induction false} StridedIsPages(answer: seq<Row>, limit: nat, n: nat)
    ensures Strided(answer, limit, limit, n) == Pages(k => answer, limit, n)
  {
    if n > 0 {
      StridedIsPages(answer, limit, n - 1);
    }
  }

  /** Rows skipped between one page and the next never come back. */
  lemma {:induction false} StridedLength(answer: seq<Row>, stride: nat, limit: nat, n: nat)
    requires limit <= stride
    ensures |Strided(answer, stride, limit, n)| <= Min(n * stride, |answer|)
  {
    if n > 0 {
      StridedLength(answer, stride, limit, n - 1);
      assert n * stride == (n - 1) * stride + stride;
    }
  }

  lemma {:induction false} FirstStride(answer: seq<Row>, stride: nat, limit: nat, n: nat)
    requires limit < stride && n >= 1
    ensures |answer| <= limit ==> |Strided(answer, stride, limit, n)| == |answer|
    ensures limit < |answer| ==> |Strided(answer, stride, limit, n)| < Min(n * stride, |answer|)
  {
    if n == 1 {
      assert Strided(answer, stride, limit, 0) == [];
    } else {
      FirstStride(answer, stride, limit, n - 1);
      assert n * stride == (n - 1) * stride + stride;
      assert (n - 1) * stride >= stride;
    }
  }
}
