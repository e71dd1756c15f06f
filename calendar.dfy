/** The `dates` aggregation of `_get_tweet_list`: a `defaultdict(list)` from year
    to the `(month, count)` pairs of that year's index entries, its keys kept in
    insertion order, the per-year totals and the descending year order of the
    all-time page. */
module Calendar {

  /** What the index loop records for one index entry. */
  datatype Tally = Tally(year: int, month: int, count: nat)

  /** One `(month, count)` pair of `dates[year]`. */
  datatype MonthRow = MonthRow(month: int, count: nat)

  /** One line of the all-time page: a year and the sum of its counts. */
  datatype YearRow = YearRow(year: int, total: nat)

  /** The keys of `dates`, in the order a Python dict iterates them: first appearance. */
  function YearsOf(ts: seq<Tally>): seq<int> {
    if ts == [] then []
    else
      var ys := YearsOf(ts[..|ts| - 1]);
      var y := ts[|ts| - 1].year;
      if y in ys then ys else ys + [y]
  }

  /** `dates[year]`: the pairs of that year's entries, in index order. */
  function Rows(ts: seq<Tally>, year: int): seq<MonthRow> {
    if ts == [] then []
    else
      var t := ts[|ts| - 1];
      Rows(ts[..|ts| - 1], year) + (if t.year == year then [MonthRow(t.month, t.count)] else [])
  }

  /** The whole `dates` dictionary. */
  function Dates(ts: seq<Tally>): map<int, seq<MonthRow>> {
    map y | y in YearsOf(ts) :: Rows(ts, y)
  }

  /** `sum([x[1] for x in rows])` */
  function Total(rows: seq<MonthRow>): nat {
    if rows == [] then 0 else Total(rows[..|rows| - 1]) + rows[|rows| - 1].count
  }

  predicate Distinct(xs: seq<int>) {
    forall i, j :: 0 <= i < j < |xs| ==> xs[i] != xs[j]
  }

  predicate StrictlyDescending(xs: seq<int>) {
    forall i, j :: 0 <= i < j < |xs| ==> xs[i] > xs[j]
  }

  /** Years are listed once each, in order of first appearance. */
  lemma {:induction false} YearsOfMembers(ts: seq<Tally>)
    ensures Distinct(YearsOf(ts))
    ensures forall y :: y in YearsOf(ts) <==> exists k :: 0 <= k < |ts| && ts[k].year == y
  {
    if ts != [] {
      var init := ts[..|ts| - 1];
      YearsOfMembers(init);
      forall y | exists k :: 0 <= k < |ts| && ts[k].year == y
        ensures y in YearsOf(ts)
      {
        var k :| 0 <= k < |ts| && ts[k].year == y;
        if k < |ts| - 1 {
          assert init[k] == ts[k];
        }
      }
    }
  }

  /** The index loop's update `dates[year].append((month, count))`, with the key
      order it implies, keeps `dates` equal to the dictionary of all tallies so far. */
  lemma DatesAppend(ts: seq<Tally>, t: Tally)
    ensures YearsOf(ts + [t]) == if t.year in YearsOf(ts) then YearsOf(ts) else YearsOf(ts) + [t.year]
    ensures var old_ := Dates(ts);
      Dates(ts + [t]) == old_[t.year := (if t.year in old_ then old_[t.year] else []) + [MonthRow(t.month, t.count)]]
  {
    var ts' := ts + [t];
    assert ts'[..|ts'| - 1] == ts;
    var d := Dates(ts);
    var d' := d[t.year := (if t.year in d then d[t.year] else []) + [MonthRow(t.month, t.count)]];
    RowsAbsent(ts, t.year);
    assert Dates(ts').Keys == d'.Keys;
    forall y | y in d'
      ensures Dates(ts')[y] == d'[y]
    {
      if y != t.year {
        assert Rows(ts', y) == Rows(ts, y) + [];
      }
    }
  }

  /** A year that no entry has has no rows. */
  lemma {:induction false} RowsAbsent(ts: seq<Tally>, year: int)
    ensures year !in YearsOf(ts) ==> Rows(ts, year) == []
  {
    if ts != [] {
      RowsAbsent(ts[..|ts| - 1], year);
    }
  }

  /** `dates[year]` keeps one pair per index entry of that year, in index order,
      without merging repeated months: the rows of a longer index are the rows of
      its first part followed by those of the rest. */
  lemma {:induction false} RowsAppend(a: seq<Tally>, b: seq<Tally>, year: int)
    ensures Rows(a + b, year) == Rows(a, year) + Rows(b, year)
    decreases |b|
  {
    if b == [] {
      assert a + b == a;
    } else {
      var init := b[..|b| - 1];
      assert (a + b)[..|a + b| - 1] == a + init;
      RowsAppend(a, init, year);
    }
  }

  /** A year's total adds up the counts of all its rows. */
  lemma {:induction false} TotalAppend(a: seq<MonthRow>, b: seq<MonthRow>)
    ensures Total(a + b) == Total(a) + Total(b)
    decreases |b|
  {
    if b == [] {
      assert a + b == a;
    } else {
      var init := b[..|b| - 1];
      assert (a + b)[..|a + b| - 1] == a + init;
      TotalAppend(a, init);
    }
  }

  /** So the all-time total of a year is the sum, over the index entries of that
      year, of their counts. */
  lemma {:induction false} YearTotalOfTallies(a: seq<Tally>, t: Tally, year: int)
    ensures Total(Rows(a + [t], year)) == Total(Rows(a, year)) + (if t.year == year then t.count else 0)
  {
    RowsAppend(a, [t], year);
    TotalAppend(Rows(a, year), Rows([t], year));
    assert [t][..0] == [];
  }

  function Insert(x: int, xs: seq<int>): seq<int> {
    if xs == [] || x >= xs[0] then [x] + xs else [xs[0]] + Insert(x, xs[1..])
  }

  /** `sorted(years, reverse=True)` */
  function SortDescending(xs: seq<int>): seq<int> {
    if xs == [] then [] else Insert(xs[0], SortDescending(xs[1..]))
  }

  lemma {:induction false} InsertKeepsOrder(x: int, xs: seq<int>)
    requires StrictlyDescending(xs) && x !in xs
    ensures StrictlyDescending(Insert(x, xs))
    ensures |Insert(x, xs)| == |xs| + 1
    ensures forall z :: z in Insert(x, xs) <==> z == x || z in xs
  {
    if xs != [] && x < xs[0] {
      var rest := xs[1..];
      InsertKeepsOrder(x, rest);
      assert forall z :: z in rest ==> z < xs[0] by {
        forall z | z in rest ensures z < xs[0] {
          var j :| 0 <= j < |rest| && rest[j] == z;
          assert xs[j + 1] == z;
        }
      }
      var r := Insert(x, rest);
      var out := [xs[0]] + r;
      assert out == Insert(x, xs);
      forall i, j | 0 <= i < j < |out| ensures out[i] > out[j] {
        assert out[j] == r[j - 1] && r[j - 1] in r;
        if i > 0 {
          assert out[i] == r[i - 1];
        }
      }
      assert xs == [xs[0]] + rest;
    }
  }

  /** Sorting distinct years gives them back strictly descending, each once:
      the same years, as many of them, none twice. */
  lemma {:induction false} SortDescendingSorts(xs: seq<int>)
    requires Distinct(xs)
    ensures StrictlyDescending(SortDescending(xs))
    ensures |SortDescending(xs)| == |xs|
    ensures forall z :: z in SortDescending(xs) <==> z in xs
  {
    if xs != [] {
      var rest := xs[1..];
      assert Distinct(rest) by {
        forall i, j | 0 <= i < j < |rest| ensures rest[i] != rest[j] {
          assert rest[i] == xs[i + 1] && rest[j] == xs[j + 1];
        }
      }
      SortDescendingSorts(rest);
      assert xs == [xs[0]] + rest;
      assert xs[0] !in rest;
      InsertKeepsOrder(xs[0], SortDescending(rest));
    }
  }

  /** Every year a sort puts in place is one it was given, so each one still has its list. */
  lemma {:induction false} InsertKeepsKeys(x: int, xs: seq<int>, dates: map<int, seq<MonthRow>>)
    requires x in dates && forall k :: 0 <= k < |xs| ==> xs[k] in dates
    ensures forall k :: 0 <= k < |Insert(x, xs)| ==> Insert(x, xs)[k] in dates
  {
    if xs != [] && x < xs[0] {
      InsertKeepsKeys(x, xs[1..], dates);
    }
  }

  lemma {:induction false} SortDescendingKeepsKeys(xs: seq<int>, dates: map<int, seq<MonthRow>>)
    requires forall k :: 0 <= k < |xs| ==> xs[k] in dates
    ensures forall k :: 0 <= k < |SortDescending(xs)| ==> SortDescending(xs)[k] in dates
  {
    if xs != [] {
      SortDescendingKeepsKeys(xs[1..], dates);
      InsertKeepsKeys(xs[0], SortDescending(xs[1..]), dates);
    }
  }

  /** One row per listed year, with that year's total. */
  function YearRows(ys: seq<int>, dates: map<int, seq<MonthRow>>): seq<YearRow>
    requires forall k :: 0 <= k < |ys| ==> ys[k] in dates
  {
    seq(|ys|, k requires 0 <= k < |ys| => YearRow(ys[k], Total(dates[ys[k]])))
  }

  /** The rows of the all-time page, built from the keys of `dates` and their lists. */
  function AllTimeRows(years: seq<int>, dates: map<int, seq<MonthRow>>): seq<YearRow>
    requires forall k :: 0 <= k < |years| ==> years[k] in dates
  {
    SortDescendingKeepsKeys(years, dates);
    YearRows(SortDescending(years), dates)
  }

  /** The all-time page lists each year of the index exactly once, strictly
      descending, each with the total of its rows. */
  lemma AllTimeRowsListsYears(ts: seq<Tally>)
    ensures var rows := AllTimeRows(YearsOf(ts), Dates(ts));
      && |rows| == |YearsOf(ts)|
      && (forall i, j :: 0 <= i < j < |rows| ==> rows[i].year > rows[j].year)
      && (forall i :: 0 <= i < |rows| ==> rows[i].year in YearsOf(ts))
      && (forall y :: y in YearsOf(ts) ==> exists i :: 0 <= i < |rows| && rows[i].year == y)
      && (forall i :: 0 <= i < |rows| ==> rows[i].total == Total(Rows(ts, rows[i].year)))
  {
    var ys := YearsOf(ts);
    YearsOfMembers(ts);
    SortDescendingSorts(ys);
    var sorted := SortDescending(ys);
    var rows := AllTimeRows(ys, Dates(ts));
    forall y | y in ys
      ensures exists i :: 0 <= i < |rows| && rows[i].year == y
    {
      assert y in sorted;
      var i :| 0 <= i < |sorted| && sorted[i] == y;
      assert rows[i].year == y;
    }
  }
}
