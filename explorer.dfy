/** The Interactive Song Explorer page: the sidebar's genre options and
    slider defaults, the guard against an empty genre selection, and the
    conjunctive row filter. */
module Explorer {
  import opened Dataset
  import opened Ordering
  import opened Summaries

  /** The popularity slider's fixed bounds and its initial selection. */
  const POPULARITY_MIN: int := 0
  const POPULARITY_MAX: int := 100
  const DEFAULT_POPULARITY_LOW: int := 50
  const DEFAULT_POPULARITY_HIGH: int := 100

  /** What the three sidebar widgets hold: the chosen genres and two closed
      ranges. */
  datatype Selection = Selection(
    genres: seq<string>,
    yearLow: int,
    yearHigh: int,
    popularityLow: int,
    popularityHigh: int)

  /** The page stops (`st.warning` then `st.stop`) instead of filtering. */
  datatype Halt = NoGenreSelected

  /** `sorted(df['Genre'].unique())`: the multiselect's options. */
  function GenreOptions(rows: seq<Song>): (options: seq<string>)
    ensures StrictlySorted(options, StrLess)
    ensures forall g :: g in options <==> exists s :: s in rows && s.row.genre == g
  {
    StrLessIsOrder();
    ColumnMembership(rows, GenreOf);
    SortedDistinct(Column(rows, GenreOf), StrLess)
  }

  /** `df['release_year'].min()` and `.max()`, the year slider's bounds. On
      no rows pandas gives NaN and `int(NaN)` raises: `None`. */
  function YearBounds(rows: seq<Song>): (bounds: Option<(int, int)>)
    ensures bounds.None? <==> rows == []
    ensures bounds.Some? ==> forall s :: s in rows ==> bounds.value.0 <= s.releaseYear <= bounds.value.1
    ensures bounds.Some? ==> exists s :: s in rows && s.releaseYear == bounds.value.0
    ensures bounds.Some? ==> exists s :: s in rows && s.releaseYear == bounds.value.1
  {
    if rows == [] then None
    else
      var y := rows[0].releaseYear;
      assert rows == [rows[0]] + rows[1..];
      match YearBounds(rows[1..])
      case None => Some((y, y))
      case Some((lo, hi)) => Some((if y < lo then y else lo, if y > hi then y else hi))
  }

  /** What the widgets let a selection hold: genres among the options, a
      year range inside the observed one, a popularity range inside [0, 100]. */
  predicate WithinWidgets(sel: Selection, rows: seq<Song>)
  {
    && (forall g :: g in sel.genres ==> g in GenreOptions(rows))
    && YearBounds(rows).Some?
    && YearBounds(rows).value.0 <= sel.yearLow <= sel.yearHigh <= YearBounds(rows).value.1
    && POPULARITY_MIN <= sel.popularityLow <= sel.popularityHigh <= POPULARITY_MAX
  }

  /** The sidebar as first shown: every genre, the observed year range and
      the popularity range [50, 100]. */
  function DefaultSelection(rows: seq<Song>): (sel: Option<Selection>)
    ensures sel.None? <==> rows == []
    ensures sel.Some? ==> sel.value.genres == GenreOptions(rows) && sel.value.genres != []
    ensures sel.Some? ==>
      sel.value.popularityLow == DEFAULT_POPULARITY_LOW && sel.value.popularityHigh == DEFAULT_POPULARITY_HIGH
    ensures sel.Some? ==> Some((sel.value.yearLow, sel.value.yearHigh)) == YearBounds(rows)
    ensures sel.Some? ==> WithinWidgets(sel.value, rows)
  {
    match YearBounds(rows)
    case None => None
    case Some((lo, hi)) =>
      assert rows[0].row.genre in GenreOptions(rows);
      Some(Selection(GenreOptions(rows), lo, hi, DEFAULT_POPULARITY_LOW, DEFAULT_POPULARITY_HIGH))
  }

  /** The filter's condition on one row. */
  predicate Matches(s: Song, sel: Selection)
  {
    && s.row.genre in sel.genres
    && sel.yearLow <= s.releaseYear <= sel.yearHigh
    && sel.popularityLow <= s.row.popularity <= sel.popularityHigh
  }

  /** `df[...]` with the five conjuncts: the matching rows in order. */
  function Select(rows: seq<Song>, sel: Selection): seq<Song>
  {
    if rows == [] then []
    else (if Matches(rows[0], sel) then [rows[0]] else []) + Select(rows[1..], sel)
  }

  lemma {:induction false} SelectMembership(rows: seq<Song>, sel: Selection)
    ensures forall s :: s in Select(rows, sel) <==> s in rows && Matches(s, sel)
  {
    if rows != [] {
      SelectMembership(rows[1..], sel);
      assert rows == [rows[0]] + rows[1..];
    }
  }

  /** A matching row occurs in the result as often as in the input, any other
      row not at all. */
  lemma {:induction false} SelectMultiplicity(rows: seq<Song>, sel: Selection)
    ensures forall s :: multiset(Select(rows, sel))[s] == if Matches(s, sel) then multiset(rows)[s] else 0
  {
    if rows != [] {
      SelectMultiplicity(rows[1..], sel);
      assert rows == [rows[0]] + rows[1..];
    }
  }

  lemma {:induction false} SelectIsSubsequence(rows: seq<Song>, sel: Selection)
    ensures IsSubsequence(Select(rows, sel), rows)
  {
    if rows != [] {
      SelectIsSubsequence(rows[1..], sel);
      if Matches(rows[0], sel) {
        var r := Select(rows, sel);
        assert r[0] == rows[0] && r[1..] == Select(rows[1..], sel);
      } else {
        assert Select(rows, sel) == Select(rows[1..], sel);
      }
    }
  }

  /** Filtering a filtered view again with the same selection changes nothing. */
  lemma {:induction false} SelectIdempotent(rows: seq<Song>, sel: Selection)
    ensures Select(Select(rows, sel), sel) == Select(rows, sel)
  {
    if rows != [] {
      SelectIdempotent(rows[1..], sel);
      if Matches(rows[0], sel) {
        var r := Select(rows, sel);
        assert r[0] == rows[0] && r[1..] == Select(rows[1..], sel);
      } else {
        assert Select(rows, sel) == Select(rows[1..], sel);
      }
    }
  }

  /** The filter logic of the explorer page: an empty genre selection stops the
      page with a warning; otherwise the result holds exactly the rows that
      match all five conditions, each as often as in the dataset, in their
      dataset order. */
  function Explore(rows: seq<Song>, sel: Selection): (r: Result<seq<Song>, Halt>)
    ensures r.Failure? <==> sel.genres == []
    ensures r.Success? ==> forall s :: s in r.value <==> s in rows && Matches(s, sel)
    ensures r.Success? ==> forall s :: multiset(r.value)[s] == if Matches(s, sel) then multiset(rows)[s] else 0
    ensures r.Success? ==> IsSubsequence(r.value, rows)
  {
    if sel.genres == [] then Failure(NoGenreSelected)
    else
      SelectMembership(rows, sel);
      SelectMultiplicity(rows, sel);
      SelectIsSubsequence(rows, sel);
      Success(Select(rows, sel))
  }

  lemma ExploreIdempotent(rows: seq<Song>, sel: Selection)
    ensures Explore(rows, sel).Success? ==> Explore(Explore(rows, sel).value, sel) == Explore(rows, sel)
  {
    SelectIdempotent(rows, sel);
  }

  /** With the sidebar as first shown the page never stops, and only the
      popularity range removes rows: every genre and every year is admitted. */
  lemma DefaultSelectionAdmits(rows: seq<Song>)
    requires rows != []
    ensures DefaultSelection(rows).Some?
    ensures Explore(rows, DefaultSelection(rows).value).Success?
    ensures forall s :: s in rows ==>
      (Matches(s, DefaultSelection(rows).value) <==> DEFAULT_POPULARITY_LOW <= s.row.popularity <= DEFAULT_POPULARITY_HIGH)
  {
  }
}
