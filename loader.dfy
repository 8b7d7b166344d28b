/** `load_data`: read the songs CSV, derive `release_year` from the
    day-month-year release date, drop the rows whose date does not parse.
    Reading the file and pandas' date parser are outside the model: the first
    is the `CsvRead` value handed in, the second the `parseYear` parameter,
    which gives the year of a `%d-%m-%Y` date or `None` where pandas coerces
    the cell to a missing date. */
module Loader {
  import opened Dataset

  const DATA_FILE: string := "songs_2000_2020_50k.csv"
  const RELEASE_DATE_COLUMN: string := "Release Date"

  /** What `pd.read_csv` produced. */
  datatype CsvRead =
    | FileMissing
    | ReadFailed(reason: string)
    | Table(columns: seq<string>, rows: seq<RawSong>)

  /** Both end the page with a message (`st.error` then `st.stop`). */
  datatype LoadError = NotFound(path: string) | LoadFailed(reason: string)

  /** One row after loading: gone if its date does not parse, else with its year. */
  function Kept(row: RawSong, parseYear: string -> Option<int>): seq<Song>
  {
    match parseYear(row.releaseDate)
    case None => []
    case Some(year) => [Song(row, year)]
  }

  /** The rows that keep a release year, each with that year, in file order. */
  function Cleaned(rows: seq<RawSong>, parseYear: string -> Option<int>): seq<Song>
  {
    if rows == [] then [] else Kept(rows[0], parseYear) + Cleaned(rows[1..], parseYear)
  }

  lemma {:induction false} CleanedAppend(a: seq<RawSong>, b: seq<RawSong>, parseYear: string -> Option<int>)
    ensures Cleaned(a + b, parseYear) == Cleaned(a, parseYear) + Cleaned(b, parseYear)
  {
    if a != [] {
      assert (a + b)[0] == a[0] && (a + b)[1..] == a[1..] + b;
      CleanedAppend(a[1..], b, parseYear);
      calc {
        Cleaned(a + b, parseYear);
        Kept(a[0], parseYear) + Cleaned(a[1..] + b, parseYear);
        Kept(a[0], parseYear) + (Cleaned(a[1..], parseYear) + Cleaned(b, parseYear));
        (Kept(a[0], parseYear) + Cleaned(a[1..], parseYear)) + Cleaned(b, parseYear);
        Cleaned(a, parseYear) + Cleaned(b, parseYear);
      }
    } else {
      assert a + b == b;
    }
  }

  /** A loaded row is a row of the file whose date parsed, carrying the year
      that was parsed; every such row is loaded. */
  lemma {:induction false} CleanedMembership(rows: seq<RawSong>, parseYear: string -> Option<int>, s: Song)
    ensures s in Cleaned(rows, parseYear) <==> s.row in rows && parseYear(s.row.releaseDate) == Some(s.releaseYear)
  {
    if rows != [] {
      CleanedMembership(rows[1..], parseYear, s);
      assert rows == [rows[0]] + rows[1..];
    }
  }

  /** Loading only removes rows: what remains is the file's rows in their
      original order, with their columns untouched. */
  lemma {:induction false} CleanedIsSubsequence(rows: seq<RawSong>, parseYear: string -> Option<int>)
    ensures IsSubsequence(Rows(Cleaned(rows, parseYear)), rows)
  {
    if rows != [] {
      CleanedIsSubsequence(rows[1..], parseYear);
      var rest := Rows(Cleaned(rows[1..], parseYear));
      if parseYear(rows[0].releaseDate).None? {
        assert Cleaned(rows, parseYear) == Cleaned(rows[1..], parseYear);
      } else {
        RowsOfKept(rows, parseYear);
      }
    }
  }

  lemma RowsOfKept(rows: seq<RawSong>, parseYear: string -> Option<int>)
    requires rows != [] && parseYear(rows[0].releaseDate).Some?
    ensures Rows(Cleaned(rows, parseYear)) == [rows[0]] + Rows(Cleaned(rows[1..], parseYear))
  {
  }

  /** Each row of the file occurs in the loaded dataset exactly as often as in
      the file if its date parses, and not at all otherwise. */
  lemma {:induction false} CleanedMultiplicity(rows: seq<RawSong>, parseYear: string -> Option<int>, x: RawSong)
    ensures multiset(Rows(Cleaned(rows, parseYear)))[x]
         == if parseYear(x.releaseDate).Some? then multiset(rows)[x] else 0
  {
    if rows != [] {
      CleanedMultiplicity(rows[1..], parseYear, x);
      assert rows == [rows[0]] + rows[1..];
      if parseYear(rows[0].releaseDate).None? {
        assert Cleaned(rows, parseYear) == Cleaned(rows[1..], parseYear);
      } else {
        RowsOfKept(rows, parseYear);
      }
    }
  }

  /** `load_data`. A missing file and any other failure while loading end in
      an error; a missing 'Release Date' column is such a failure (the column
      lookup raises). Otherwise the result is `Cleaned`, built the way the
      source builds it: first the parsed year column, then the rows without a
      year are dropped. */
  method LoadData(source: CsvRead, parseYear: string -> Option<int>) returns (r: Result<seq<Song>, LoadError>)
    ensures source.FileMissing? ==> r == Failure(NotFound(DATA_FILE))
    ensures source.ReadFailed? ==> r == Failure(LoadFailed(source.reason))
    ensures source.Table? && RELEASE_DATE_COLUMN !in source.columns ==> r.Failure? && r.error.LoadFailed?
    ensures source.Table? && RELEASE_DATE_COLUMN in source.columns ==> r == Success(Cleaned(source.rows, parseYear))
  {
    match source
    case FileMissing =>
      return Failure(NotFound(DATA_FILE));
    case ReadFailed(reason) =>
      return Failure(LoadFailed(reason));
    case Table(columns, rows) =>
      if RELEASE_DATE_COLUMN !in columns {
        return Failure(LoadFailed("KeyError: 'Release Date'"));
      }
      // release_datetime / release_year: one parsed year per row
      var years: seq<Option<int>> := [];
      var i := 0;
      while i < |rows|
        invariant 0 <= i <= |rows|
        invariant |years| == i
        invariant forall k :: 0 <= k < i ==> years[k] == parseYear(rows[k].releaseDate)
      {
        years := years + [parseYear(rows[i].releaseDate)];
        i := i + 1;
      }
      // dropna(subset=['release_year']), then the year as an integer
      var kept: seq<Song> := [];
      i := 0;
      while i < |rows|
        invariant 0 <= i <= |rows|
        invariant kept == Cleaned(rows[..i], parseYear)
      {
        assert rows[..i + 1] == rows[..i] + [rows[i]];
        CleanedAppend(rows[..i], [rows[i]], parseYear);
        if years[i].Some? {
          kept := kept + [Song(rows[i], years[i].value)];
        }
        i := i + 1;
      }
      assert rows[..|rows|] == rows;
      return Success(kept);
  }
}
