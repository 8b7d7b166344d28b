/** The `groupby` summaries drawn on the Overview and Genre Deep Dive pages:
    songs per release year, and popularity per genre and per (year, genre).
    pandas orders the groups by key and makes one group per distinct key. The
    mean popularity is kept as the integer pair (size, popularity total) it is
    computed from. */
module Summaries {
  import opened Dataset
  import opened Ordering

  /** One row of a `groupby` result: the key, how many rows have it and the
      sum of their popularity. */
  datatype Group<K> = Group(key: K, size: nat, popularityTotal: int)

  function YearOf(s: Song): int
  {
    s.releaseYear
  }

  function GenreOf(s: Song): string
  {
    s.row.genre
  }

  function YearGenreOf(s: Song): (int, string)
  {
    (s.releaseYear, s.row.genre)
  }

  /** The column `key` of the rows, in row order. */
  function Column<K>(rows: seq<Song>, key: Song -> K): seq<K>
  {
    if rows == [] then [] else [key(rows[0])] + Column(rows[1..], key)
  }

  /** How many rows have key `k`. */
  function Size<K(==)>(rows: seq<Song>, key: Song -> K, k: K): nat
  {
    if rows == [] then 0
    else (if key(rows[0]) == k then 1 else 0) + Size(rows[1..], key, k)
  }

  /** The summed popularity of the rows with key `k`. */
  function PopularityTotal<K(==)>(rows: seq<Song>, key: Song -> K, k: K): int
  {
    if rows == [] then 0
    else (if key(rows[0]) == k then rows[0].row.popularity else 0) + PopularityTotal(rows[1..], key, k)
  }

  /** The summed popularity of all rows. */
  function PopularitySum(rows: seq<Song>): int
  {
    if rows == [] then 0 else rows[0].row.popularity + PopularitySum(rows[1..])
  }

  /** One group per key of `ks`, in the order of `ks`. */
  function Summarise<K(==)>(rows: seq<Song>, key: Song -> K, ks: seq<K>): seq<Group<K>>
  {
    if ks == [] then []
    else [Group(ks[0], Size(rows, key, ks[0]), PopularityTotal(rows, key, ks[0]))] + Summarise(rows, key, ks[1..])
  }

  /** `df.groupby(key)`: the distinct keys in ascending order, each with its
      size and popularity total. */
  function GroupBy<K(==, !new)>(rows: seq<Song>, key: Song -> K, less: (K, K) -> bool): seq<Group<K>>
    requires StrictTotalOrder(less)
  {
    Summarise(rows, key, SortedDistinct(Column(rows, key), less))
  }

  function GroupKeys<K>(gs: seq<Group<K>>): seq<K>
  {
    if gs == [] then [] else [gs[0].key] + GroupKeys(gs[1..])
  }

  function TotalSize<K>(gs: seq<Group<K>>): nat
  {
    if gs == [] then 0 else gs[0].size + TotalSize(gs[1..])
  }

  function TotalPopularity<K>(gs: seq<Group<K>>): int
  {
    if gs == [] then 0 else gs[0].popularityTotal + TotalPopularity(gs[1..])
  }

  lemma {:induction false} ColumnMembership<K>(rows: seq<Song>, key: Song -> K)
    ensures forall k :: k in Column(rows, key) <==> exists s :: s in rows && key(s) == k
  {
    if rows != [] {
      ColumnMembership(rows[1..], key);
      assert rows == [rows[0]] + rows[1..];
    }
  }

  lemma {:induction false} SizeIsMultiplicity<K>(rows: seq<Song>, key: Song -> K, k: K)
    ensures Size(rows, key, k) == multiset(Column(rows, key))[k]
  {
    if rows != [] {
      SizeIsMultiplicity(rows[1..], key, k);
    }
  }

  lemma {:induction false} SummariseShape<K>(rows: seq<Song>, key: Song -> K, ks: seq<K>)
    ensures |Summarise(rows, key, ks)| == |ks|
    ensures GroupKeys(Summarise(rows, key, ks)) == ks
    ensures forall i :: 0 <= i < |ks| ==>
      Summarise(rows, key, ks)[i] == Group(ks[i], Size(rows, key, ks[i]), PopularityTotal(rows, key, ks[i]))
  {
    if ks != [] {
      SummariseShape(rows, key, ks[1..]);
    }
  }

  /** Adding one row in front adds it to the group of its key, if that key is
      listed (keys listed once each), and to no other group. */
  lemma {:induction false} SummariseFirstRow<K(!new)>(rows: seq<Song>, key: Song -> K, ks: seq<K>, less: (K, K) -> bool)
    requires rows != []
    requires StrictTotalOrder(less)
    requires StrictlySorted(ks, less)
    ensures TotalSize(Summarise(rows, key, ks))
         == (if key(rows[0]) in ks then 1 else 0) + TotalSize(Summarise(rows[1..], key, ks))
    ensures TotalPopularity(Summarise(rows, key, ks))
         == (if key(rows[0]) in ks then rows[0].row.popularity else 0) + TotalPopularity(Summarise(rows[1..], key, ks))
  {
    if ks != [] {
      var x := key(rows[0]);
      SummariseFirstRow(rows, key, ks[1..], less);
      assert ks == [ks[0]] + ks[1..];
      if ks[0] == x {
        assert forall j :: 0 <= j < |ks[1..]| ==> less(x, ks[1..][j]);
        assert x !in ks[1..];
      }
      var here := Summarise(rows, key, ks);
      var there := Summarise(rows[1..], key, ks);
      assert here[0].size == Size(rows, key, ks[0]) && here[1..] == Summarise(rows, key, ks[1..]);
      assert there[0].size == Size(rows[1..], key, ks[0]) && there[1..] == Summarise(rows[1..], key, ks[1..]);
    }
  }

  /** Group sizes add up to the number of rows, and group totals to the total
      popularity, when the keys are listed once each and cover every row. */
  lemma {:induction false} SummariseAddsUp<K(!new)>(rows: seq<Song>, key: Song -> K, ks: seq<K>, less: (K, K) -> bool)
    requires StrictTotalOrder(less)
    requires StrictlySorted(ks, less)
    requires forall s :: s in rows ==> key(s) in ks
    ensures TotalSize(Summarise(rows, key, ks)) == |rows|
    ensures TotalPopularity(Summarise(rows, key, ks)) == PopularitySum(rows)
  {
    if rows == [] {
      SummariseEmpty(key, ks);
    } else {
      assert rows == [rows[0]] + rows[1..];
      SummariseAddsUp(rows[1..], key, ks, less);
      SummariseFirstRow(rows, key, ks, less);
    }
  }

  lemma {:induction false} SummariseEmpty<K>(key: Song -> K, ks: seq<K>)
    ensures TotalSize(Summarise([], key, ks)) == 0
    ensures TotalPopularity(Summarise([], key, ks)) == 0
  {
    if ks != [] {
      SummariseEmpty(key, ks[1..]);
    }
  }

  lemma {:induction false} SizeOfPresentKey<K>(rows: seq<Song>, key: Song -> K, k: K)
    requires k in Column(rows, key)
    ensures Size(rows, key, k) >= 1
  {
    if key(rows[0]) != k {
      SizeOfPresentKey(rows[1..], key, k);
    }
  }

  /** What pandas promises of a `groupby`: keys ascending and distinct, one
      group for each key present and none other, each group's size the number
      of rows with its key (so at least 1) and its total their popularity
      sum; sizes add up to the row count and totals to the overall sum. */
  lemma GroupByLaws<K(!new)>(rows: seq<Song>, key: Song -> K, less: (K, K) -> bool)
    requires StrictTotalOrder(less)
    ensures var gs := GroupBy(rows, key, less);
      && StrictlySorted(GroupKeys(gs), less)
      && (forall k :: k in GroupKeys(gs) <==> exists s :: s in rows && key(s) == k)
      && (forall i :: 0 <= i < |gs| ==> 1 <= gs[i].size == multiset(Column(rows, key))[gs[i].key])
      && (forall i :: 0 <= i < |gs| ==> gs[i].popularityTotal == PopularityTotal(rows, key, gs[i].key))
      && TotalSize(gs) == |rows|
      && TotalPopularity(gs) == PopularitySum(rows)
  {
    var column := Column(rows, key);
    var ks := SortedDistinct(column, less);
    var gs := GroupBy(rows, key, less);
    SummariseShape(rows, key, ks);
    ColumnMembership(rows, key);
    forall i | 0 <= i < |gs| ensures 1 <= gs[i].size == multiset(column)[gs[i].key] {
      SizeIsMultiplicity(rows, key, ks[i]);
      SizeOfPresentKey(rows, key, ks[i]);
    }
    SummariseAddsUp(rows, key, ks, less);
  }

  /** The mean popularity of a group lies within the popularity range of its
      rows: size * lo <= total <= size * hi. */
  lemma {:induction false} GroupPopularityWithin<K>(rows: seq<Song>, key: Song -> K, k: K, lo: int, hi: int)
    requires forall s :: s in rows && key(s) == k ==> lo <= s.row.popularity <= hi
    ensures Size(rows, key, k) * lo <= PopularityTotal(rows, key, k) <= Size(rows, key, k) * hi
  {
    if rows != [] {
      assert forall s :: s in rows[1..] ==> s in rows;
      GroupPopularityWithin(rows[1..], key, k, lo, hi);
      var n := Size(rows[1..], key, k);
      if key(rows[0]) == k {
        assert (n + 1) * lo == n * lo + lo && (n + 1) * hi == n * hi + hi;
      }
    }
  }

  /** One row of `groupby('release_year').size().reset_index(name='song_count')`. */
  datatype YearCount = YearCount(year: int, songCount: nat)

  /** Keeps only the key and the size of each group. */
  function YearCounts(gs: seq<Group<int>>): (ys: seq<YearCount>)
    ensures |ys| == |gs|
    ensures forall i :: 0 <= i < |gs| ==> ys[i] == YearCount(gs[i].key, gs[i].size)
  {
    if gs == [] then [] else [YearCount(gs[0].key, gs[0].size)] + YearCounts(gs[1..])
  }

  function Years(ys: seq<YearCount>): seq<int>
  {
    if ys == [] then [] else [ys[0].year] + Years(ys[1..])
  }

  function TotalSongCount(ys: seq<YearCount>): nat
  {
    if ys == [] then 0 else ys[0].songCount + TotalSongCount(ys[1..])
  }

  lemma {:induction false} YearCountsKeepGroups(gs: seq<Group<int>>)
    ensures Years(YearCounts(gs)) == GroupKeys(gs)
    ensures TotalSongCount(YearCounts(gs)) == TotalSize(gs)
  {
    if gs != [] {
      YearCountsKeepGroups(gs[1..]);
    }
  }

  /** `df.groupby('release_year').size()`: one (year, song count) row per
      year present, years ascending. */
  function SongsPerYear(rows: seq<Song>): (ys: seq<YearCount>)
    ensures StrictlySorted(Years(ys), IntLess)
    ensures forall y :: y in Years(ys) <==> exists s :: s in rows && s.releaseYear == y
    ensures forall i :: 0 <= i < |ys| ==> 1 <= ys[i].songCount == multiset(Column(rows, YearOf))[ys[i].year]
    ensures TotalSongCount(ys) == |rows|
  {
    IntLessIsOrder();
    GroupByLaws(rows, YearOf, IntLess);
    YearCountsKeepGroups(GroupBy(rows, YearOf, IntLess));
    YearCounts(GroupBy(rows, YearOf, IntLess))
  }

  /** `df.groupby('Genre')['Popularity'].mean()`, as size and total. */
  function PopularityByGenre(rows: seq<Song>): (gs: seq<Group<string>>)
    ensures StrictlySorted(GroupKeys(gs), StrLess)
    ensures forall g :: g in GroupKeys(gs) <==> exists s :: s in rows && s.row.genre == g
    ensures forall i :: 0 <= i < |gs| ==> 1 <= gs[i].size == multiset(Column(rows, GenreOf))[gs[i].key]
    ensures forall i :: 0 <= i < |gs| ==> gs[i].popularityTotal == PopularityTotal(rows, GenreOf, gs[i].key)
    ensures TotalSize(gs) == |rows| && TotalPopularity(gs) == PopularitySum(rows)
  {
    StrLessIsOrder();
    GroupByLaws(rows, GenreOf, StrLess);
    GroupBy(rows, GenreOf, StrLess)
  }

  /** `df.groupby(['release_year', 'Genre'])['Popularity'].mean()`, as size
      and total. */
  function PopularityByYearGenre(rows: seq<Song>): (gs: seq<Group<(int, string)>>)
    ensures StrictlySorted(GroupKeys(gs), YearGenreLess)
    ensures forall k :: k in GroupKeys(gs) <==> exists s :: s in rows && (s.releaseYear, s.row.genre) == k
    ensures forall i :: 0 <= i < |gs| ==> 1 <= gs[i].size == multiset(Column(rows, YearGenreOf))[gs[i].key]
    ensures forall i :: 0 <= i < |gs| ==> gs[i].popularityTotal == PopularityTotal(rows, YearGenreOf, gs[i].key)
    ensures TotalSize(gs) == |rows| && TotalPopularity(gs) == PopularitySum(rows)
  {
    YearGenreLessIsOrder();
    GroupByLaws(rows, YearGenreOf, YearGenreLess);
    GroupBy(rows, YearGenreOf, YearGenreLess)
  }
}
