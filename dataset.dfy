/** The song table shared by every page of the dashboard: the rows of the CSV
    file, the rows that survive loading, and the "order-preserving subsequence"
    relation that loading and filtering both respect. */
module Dataset {

  datatype Option<+T> = None | Some(value: T)

  datatype Result<+T, +E> = Success(value: T) | Failure(error: E)

  /** One row of the songs CSV file, with its six columns as read. */
  datatype RawSong = RawSong(
    title: string,
    artist: string,
    genre: string,
    releaseDate: string,
    popularity: int,
    duration: real)

  /** A row of the loaded dataset: the CSV row, unchanged, with the integer
      `release_year` column derived from its release date. */
  datatype Song = Song(row: RawSong, releaseYear: int)

  /** The CSV columns of a sequence of loaded rows, in order. */
  function Rows(songs: seq<Song>): seq<RawSong>
  {
    if songs == [] then [] else [songs[0].row] + Rows(songs[1..])
  }

  /** `xs` is `ys` with some elements removed and the rest kept in order. */
  predicate IsSubsequence<T(==)>(xs: seq<T>, ys: seq<T>)
    decreases |ys|
  {
    || xs == []
    || (&& ys != []
        && ((xs[0] == ys[0] && IsSubsequence(xs[1..], ys[1..])) || IsSubsequence(xs, ys[1..])))
  }
}
