# Songs dashboard: the row logic under the pages

The dashboard (`Python_project.py`) is a Streamlit script over a CSV of
songs released 2000–2020. Every page reads the same table. This project
models the authored logic that sits under those pages, over a `seq<Song>`:

- the loader `load_data`: it parses each row's `Release Date` in the
  day-month-year format and derives `release_year`. Rows whose date does
  not parse are dropped. A missing file, or any other failure, ends the
  page with an error;
- the `groupby` summaries: songs per release year, and popularity per
  genre and per (year, genre). Each group is kept as its integer size and
  popularity total, with groups ordered by key as pandas orders them;
- the Interactive Song Explorer:
  - the sorted genre option list;
  - the observed year bounds and the popularity slider's literal defaults;
  - the empty-selection guard;
  - the five-part filter.

Modules, one file each:

- `Dataset` (dataset.dfy): the row types and the "order-preserving
  subsequence" relation.
- `Ordering` (ordering.dfy): the orders used for sorting. Integers,
  Python's code-point order on `str`, and (year, genre) pairs. Also the
  sorted de-duplication that `sorted(unique())` and `groupby` perform.
- `Loader` (loader.dfy): `load_data`, as a method with loops, proved
  against the function `Cleaned`.
- `Summaries` (summaries.dfy): a generic `GroupBy(rows, key, order)`, its
  laws, and the three summaries the pages draw.
- `Explorer` (explorer.dfy): the genre options, the slider bounds and
  defaults, `Select` (the filter), and `Explore` (guard, then filter).

The date parser (`pd.to_datetime(..., format='%d-%m-%Y', errors='coerce')`
followed by `.dt.year`) is a parameter, `parseYear: string -> Option<int>`.
It gives the year, or `None` where pandas would produce a missing date.
Reading the file is a parameter too: a `CsvRead` value that is either
`FileMissing`, `ReadFailed(reason)`, or `Table(columns, rows)`.

The model follows what the code does in three places where a reader of the
page might expect something else:

- The genre selection is the multiselect's list, tested with `isin`, not a
  set. So `Selection.genres` is a `seq<string>`, and "empty" means the
  empty list.
- On an empty dataset, `int(df['release_year'].min())` raises (the minimum
  is NaN), and nothing catches it. So `YearBounds` and `DefaultSelection`
  return `None` for no rows.
- `load_data` looks up only the 'Release Date' column (lines 21-27). A file
  that lacks another column the pages use, such as 'Genre' or
  'Popularity', still loads: `LoadData` returns `Success`, and the failure
  comes later, when a page looks that column up. `LoadData` fails on a
  missing column only for 'Release Date'.

## Model

| member | source | states |
|---|---|---|
| `Loader.LoadData` | Python_project.py:18-34 | A missing file gives `NotFound` with the file's path. A read failure gives `LoadFailed` with its reason, and so does a table without a 'Release Date' column. Otherwise the result is `Cleaned(rows)`. Its two loops build the parsed year column and then drop the rows without a year, as lines 23-27 do step by step. |
| `Loader.CleanedMembership` | Python_project.py:23-27 | A row is in the loaded dataset iff it is a row of the file, its date parses, and it carries exactly the parsed year. So every surviving row has an integer year that agrees with its date, and no unparseable row survives. |
| `Loader.CleanedIsSubsequence` | Python_project.py:26 | Loading only removes rows. The CSV columns of the loaded rows are an order-preserving subsequence of the file's rows, with their fields unchanged. |
| `Loader.CleanedMultiplicity` | Python_project.py:23-26 | Each file row occurs in the loaded data exactly as often as in the file if its date parses, and 0 times otherwise. |
| `Loader.CleanedAppend` | Python_project.py:23-26 | The clean-up works row by row: cleaning `a + b` gives cleaned `a` followed by cleaned `b`. This is what lets the loop build the result incrementally. |
| `Ordering.StrLessIsOrder` | Python_project.py:198 | Python's code-point order on strings, used by `sorted` and the genre `groupby`, is a strict total order. |
| `Ordering.StrLessIrreflexive` | Python_project.py:198 | No string sorts before itself. |
| `Ordering.StrLessTransitive` | Python_project.py:198 | The string order is transitive. |
| `Ordering.StrLessTotal` | Python_project.py:198 | Of two different strings, one sorts first. |
| `Ordering.YearGenreLessIsOrder` | Python_project.py:135 | The (year, then genre) order of a two-key `groupby` is a strict total order. |
| `Ordering.Insert` | Python_project.py:198 | Inserting into a strictly ascending list keeps it strictly ascending. The result holds exactly the old elements plus the new one. |
| `Ordering.SortedDistinct` | Python_project.py:198 | `sorted(unique(s))` is strictly ascending, so it has no duplicates. It holds exactly the values that occur in `s`. |
| `Summaries.GroupByLaws` | Python_project.py:94-135 | For any key column, `groupby` gives keys strictly ascending. There is one group per key present and none other. A group's size is the number of rows with its key, so it is at least 1. Its total is those rows' popularity sum. Sizes add up to the row count, and totals to the overall popularity sum. |
| `Summaries.SongsPerYear` | Python_project.py:94 | The result is a list of (year, song count) rows. Years are strictly ascending, and they are exactly the years present. Each count is the number of songs of that year, so it is at least 1. The counts sum to the number of loaded rows. |
| `Summaries.PopularityByGenre` | Python_project.py:125 | Genres are strictly ascending in string order, and they are exactly the genres present. Each group's size is its row count (at least 1). Each group's total is its popularity sum. Sizes sum to the row count, and totals to the overall sum. |
| `Summaries.PopularityByYearGenre` | Python_project.py:135 | The same laws, keyed by (year, genre) pairs in year-then-genre order. |
| `Summaries.GroupPopularityWithin` | Python_project.py:125 | The mean popularity of a group lies within the popularity range of its rows: `size * lo <= total <= size * hi`. |
| `Summaries.SummariseAddsUp` | Python_project.py:94 | When keys are listed once each and cover every row, group sizes sum to the row count and group totals to the popularity sum. |
| `Explorer.GenreOptions` | Python_project.py:198 | The genre options are strictly ascending (so no duplicates), and they are exactly the genres present in the data. |
| `Explorer.YearBounds` | Python_project.py:206 | `None` iff there are no rows. Otherwise `(min, max)` bounds every row's year, and both values are attained by some row. |
| `Explorer.DefaultSelection` | Python_project.py:197-220 | The defaults are all genre options, the observed (min, max) years, and popularity `(50, 100)`. For a non-empty dataset the genre list is non-empty and within the widgets' bounds. |
| `Explorer.DefaultSelectionAdmits` | Python_project.py:198-220 | With the default sidebar the page does not stop. A row is kept iff its popularity lies in [50, 100]: no row is excluded on genre or year grounds. |
| `Explorer.SelectMembership` | Python_project.py:227-233 | A row is in the filtered result iff it is in the input, its genre is selected, `yearLow <= release_year <= yearHigh`, and `popularityLow <= Popularity <= popularityHigh`. |
| `Explorer.SelectMultiplicity` | Python_project.py:227-233 | A matching row occurs in the result as often as in the input. A non-matching row does not occur. |
| `Explorer.SelectIsSubsequence` | Python_project.py:227-233 | The filtered result is an order-preserving subsequence of the input. |
| `Explorer.SelectIdempotent` | Python_project.py:227-233 | Filtering the filtered result with the same selection returns it unchanged. |
| `Explorer.Explore` | Python_project.py:222-233 | An empty genre selection stops the page, and no filtered result is produced. Otherwise the result holds exactly the matching rows, each as often as in the dataset, as an order-preserving subsequence of the dataset. |
| `Explorer.ExploreIdempotent` | Python_project.py:222-233 | Running the page's filter again on its own result returns the same result. |

## Left out

- Streamlit calls are not modelled, since they are UI. This covers page config, the sidebar, page selection, headers, metrics, `st.dataframe`, the audio player and its missing-file warning. `st.error`/`st.warning` followed by `st.stop` is modelled only as a `Failure` value.
- Reading the CSV (`pd.read_csv`) is file I/O. It is the `CsvRead` parameter.
- The internals of `pd.to_datetime` are foreign library code: its calendar rules and what counts as a valid `%d-%m-%Y` date. The parser is the `parseYear` parameter, so the claim that a year has 4 digits is not modelled.
- `release_datetime`, the intermediate datetime column, is not kept. Only the year derived from it is.
- Float means, and their `.2f` formatting, are left out. Each group carries its integer size and popularity total, from which the mean is computed.
- The page 1 key metrics are display-only: song count, `nunique` of genres and artists, and mean popularity.
- Altair charts are library-defined plotting. This includes the `count()` bar chart of genres sorted by `-y`, the `maxbins=30` popularity histogram, and the scatter plot. The per-genre row count those charts show equals the group `size` of `PopularityByGenre`.
- `df.sample(5000)` is an unseeded random sample, with no output that can be stated.
- `st.cache_data` memoisation of the loader is framework behaviour. The loader is a method called once.
- "Filtering never alters the base rows" holds by construction: rows are immutable values, so `Select` and `Explore` cannot change their input.
- Display column order and the row count heading (lines 236-239) are presentation.
- Missing cells (NaN) in 'Genre' and 'Popularity' are not modelled: every row's genre is a string and its popularity an integer. In pandas, `groupby` drops rows whose genre is NaN (lines 125 and 135), so with such rows the group sizes would no longer add up to the row count. `sorted(df['Genre'].unique())` raises a `TypeError` when NaN is among the strings (line 198). A NaN popularity fails both filter comparisons (lines 231-232), and `mean()` skips it. The laws of `GroupByLaws`, `SongsPerYear`, `PopularityByGenre`, `PopularityByYearGenre` and `GenreOptions` hold only under this assumption.
