# YBSNow Orders table extraction, modelled in Dafny

The YBSNow order scraper logs into a web portal, fetches the authenticated
Orders page, picks the Orders table out of its HTML, cleans the table and
writes it out as CSV, Excel and SQLite. This project models the three
deterministic pieces of `Ybsnow_Order_Scraper.py`. The network, the HTML
parser and the file writers are replaced by abstract inputs.

- **Table choice** (`YBSNowScraper.parse_orders_table`, module `TableChoice`).
  A page is represented by two things. The first is what BeautifulSoup's `find`
  plus `pd.read_html` make of each of the three known selectors: no match, a
  list of tables, or an exception. The second is what `pd.read_html` reads
  from the whole page: a list of tables, a `ValueError` (caught, leaving no
  tables), or another exception (not caught).
  - The fast path tries the selectors in order. The first selector that yields
    a non-empty list, or that raises, settles the outcome.
  - Otherwise a loop scores every table. It keeps a running maximum that starts
    at -1 and replaces it only on a strict `>`, so ties go to the earliest
    table. Only tables with more than one column and at least one row compete.
  - If no table competes, the first table is used. If there are no tables at
    all, the choice fails with "No HTML tables found on Orders page."
  - `ChooseBest` and `ParseOrdersTable` are loops. They are proved against a
    declarative argmax (`IsBest`) and a specification function (`ParseSpec`).
- **Column cleaning** (`YBSNowScraper._clean_df`, module `Cleaning`).
  - A DataFrame is modelled column by column. Each column has a label, whether
    its dtype is `object` (`isText`), and its cells: `Null`, `Text`, or `Other`
    (a non-string value, carried as the text `str()` gives for it).
  - Labels are stripped and their line breaks become spaces.
  - Columns whose cells are all missing are dropped.
  - Then a loop overwrites each `object` column with its cells rendered by
    `str` and stripped. A missing cell in such a column becomes "nan".
  - Looking up a label that two kept columns share returns a DataFrame, whose
    `.dtype` raises. The model keeps that failure.
- **Configuration resolution** (`build_cfg` with `load_config_from_env`,
  module `Config`). It is pure string logic over the parsed options and an
  environment map:
  - each command-line value wins when it is non-empty; otherwise the
    environment value is used;
  - the login URL is derived from the base URL when no login URL is given;
  - resolution fails first on a missing orders URL, then on a missing email or
    password.

The script does not lower-case header labels, check for required columns,
backfill optional columns, sort or de-duplicate rows, or write a JSON file, and
the model adds none of these.

Python's `str.strip()` is modelled with Python's exact whitespace set
(`str.isspace`). `str.lower()` is modelled for ASCII letters only.

## Model

| member | source | states |
|---|---|---|
| Strings.Strip | Ybsnow_Order_Scraper.py:170 | the result has no whitespace at either end, and an already stripped string is returned unchanged |
| Strings.StripTrimmed | Ybsnow_Order_Scraper.py:170 | the result is one slice of the input, and everything outside that slice is whitespace |
| Strings.ReplaceNewlines | Ybsnow_Order_Scraper.py:170 | same length; each line break becomes a space and every other character stays in place, so no line break is left |
| Strings.IsSpace | Ybsnow_Order_Scraper.py:170 | Python's `str.isspace` for one character: the characters `strip()` removes (definition) |
| Strings.Lower | Ybsnow_Order_Scraper.py:156 | same length; no ASCII capital is left, each one is replaced by its small letter at the same position, and every other character is unchanged |
| Strings.Contains | Ybsnow_Order_Scraper.py:156 | Python's substring test `needle in hay`: the needle occurs as a contiguous slice at some position (definition) |
| Strings.RStripChar | Ybsnow_Order_Scraper.py:338 | the result is a prefix of the input, no longer ends with the character, and only that character was removed |
| Cleaning.NormalizeHeader | Ybsnow_Order_Scraper.py:170 | `str(c).strip().replace("\n", " ")` for one label: strip first, then replace line breaks (definition; its properties are in `NormalizeHeaderFacts`) |
| Cleaning.NormalizeHeaderFacts | Ybsnow_Order_Scraper.py:170 | a normalised label is the stripped label with each line break turned into a space; it has no line break and no surrounding whitespace, and a label that is already normal is a fixed point |
| Cleaning.RenameColumns | Ybsnow_Order_Scraper.py:170 | the reassignment of `df.columns`: as many columns as before (each relabelled, proved in `RenameColumnsAt`) |
| Cleaning.DropEmpty | Ybsnow_Order_Scraper.py:172 | `dropna(axis=1, how="all")` (definition; `DropEmptyAt` and `KeptIndices` state which columns remain) |
| Cleaning.KeptIndices | Ybsnow_Order_Scraper.py:172 | the kept positions are in range and strictly increasing (order preserved), and a column is kept exactly when not all of its cells are missing |
| Cleaning.TrimColumn | Ybsnow_Order_Scraper.py:174-176 | one loop step: an `object` column gets its cells stripped, any other column is left as it is (definition; properties in `TrimColumnFacts`) |
| Cleaning.TrimColumns | Ybsnow_Order_Scraper.py:174-176 | the loop's effect when it does not fail: every column stripped in place, as many columns as before |
| Cleaning.StripSpec | Ybsnow_Order_Scraper.py:174-176 | what the stripping loop yields: the duplicate-label error when two columns share a label, otherwise every column stripped (definition, proved equal to the loop `StripTextColumns`) |
| Cleaning.CleanSpec | Ybsnow_Order_Scraper.py:168-177 | what `_clean_df` returns: relabel, drop empty columns, strip, keeping the row count (definition; properties in `CleaningProperties`) |
| Cleaning.TrimCells | Ybsnow_Order_Scraper.py:176 | `.astype(str).str.strip()` over one column's cells: as many cells as before, each `TrimCell` of the original (pointwise in `TrimCellsAt`) |
| Cleaning.TrimCell | Ybsnow_Order_Scraper.py:176 | a cell of an `object` column becomes stripped text; a missing cell becomes "nan" |
| Cleaning.CleanFrame | Ybsnow_Order_Scraper.py:168-177 | the rename, drop and in-place overwrite loop returns exactly the cleaned frame or the duplicate-label error |
| Cleaning.StripTextColumns | Ybsnow_Order_Scraper.py:174-176 | the loop overwrites every `object` column with its stripped cells and leaves the others alone; it fails exactly when some label is shared by two columns |
| CleaningProperties.RenameColumnsAt | Ybsnow_Order_Scraper.py:170 | relabelling replaces each label by its normalised form and keeps every column's kind and cells in place |
| CleaningProperties.DropEmptyAt | Ybsnow_Order_Scraper.py:172 | the columns left by the drop are exactly the input columns at the kept positions, in their order |
| CleaningProperties.KeptIndicesIgnoreNames | Ybsnow_Order_Scraper.py:170-172 | renaming the labels does not change which columns the drop removes |
| CleaningProperties.KeptColumns | Ybsnow_Order_Scraper.py:170-172 | the stripping loop receives the columns that are not all missing, in input order, relabelled |
| CleaningProperties.TrimColumnFacts | Ybsnow_Order_Scraper.py:174-176 | stripping keeps a column's label, kind and length, turns an `object` column into stripped text, leaves other columns unchanged, and keeps a column that is not all missing so |
| CleaningProperties.CleanColumns | Ybsnow_Order_Scraper.py:168-177 | the k-th cleaned column is the k-th kept input column, relabelled and, if `object`, stripped; the row count is unchanged |
| CleaningProperties.CleanFailsOnSharedLabel | Ybsnow_Order_Scraper.py:174-176 | cleaning fails exactly when two kept columns get the same normalised label |
| CleaningProperties.CleanHeaders | Ybsnow_Order_Scraper.py:170 | every cleaned label is free of line breaks and surrounding whitespace |
| CleaningProperties.CleanCells | Ybsnow_Order_Scraper.py:172-176 | `object` columns hold only stripped text, no column is all missing, and a well-formed frame stays well-formed |
| CleaningProperties.CleanIdempotent | Ybsnow_Order_Scraper.py:168-177 | cleaning a cleaned frame returns it unchanged: labels, columns and cells |
| TableChoice.FastPath | Ybsnow_Order_Scraper.py:135-141 | the selector loop: skip a selector that matches nothing or yields no table, stop at the first that yields tables or raises (definition; characterised by `FastPathFirstDecisive`) |
| TableChoice.FastPathFirstDecisive | Ybsnow_Order_Scraper.py:130-141 | the fast path misses exactly when no selector yields tables or raises; otherwise the first such selector alone decides |
| TableChoice.HeaderMatches | Ybsnow_Order_Scraper.py:156 | `any(pc.lower() in str(c).lower() for pc in preferred_cols)` for one label (definition; characterised by `MatchesAnyTerm` and `VocabularyOverlap`) |
| TableChoice.MatchesAnyTerm | Ybsnow_Order_Scraper.py:156 | `any` over the vocabulary holds exactly when some lower-cased term occurs in the lower-cased label |
| TableChoice.CountLabels | Ybsnow_Order_Scraper.py:156 | the number of matching labels never exceeds the number of columns |
| TableChoice.CountLabelsIsSize | Ybsnow_Order_Scraper.py:156 | the sum counts each matching column once: it equals the number of positions whose label matches |
| TableChoice.Score | Ybsnow_Order_Scraper.py:156 | a table's score lies between 0 and its column count |
| TableChoice.ScoreCountsColumns | Ybsnow_Order_Scraper.py:156 | the score is the number of columns whose label contains some vocabulary term, each column counting once however many terms it contains |
| TableChoice.Eligible | Ybsnow_Order_Scraper.py:157 | the filter `len(df.columns) > 1 and len(df) > 0` (definition) |
| TableChoice.BestExists | Ybsnow_Order_Scraper.py:153-159 | whenever a table is eligible, a best one (maximal score, earliest on ties) exists |
| TableChoice.BestUnique | Ybsnow_Order_Scraper.py:153-159 | the best table is unique |
| TableChoice.HeuristicChoice | Ybsnow_Order_Scraper.py:153-165 | no index exactly when no table is eligible; otherwise the best table's index |
| TableChoice.ChooseBest | Ybsnow_Order_Scraper.py:153-159 | the scoring loop with `best_score = -1` and strict `>` returns no index exactly when no table is eligible, and otherwise the eligible table with maximal score that comes first |
| TableChoice.FallbackTables | Ybsnow_Order_Scraper.py:144-147 | the tables the fallback scores: those `pd.read_html` read from the whole page, none after a `ValueError` (definition) |
| TableChoice.ChosenTable | Ybsnow_Order_Scraper.py:135-165 | the table handed to `_clean_df`: the fast path's table, else the best eligible fallback table, else the first one; or the fast-path error, the uncaught whole-page error, or "No HTML tables found on Orders page." (definition; properties in `TableChoiceProperties`) |
| TableChoice.ParseSpec | Ybsnow_Order_Scraper.py:122-166 | `parse_orders_table`'s result: the chosen table after `_clean_df`, or the first error raised (definition) |
| TableChoice.ParseOrdersTable | Ybsnow_Order_Scraper.py:122-166 | the selector loop plus the scoring loop return exactly the specified table, cleaned, or the specified error |
| TableChoiceProperties.FastPathWins | Ybsnow_Order_Scraper.py:135-141 | when the first decisive selector yields tables, the first of them is chosen whatever the rest of the page holds |
| TableChoiceProperties.FastPathErrorPropagates | Ybsnow_Order_Scraper.py:136-138 | a parse error on a matched table is not caught |
| TableChoiceProperties.HeuristicWinner | Ybsnow_Order_Scraper.py:153-165 | when the fast path misses and a table is eligible, the chosen table is eligible, scores highest among eligible tables, and is the earliest with that score |
| TableChoiceProperties.FallbackToFirst | Ybsnow_Order_Scraper.py:160-163 | with no eligible table, the first table is used though it is degenerate |
| TableChoiceProperties.NoTablesFoundExactly | Ybsnow_Order_Scraper.py:144-162 | the no-tables error is raised exactly when the fast path misses and the whole-page read yields no table without an uncaught exception, including after a `ValueError` |
| TableChoiceProperties.FallbackErrorPropagates | Ybsnow_Order_Scraper.py:144-147 | only `ValueError` is caught: after a fast-path miss, any other exception from the whole-page read is raised, and that is the only way to get that error |
| TableChoiceProperties.VocabularyOverlap | Ybsnow_Order_Scraper.py:150-156 | "Order #" and "Order ID" add nothing to the vocabulary: a label matches exactly when it contains one of the seven remaining terms |
| Config.GetEnv | Ybsnow_Order_Scraper.py:327-330 | `os.getenv(key, default)`: the value when the variable is set, even to "", and the default otherwise (definition) |
| Config.OrElse | Ybsnow_Order_Scraper.py:337-341 | Python's `args.x or fallback`: the option when it is given and non-empty, the fallback otherwise (definition) |
| Config.LoadConfigFromEnv | Ybsnow_Order_Scraper.py:324-331 | an unset variable gives its default: "" for email, password and orders URL, the default base URL for the base URL |
| Config.DerivedLoginUrl | Ybsnow_Order_Scraper.py:338 | a derived login URL always ends in "/index.php" (its exact shape is in `DerivedLoginUrlShape`) |
| Config.BuildCfg | Ybsnow_Order_Scraper.py:334-358 | a configuration it returns has a non-empty orders URL, email, password and login URL |
| ConfigProperties.ResolvedFromCliThenEnv | Ybsnow_Order_Scraper.py:324-358 | base URL, orders URL, email and password are the non-empty command-line value, else the environment value or its default; paths and timeout are copied through |
| ConfigProperties.LoginUrlDerived | Ybsnow_Order_Scraper.py:338 | without a non-empty login URL, the login URL is derived from the resolved base URL |
| ConfigProperties.DerivedLoginUrlShape | Ybsnow_Order_Scraper.py:338 | a derived login URL is the base URL with its trailing slashes removed, then exactly one slash and "index.php" |
| ConfigProperties.LoginUrlGiven | Ybsnow_Order_Scraper.py:338 | a non-empty command-line login URL is used as given |
| ConfigProperties.DefaultBaseGivesDefaultLogin | Ybsnow_Order_Scraper.py:48-50 | the default base URL derives the default login URL |
| ConfigProperties.FailureOrder | Ybsnow_Order_Scraper.py:343-346 | a missing orders URL fails first; only then does a missing email or password fail; otherwise resolution succeeds |

## Left out

- Network and session code is not modelled: `login`, `fetch_orders_html` and `_looks_like_login_page`. They are HTTP calls and HTML sniffing.
- HTML parsing is not modelled. BeautifulSoup's `find` and `pd.read_html` appear only through their outcomes, which are inputs.
- A parse error is modelled as one error per place: one for a table a selector matched, one for a non-`ValueError` exception on the whole page. The model does not distinguish which exception `pd.read_html` raised, nor its message.
- pandas dtype inference and the values of non-string cells are not modelled. A column's `object`-ness is an input, and a non-string cell is opaque apart from the text `str()` gives for it.
- A missing cell in an `object` column always renders as "nan". A Python `None` would render as "None".
- Header labels are strings. `str(c)` of non-string or multi-level labels is not modelled.
- Strings.Lower: lower-cases ASCII letters only, whereas Python's `str.lower` also maps non-ASCII letters.
- `save_outputs` is not modelled. It only writes CSV, Excel and SQLite files through pandas and sqlite3.
- `run_cli` is not modelled. It only prints progress and chains the operations.
- The GUI is not modelled: `launch_gui`, its background thread, and the copy of the config resolution in `main`'s GUI branch.
- Command-line and environment plumbing is not modelled: `parse_args`, `load_dotenv` and `os.getenv` are I/O. The parsed options and the environment map are inputs.
- The test file's expectations are not modelled. It expects an `out_json` field, a four-path result and dropped duplicate rows, and the code has none of these.
