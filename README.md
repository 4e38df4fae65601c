# Yahoo Finance sector crawler — a verified model

The crawler is a small Tk desktop tool (`main.py`). One button runs
`fetch_data`, which walks the eleven Yahoo Finance sector pages in a fixed
order. For each page it collects `(ticker, change)` pairs from the heatmap
tiles and sorts each sector's list by ticker. It then writes one workbook
with three rows: `page`, `sector` and `change`. A clock label also shows
whether the US equity market is "Open" or "Closed".

This project models that core in Dafny:

- `records.dfy` (`Records`): an entry `(ticker, change)`, `Option`, and
  distinctness of the sector names.
- `ordinal.dfy` (`Ordinal`): Python's `<` on `str`, meaning ordinal
  lexicographic order on code points. It is proved equal to the
  first-difference definition and proved to be a strict total order.
- `stable_sort.dfy` (`StableSort`): `list.sort(key=lambda x: x[0])`.
  - The specification is insertion sort on the ticker key, using only `<`.
  - It is proved sorted, a permutation of its input, and stable: entries
    with equal tickers keep their relative order.
  - No other list is sorted, a permutation and stable, so the sort's result
    is unique.
  - An imperative insertion sort is proved to compute it.
- `report.dfy` (`Report`): the three workbook rows, built from the sector
  order and the per-sector lists.
  - Each cell is proved to sit at its sector's offset, and each cell is
    proved to come from some entry of some sector.
  - Reading the rows back and regrouping runs of equal `page` labels gives
    back exactly the non-empty sectors with their entries.
- `crawler.dfy` (`Crawler`): the `fetch_data` loop.
  - A page is an abstract value: the fetch failed, there is no heatmap
    container, or there is a container holding tiles.
  - A tile has an optional `ticker-div` and an optional `percent-div`.
  - `Accumulate`/`Run` are the specification. `FetchData`, together with
    `ProcessSector` and `AppendLinks`, is the imperative loop, proved equal
    to `Run`.
  - A run ends in one of four ways:
    - a fetch failure aborts at that sector;
    - a tile without one of its two children crashes the run (`.text` on
      `None`);
    - every list is empty, so "no data" is reported and nothing is saved;
    - otherwise the sheet is saved.
- `market_hours.dfy` (`MarketHours`): the market-status predicate, Monday to
  Friday from 09:30:00 to 16:00:00 Eastern with both ends inclusive, on a
  time of day in microseconds.

Three behaviours of the code shape the model:

- **Missing child.** A tile missing its `ticker-div` or `percent-div` is
  not skipped: `.text` on the missing child raises, nothing catches it, and
  the run stops with no file (`ParseCrash`).
- **Class match.** The tiles are selected by one exact class string passed
  to the parser. Which tiles match belongs to the parser and is not
  modelled; a `Container` lists exactly the tiles that matched.
- **No de-duplication.** The code never removes duplicate entries. Every
  matched tile yields one entry, and `StableSort.SortPermutation` keeps all
  of them.

## Model

| member | source | states |
|---|---|---|
| Ordinal.LessIsFirstDifference | main.py:67 | The key comparison used by the sort is Python's ordinal `str` order: `a < b` iff `a` is a proper prefix of `b`, or the first differing character of `a` is smaller |
| Ordinal.LessIrreflexive | main.py:67 | No ticker sorts before itself |
| Ordinal.LessTransitive | main.py:67 | The ticker order is transitive |
| Ordinal.LessTrichotomy | main.py:67 | Any two tickers are equal or ordered one way or the other (a total order) |
| StableSort.InsertByTicker | main.py:67 | The imperative insertion step puts the entry after every entry whose ticker is not greater, equal to the specification `Insert` |
| StableSort.SortByTicker | main.py:67 | Sorting a sector's list yields a list ordered by ticker, with the same entries (multiset), and the same order among entries with equal ticker (stable), equal to the specification `Sort` |
| StableSort.SortSorted | main.py:67 | The sorted list is ordered by ticker under `<` |
| StableSort.SortPermutation | main.py:67 | Sorting neither adds, drops nor duplicates an entry |
| StableSort.SortStable | main.py:67 | For every ticker, the entries carrying it appear in the sorted list in their original order |
| StableSort.SortedStableUnique | main.py:67 | Two lists that are both sorted and agree per ticker with the same input are equal, so the stable sort's result is determined |
| Report.Cells | main.py:83-91 | Each row's data part has one cell per entry across all sectors, in sector order |
| Report.BuildSheet | main.py:83-92 | The three rows start with the headers `page`, `sector`, `change` and have the same length, one plus the number of entries |
| Report.TotalIsZero | main.py:73-91 | The rows have no data cells exactly when every sector's list is empty |
| Report.OffsetStep | main.py:83-91 | Sector `j`'s cells start right after the cells of the sectors before it |
| Report.CellAt | main.py:83-91 | Column `Offset(j)+q` of each row holds sector `j`'s name, the ticker and the change of its `q`-th entry |
| Report.CellOwner | main.py:83-91 | Conversely, every data column `c` is `Offset(j)+q` for some sector index `j` and entry index `q` of that sector |
| Report.PageCount | main.py:83 | A sector name occurs in the `page` row exactly as many times as that sector has entries (with distinct sector names) |
| Report.ZipCells | main.py:87-91 | Pairing the `sector` and `change` rows column by column gives back the concatenated entries |
| Report.RegroupRoundTrip | main.py:83-91 | Grouping the `page` row's runs back with the zipped entries yields exactly the non-empty sectors in order with their lists |
| Report.SheetRoundTrip | main.py:83-92 | The same round trip, read from the built sheet after its headers |
| Crawler.SectorsDistinct | main.py:11-23 | The eleven sector names are pairwise different |
| Crawler.AppendLinks | main.py:61-64 | The tile loop appends one `(ticker, change)` entry per tile in order when every tile has both children, and reports a crash otherwise |
| Crawler.ProcessSector | main.py:35-71 | One loop iteration: a fetch failure halts, a missing container or an empty tile list leaves the data unchanged, a missing child halts with a crash, otherwise the sector's list is extended by the tiles, then sorted |
| Crawler.FetchData | main.py:26-100 | The whole imperative run equals `Run`: abort at a failed fetch, crash at a child-less tile, "no data" when nothing was collected, otherwise the three-row sheet |
| Crawler.Accumulate | main.py:28-71 | The loop never adds or removes keys of `all_data`, and halts only by a fetch failure or a parse crash |
| Crawler.HaltIsFinal | main.py:37-43 | Once a sector halts the loop, the run's outcome is that halt, whatever later pages hold |
| Crawler.AccumulateReadsPrefix | main.py:35-43 | The state after `n` sectors depends only on the first `n` pages |
| Crawler.FetchFailureAborts | main.py:37-43 | A failed fetch for sector `i`, reached without an earlier halt, aborts the run naming sector `i`, for every choice of the later pages |
| Crawler.HaltedAt | main.py:35-71 | A halted loop halted at one sector index `i`, whose step produced the halt |
| Crawler.AbortedOnlyByFetchFailure | main.py:37-43 | A run aborted at sector `s` reached `s` without halting and its fetch failed there |
| Crawler.MissingChildCrashes | main.py:61-63 | A reached container holding a tile without its ticker or change child crashes the run naming that sector, for every choice of the later pages |
| Crawler.CrashOnlyOnMissingChild | main.py:61-63 | A run that crashes at sector `s` found there a container with a tile lacking its ticker or change child |
| Crawler.ListsStaySorted | main.py:64-67 | Every per-sector list is sorted by ticker throughout the loop |
| Crawler.PerSectorResult | main.py:28-67 | After `n` sectors with no halt, sector `i`'s list is the sorted entries of its page if `i < n`, and empty otherwise |
| Crawler.StepOnEmptyList | main.py:46-67 | A non-halting step on a still-empty sector sets that sector to the sorted entries of its page and nothing else |
| Crawler.GroupsOfLists | main.py:83-91 | When each sector holds its page's list, the sheet's groups are the sectors whose page yielded entries |
| Crawler.NoGroupsIffEmpty | main.py:73-76 | No group survives exactly when every page yields an empty list |
| Crawler.NoDataIff | main.py:73-76 | A run reports "no data" iff no halt occurred and every page yields no entries (no container, no tiles) |
| Crawler.NoEntriesOfSectors | main.py:73 | `not any(all_data.values())` holds iff the list of every sector is empty |
| Crawler.SavedSheetRegroups | main.py:73-92 | A saved sheet is non-empty and, regrouped, gives back exactly the sectors whose page yielded entries, each with its sorted entries |
| Crawler.TechnologyAndEnergy | main.py:35-92 | Technology tiles MSFT then AAPL plus an energy page without container save `page: technology technology`, `sector: AAPL MSFT`, `change: +1.2% -0.3%` |
| Crawler.HealthcareWithoutTiles | main.py:53-76 | A container with no matching tiles for the only sector ends in "no data" |
| MarketHours.MarketStatus | main.py:115-120 | The status is one of `Open` and `Closed` |
| MarketHours.MarketStatusByClock | main.py:115-120 | The status is `Open` iff the weekday is Monday to Friday and the clock is from 09:30:00.000000 to 16:00:00.000000 inclusive |
| MarketHours.MarketBoundaries | main.py:115-120 | 09:30:00 and 16:00:00 on weekdays are open, one microsecond outside is closed, Saturday and Sunday are closed all day |

## Left out

- HTTP: `requests.get` and `raise_for_status` are the page value `FetchFailed`. The URL, the error text and any retry are not modelled.
- HTML parsing: BeautifulSoup's `find`/`find_all` with its class-string matching, and `.text.strip()`, are not modelled. A page arrives already parsed into tiles whose children hold the stripped text.
- The Tk interface is not modelled: the message boxes (including the per-sector "no data" notices, which do not change the outcome), the progress bar, the button state and the once-a-second `root.after` refresh. After a crash the button stays disabled in the code; the model only records `ParseCrash`.
- The workbook: `openpyxl` writing the three rows to a sheet and saving `output_<date>.xlsx` under today's date. The model stops at the three rows (`Sheet`).
- Clock reading and time zones: `datetime.now` with `pytz` for US/Eastern, the Korean-time label and `weekday()`. `MarketStatus` takes the weekday and the time of day as parameters.
- `open_url` and `open_folder` hand work to the browser and the file manager and are not modelled.
- Report.PageCount, Report.RegroupRoundTrip, Report.SheetRoundTrip, Crawler.PerSectorResult, Crawler.NoDataIff, Crawler.SavedSheetRegroups: these require distinct sector names. `main.py` uses a dict keyed by sector, so duplicates would share one list. `Crawler.SectorsDistinct` proves the shipped list distinct.
- MarketHours.MarketStatus: its own contract only bounds the result to the two labels. The exact opening window is stated by `MarketHours.MarketStatusByClock`.
