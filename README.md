# Ampel-LSST core: alert provenance and the LSST tabulator

This project models two pieces of Ampel-LSST, the LSST extension of the Ampel
alert-processing framework, and proves properties about them.

- `T2GetAlertId.process` (module `AlertId`, file `alert_id.dfy`) finds the
  alert that first introduced a detection (a `diaSourceId`). It does this by
  reading the journals that earlier runs of the `T2GetAlertJournal` unit
  wrote. The model follows the code step by step:
  - two nested loops collect the journal entries whose `upsert` list holds
    the detection;
  - an in-place stable insertion sort on an array orders them by `ts`;
  - the run ids are gathered;
  - when there is more than one run, the list is narrowed to the latest run
    and the warning is reported;
  - the first entry gives `{ts, alertId}`.

  `Process` is proved equal to an independent reference, `Lead`. `Lead` picks
  the candidate of the greatest run with the smallest timestamp and, among
  equal timestamps, the first one collected.
- `LSSTT2Tabulator` (module `Tabulator`, file `tabulator.dfy`) turns the data
  points of a transient into columns:
  - `get_values` keeps the data points tagged "LSST", picks the requested
    body fields and transposes them with `zip`;
  - `get_flux_table` builds the flux table: time in JD when `convert2jd`,
    flux, flux error, band mapped through `LSST_BANDPASSES`, and zero point
    25 in the "ab" system;
  - `get_pos` returns the `(ra, decl)` pairs;
  - `get_jd` is meant to return the Julian dates of `midPointTai`; as
    written it reads key "m" (see "## Findings");
  - `_to_jd` converts MJD to JD;
  - `get_stock_id` and `get_stock_name` return the stock ids of "ZTF"-tagged
    points.

`wrappers.dfy` holds the shared `Option` type.

A body field is a `Value`: `Num(real)` for Python's ints and floats, or
`Str(string)`. A Python `KeyError` on a missing body field, and the
`TypeError` `_to_jd` would raise on a non-number, are the callers'
obligations. They are stated as preconditions (`HasKey`, `HasParams`,
`NumericAt`, `FluxFields`).

## Model

| member | source | states |
|---|---|---|
| AlertId.Process | ampel/lsst/t2/T2GetAlertId.py:30-57 | The result is `None` (the source's `{}`) when no journal entry upserts the detection. Otherwise it is the `ts` and `alert` of the reference lead entry. The warning is reported exactly when the candidates carry more than one run id. |
| AlertId.CollectCandidates | ampel/lsst/t2/T2GetAlertId.py:34-42 | The nested loops, which skip views of other units and keep entries that upsert the detection, build exactly `Candidates`: views in order, and each payload in order. |
| AlertId.Matching | ampel/lsst/t2/T2GetAlertId.py:40-42 | An entry is kept from a payload iff it is in the payload and its `upsert` list contains the detection. |
| AlertId.CandidatesAppend | ampel/lsst/t2/T2GetAlertId.py:35-42 | Collecting over two lists of views, one after the other, concatenates their candidates. |
| AlertId.CandidatesMembership | ampel/lsst/t2/T2GetAlertId.py:35-42 | An entry is a candidate iff it upserts the detection and some view of unit `T2GetAlertJournal` holds it. |
| AlertId.CandidatesEmptyIff | ampel/lsst/t2/T2GetAlertId.py:43-44 | There are no candidates, so `{}` is returned, iff no journal view holds an entry upserting the detection. |
| AlertId.OtherUnitsIgnored | ampel/lsst/t2/T2GetAlertId.py:36-37 | Inserting a view of any other unit anywhere leaves the candidates unchanged. |
| AlertId.MaxRun | ampel/lsst/t2/T2GetAlertId.py:54 | The result is the run id of some candidate, and no candidate has a greater one. |
| AlertId.MaxRunIsGreatestRunId | ampel/lsst/t2/T2GetAlertId.py:46-54 | `MaxRun` is a member of the run-id set `RunIds` (the set built at line 46) and bounds it from above, i.e. it is `sorted(runids)[-1]`. |
| AlertId.InsertPermutes | ampel/lsst/t2/T2GetAlertId.py:45 | One insertion step adds exactly the inserted entry to the multiset. |
| AlertId.InsertSorted | ampel/lsst/t2/T2GetAlertId.py:45 | Inserting into a list sorted by `ts` keeps it sorted. |
| AlertId.SortByTsSortsAndPermutes | ampel/lsst/t2/T2GetAlertId.py:45 | The sort by `ts` yields a list sorted by `ts` that is a permutation of its input. |
| AlertId.InsertInPlace | ampel/lsst/t2/T2GetAlertId.py:45 | Swapping `a[i]` back through the sorted prefix leaves the array equal to `Insert(prefix, a[i])` followed by the untouched suffix. |
| AlertId.SortInPlace | ampel/lsst/t2/T2GetAlertId.py:45 | The in-place insertion sort leaves the array equal to the stable sort `SortByTs` of its old contents. |
| AlertId.SameRunIds | ampel/lsst/t2/T2GetAlertId.py:45-46 | A permutation, such as the sorted list, has the same run-id set. |
| AlertId.OfRunMembers | ampel/lsst/t2/T2GetAlertId.py:51-55 | The narrowed list `OfRun` (the comprehension at lines 51-55) holds exactly the entries of the given run. |
| AlertId.OfRunSorted | ampel/lsst/t2/T2GetAlertId.py:51-55 | Narrowing a sorted list keeps it sorted. |
| AlertId.OfRunInsert | ampel/lsst/t2/T2GetAlertId.py:45-55 | Narrowing to a run commutes with inserting an entry into a sorted list: the entry appears iff it belongs to the run. |
| AlertId.SortThenNarrow | ampel/lsst/t2/T2GetAlertId.py:45-55 | Sorting then narrowing (the code's order) equals narrowing then sorting. |
| AlertId.OfRunAll | ampel/lsst/t2/T2GetAlertId.py:47-55 | When every candidate has the latest run, narrowing changes nothing, so skipping it for a single run id is sound. |
| AlertId.LeadIndex | ampel/lsst/t2/T2GetAlertId.py:45-56 | Reference choice: -1 iff no candidate has the run; otherwise an entry of that run whose `ts` is minimal and strictly smaller than that of every earlier entry of the run. |
| AlertId.Lead | ampel/lsst/t2/T2GetAlertId.py:43-57 | The reference result is absent iff there are no candidates. |
| AlertId.SortedHeadIsLead | ampel/lsst/t2/T2GetAlertId.py:45-56 | After the stable sort, the list narrowed to a run is empty iff the run has no candidate. Otherwise its head is the `LeadIndex` entry. |
| AlertId.NarrowedNonEmpty | ampel/lsst/t2/T2GetAlertId.py:51-56 | The list narrowed to the greatest run is never empty, so `t0journals[0]` exists. |
| AlertId.LeadIsEarliestOfLatestRun | ampel/lsst/t2/T2GetAlertId.py:45-57 | A found provenance comes from a candidate of the greatest run. Its `ts` is the smallest of that run, and the first collected among equal ones. |
| AlertId.SingleRunGivesMinimum | ampel/lsst/t2/T2GetAlertId.py:45-57 | With one run id, a result exists and its `ts` is the minimum over all candidates. |
| Tabulator.LsstRows | ampel/lsst/view/LSSTT2Tabulator.py:79-80 | Only data points tagged "LSST" are kept, each taken from the input. |
| Tabulator.NonLsstIgnored | ampel/lsst/view/LSSTT2Tabulator.py:80 | Inserting a data point without the "LSST" tag anywhere changes no row. |
| Tabulator.AllLsstKept | ampel/lsst/view/LSSTT2Tabulator.py:79-80 | When every data point is tagged "LSST", all of them are kept, in order. |
| Tabulator.Column | ampel/lsst/view/LSSTT2Tabulator.py:78-80 | A column has one entry per LSST data point, and it is all numbers when the field is numeric. |
| Tabulator.MinLen | ampel/lsst/view/LSSTT2Tabulator.py:76-82 | Where `zip` stops: a length no row is shorter than, attained by some row. |
| Tabulator.ZipColumns | ampel/lsst/view/LSSTT2Tabulator.py:73-83 | `Zip` (the `zip(*…)` at lines 76-82): transposing rows of equal width `w` gives `w` columns with one item per row, and item `i` of column `j` is item `j` of row `i`. |
| Tabulator.GetValues | ampel/lsst/view/LSSTT2Tabulator.py:69-87 | Built from `Rows` (the generator at lines 77-81, one `Pick` of the requested fields per LSST data point, line 78) and `Zip`. There is one column per requested key. Column `j` is field `params[j]` of every LSST data point in input order. With no LSST data point, the columns are `len(params)` empty lists. |
| Tabulator.Band | ampel/lsst/view/LSSTT2Tabulator.py:17-24 | `LSST_BANDPASSES.get`: defined exactly for the six names u, g, r, i, z, y, which map to "lsst" + name. Anything else gives `None`. |
| Tabulator.BandInjective | ampel/lsst/view/LSSTT2Tabulator.py:17-24 | Two filter names with the same bandpass are the same name. |
| Tabulator.Bands | ampel/lsst/view/LSSTT2Tabulator.py:40 | `list(map(LSST_BANDPASSES.get, ...))` keeps the length and maps each entry. |
| Tabulator.GetFluxTable | ampel/lsst/view/LSSTT2Tabulator.py:31-51 | flux and fluxerr are the `psFlux`/`psFluxErr` columns. time is the `midPointTai` column, shifted to JD iff `convert2jd`. band is the mapped `filterName` column. zp and zpsys are 25 and "ab" on every row. |
| Tabulator.FluxTableRow | ampel/lsst/view/LSSTT2Tabulator.py:35-48 | All four data columns have one row per LSST data point. Row `i` holds that point's fields: time + 2400000.5 when converting, flux, flux error and mapped band. |
| Tabulator.EmptyWithoutLsst | ampel/lsst/view/LSSTT2Tabulator.py:84-87 | Without LSST data points no field is required and every column of the table is empty. |
| Tabulator.JdColumn | ampel/lsst/view/LSSTT2Tabulator.py:59-61 | `ToJd` (`_to_jd`) of a numeric column keeps its length and adds 2400000.5 to each entry. |
| Tabulator.GetPos | ampel/lsst/view/LSSTT2Tabulator.py:53-54 | There is one pair per LSST data point, in order: `(ra, decl)` of that point. |
| Tabulator.GetJd | ampel/lsst/view/LSSTT2Tabulator.py:56-57 | As written: the string is iterated as its one-character keys (`Chars`, how Python iterates a `str`), so it needs every one-letter key of "midPointTai" and returns field "m" + 2400000.5 of each LSST data point. |
| Tabulator.GetJdRejectsTimedPoint | ampel/lsst/view/LSSTT2Tabulator.py:56-57 | An LSST data point with a numeric "midPointTai" and no other key fails the as-written precondition. |
| Tabulator.GetJdIntended | ampel/lsst/view/LSSTT2Tabulator.py:56-61 | Corrected: "midPointTai" + 2400000.5 of each LSST data point, in order. |
| Tabulator.GetJdIntendedIsFluxTime | ampel/lsst/view/LSSTT2Tabulator.py:35-39 | The corrected `get_jd` equals the time column of the JD flux table. |
| Tabulator.GetStockId | ampel/lsst/view/LSSTT2Tabulator.py:63-64 | An id is in the result iff some data point tagged "ZTF" has that stock. |
| Tabulator.GetStockName | ampel/lsst/view/LSSTT2Tabulator.py:66-67 | The same set as `get_stock_id`: the stocks of the "ZTF"-tagged data points. |

## Left out

- The processing framework is not modelled. That covers `AbsTiedPointT2Unit`, `AbsT2Tabulator`, the `eligible` selection, `t2_dependency`, `T2DocView.get_payload` and `UnitResult`. Views are given as their unit name and decoded payload. The `assert type(payload) is list` check is the payload's type.
- `T2GetAlertId.process` reads `datapoint["body"]["diaSourceId"]` (line 33). The model takes the detection id as an integer parameter. A missing key (`KeyError`) is not modelled.
- `self.logger.warn` is reported as the boolean `warned`. The message text is not modelled.
- Journal entries with missing `ts`, `run`, `upsert` or `alert` keys are not modelled. Entries are typed records, so those `KeyError`s cannot arise.
- `AlertId.SortInPlace`: Python's `list.sort` (Timsort) is modelled by a stable insertion sort on an array. Both are stable, so the result is the same list. The algorithm and its cost are not.
- `ElasticcDirAlertLoader` and the other loaders and ingesters are not part of this model. They do file and network I/O.
- `Tabulator.GetFluxTable`: the astropy `Table` and its `dtype` coercion (float64, str, int64) are modelled as six parallel sequences. A band of `None` is kept as `None`; what the `str` dtype turns it into is not modelled.
- `Tabulator.JdColumn`, `Tabulator.GetJd`, `Tabulator.GetJdIntended`, `Tabulator.FluxTableRow`: numbers are exact reals. IEEE-754 rounding of `date + 2400000.5` is not modelled.
- A `KeyError` for a missing body field and a `TypeError` from `_to_jd` on a non-number are preconditions, not error results.
- A `DataPoint` always has `tag`, `body` and `stock`, so three `KeyError`s of the source are not modelled: a "ZTF" point without `stock` (LSSTT2Tabulator.py line 64), an LSST point without `body` (line 78) and any point without `tag` (lines 64 and 80). `stock` is one integer per data point. The class attribute `convert2jd` (default `True`, line 28) is a parameter of `GetFluxTable` with no default.

## Findings

| source | as written | input that shows it | evidently intended | confidence | as-written member | corrected member |
|---|---|---|---|---|---|---|
| ampel/lsst/view/LSSTT2Tabulator.py:57 | `get_values(dps, "midPointTai")` passes a string where a list of keys is expected. It iterates the eleven one-letter keys "m", "i", "d", "P", ... and returns the column of key "m". | One LSST data point whose body is `{"midPointTai": 60000.0}`: the lookup of key "m" raises `KeyError` instead of returning `[2460000.5]`. | `get_values(dps, ["midPointTai"])[0]`: the Julian date of each LSST point's `midPointTai`, the same as the flux table's time column. | high, not executed | Tabulator.GetJd, Tabulator.GetJdRejectsTimedPoint | Tabulator.GetJdIntended, Tabulator.GetJdIntendedIsFluxTime |
