# checkbook — a Dafny model of the book-source checker

The checker reads a catalog of "book sources" (JSON objects that each carry a
`bookSourceUrl`). It probes every URL with an HTTP GET and sorts the sources into
those that answered `200 OK` and those that did not. Failures are retried up to
five passes in total. Everything sits in `app.py`, in the `Book` class and `main`.

This project models:

- **The probe** (`Book.check`). The network becomes an oracle `net(pass, book)` that
  returns a status code or a request exception. The verdict is "status is exactly
  200". The URL lookup `abook['bookSourceUrl']` is inside the `try`, but the
  handler catches only `requests.RequestException`. So for a source without that
  key, the `KeyError` escapes. The model returns that as
  `KeyError("bookSourceUrl")`.
- **One pass** (`Checker.RunPass`). Every book of the batch is probed once. The
  thread pool hands back results in completion order, so each step of the loop
  takes *any* pending probe (a nondeterministic choice). Each record goes to
  `new_good` or `new_error` by its status.
- **The retry loop** (`Checker.CheckBooks`, built on `Checker.RetryPass`). This is
  the `while error and attempts < 5` loop. It is a method whose invariants tie the
  state after `k` passes to specification functions:
  - `Succeeded(books, net, k)` and `Failing(books, net, k)`: the books with and
    without a 200 among their first `k` probes;
  - `PassCount`: the number of passes the loop runs.

  The lemmas prove the rest about these functions: partition completeness,
  convergence, early stopping and the bound of five passes.
- **The catalog type** (`recog_type`, `json_to_books`). Whether the path exists and
  what `json.load` returns are inputs. `os.path.splitext` is modelled with its POSIX
  rule.
- **The output step of `main`**: the lists written to good.json and error.json,
  both as written and corrected (see Findings).

Books are references (a Dafny `class` with a constant field map), as Python dicts
are. Two equal-looking entries of the catalog are therefore two entries. Every
property about which books end where is stated with multisets, so duplicates count
separately. Because completion order is free, `good` and `error` are
fixed only up to order. The contracts state them as multisets.

Two places where the code differs from its evident intent. The model follows the
code:

- A catalog path that starts with `http` is typed `'url'`, and `json_to_books`
  returns `[]` for every type but `'.json'`. So a URL catalog is never fetched and
  loads nothing (`Catalog.LoadCatalog`). This also applies to a local file whose
  name starts with `http`. That `recog_type` has a `'url'` type at all shows URL
  catalogs were meant to load.
- A source without `bookSourceUrl` is not an input the code rejects up front. It
  makes the first pass raise `KeyError` (`Books.Check`, `Checker.CheckBooks`). The
  `try`/`except` in `check` shows that a failed probe was meant to become `False`.

## Model

| member | source | states |
|---|---|---|
| Books.Check | app.py:36-48 | The probe raises KeyError('bookSourceUrl') exactly when the book has no URL. Otherwise it returns a record holding the same book, with status true iff the response is status 200 (an exception gives false). |
| Books.BooksOf | app.py:65 | `[result['book'] for result in ...]`: one book per record, in order. |
| Checker.PassCount | app.py:52-55 | The loop runs at most 5 passes. It stops at the first pass count after which every book has succeeded, or at 5 if no such pass comes. |
| Checker.SucceedsWithinIff | app.py:55-66 | A book has succeeded within k passes iff one of its probes on passes 0..k-1 answered 200. |
| Checker.SucceedsWithinMonotone | app.py:64 | A book that succeeded stays succeeded on later passes. |
| Checker.PartitionComplete | app.py:56-65 | After any number of passes, the succeeded books plus the failing books are exactly the input multiset. |
| Checker.FailingEmptyIff | app.py:55 | Nothing is left to retry iff every book has succeeded. |
| Checker.SettledStays | app.py:55 | Once every book has succeeded, more passes change neither side. |
| Checker.EarlyStopIsSafe | app.py:55 | Stopping early gives the same partition as running all 5 passes. |
| Checker.BeforeFirstPass | app.py:51 | Before any pass, `error` is the whole input and nothing is good. |
| Checker.RetryConvergesGood | app.py:55-66 | A book whose probe answers 200 on any of the 5 passes ends good (every copy of it) and never in error. |
| Checker.RetryConvergesError | app.py:55-66 | A book whose probe fails on all 5 passes ends in error (every copy of it) and never good. |
| Checker.FirstPassAllOk | app.py:51-55 | If every first probe answers 200, the loop runs one pass, or none for an empty catalog. |
| Checker.AllOkPassIsLast | app.py:55-66 | A pass in which every retried book answers 200 is the last pass. |
| Checker.OneUpOneDown | app.py:50-69 | One source always up and one always refusing: 5 passes, the first good, the second in error. |
| Checker.RecoversOnThirdPass | app.py:50-69 | A source that recovers on the third pass: the loop stops after 3 passes with both sources good. |
| Checker.PassStep | app.py:61-65 | A pass that splits the still-failing books by their verdict moves the 200s to the good side and leaves the rest failing. |
| Checker.PassAdvances | app.py:64-65 | Extending `good` by `new_good` and rebinding `error` to the books of `new_error` takes the loop state from pass k to pass k+1. |
| Checker.ProgressLengths | app.py:64-65 | After every pass, `len(good) + len(error) == len(books)`. |
| Checker.LoopStopsAtPassCount | app.py:55 | The pass at which the loop guard first fails is PassCount. |
| Checker.FirstBatchIsInput | app.py:51 | The first batch is the input itself: empty iff the input is, and missing a URL iff the input is. |
| Checker.RetriedFromInput | app.py:65 | Every book a later pass retries is an input book, so it has a URL when every input book does. |
| Checker.BatchUrls | app.py:45 | A batch can lack a URL only on the first pass, and then only when the input does. |
| Checker.RunPass | app.py:56-62 | In any completion order, a pass raises KeyError iff some book of the batch has no URL. Otherwise it yields exactly one record per book of the batch (as a multiset): status-true records for the 200s, status-false records for the rest. |
| Checker.RetryPass | app.py:56-66 | One loop iteration raises only on the first pass and only for a URL-less input. Otherwise it advances the state to pass k+1, and the old `good` is a prefix of the new one. |
| Checker.CheckBooks | app.py:50-69 | The whole loop raises KeyError iff the catalog is non-empty and some source lacks a URL. Otherwise it runs PassCount (at most 5) passes. `good` holds records, all with status true, of exactly the books that succeeded. `error` holds exactly the books still failing, and `len(good) + len(error) == len(books)`. An empty catalog gives 0 passes and two empty lists. |
| Catalog.SplitExt | app.py:26 | `os.path.splitext`: root + ext is the path. The ext is empty, or a dot followed by no dot and no '/'. The ext is non-empty iff the last component has a dot with a non-dot character before it. |
| Catalog.RecogType | app.py:22-27 | `'url'` iff the path starts with "http" (whether or not it exists). `None` iff it does not start with "http" and does not exist. Otherwise the splitext extension. |
| Catalog.JsonToBooks | app.py:29-33 | The parsed list for type ".json", and `[]` for every other type, including `'url'` and `None`. |
| Catalog.LoadCatalog | app.py:19-20 | A non-empty catalog comes only from an existing local path that does not start with "http", and is then the parsed list. |
| Catalog.JsonPathSplits | app.py:26 | `<stem>.json` splits into the stem and ".json" when the stem is non-empty and does not end in '/' or '.'. |
| Catalog.JsonFileLoads | app.py:22-33 | An existing local `<stem>.json` loads its parsed contents. This holds when the stem is non-empty, does not start with "http", and does not end in '/' or '.'. |
| Catalog.DotfileHasNoExtension | app.py:26 | A file `<dir>/.json` has no extension, so it loads nothing. |
| Catalog.BareDotfileHasNoExtension | app.py:26 | The relative path ".json" has no extension, so it loads nothing. |
| Report.ErrorJsonAsWritten | app.py:83 | `result['book']` applied to the bare books of `error` succeeds iff every one of them has its own "book" field. It then yields those fields; otherwise it raises KeyError('book'). |
| Report.WriteReportsAsWritten | app.py:76-83 | `main` as written: good.json holds the succeeded books. error.json can be written iff every still-failing book has a "book" field. |
| Report.SurvivorBreaksErrorJson | app.py:83 | A book that fails all 5 passes and has no "book" field makes writing error.json raise KeyError('book'). |
| Report.UnreachableBookBreaksReport | app.py:83 | One source that never answers: good.json is written empty, then error.json raises KeyError('book'). |
| Report.WriteReports | app.py:76-83 | Corrected `main`: good.json and error.json together hold exactly the input books. They are the books that succeeded and those that failed all 5 passes. |

## Left out

- The HTTP request itself is the `net` oracle: URL, `verify=False`, the user-agent header and the 3-second timeout (app.py:37-45). The model keeps only its outcome: a status code or a request exception.
- The thread pool, its worker count and the concurrency of probes (app.py:57-59). A pass is modelled as a sequential loop that takes the pending probes in any order. This covers every order `as_completed` can produce.
- Checker.CheckBooks: a configured `workers` of 0 or less (app.py:16) makes `ThreadPoolExecutor` raise `ValueError` on the first pass of a non-empty catalog (app.py:57). The model has no worker count, so it returns a partition there instead of that error.
- Checker.RunPass: when a book without a URL raises, the pass stops at once. The other probes of that pass, which still run in the pool before the `with` block exits, are not modelled; the network is an oracle, so they have no visible effect.
- The `tqdm` progress bar and the tally prints (app.py:59, 62, 68), and the timing and summary prints of `main` (app.py:72, 75-77, 85-88). These are console output only.
- Reading the configuration file in `Book.__init__` (app.py:12-18). This covers the `workers`, `dedup` and `outpath` keys. `dedup` is read but never used, so it has no behaviour to model.
- Catalog.LoadCatalog: the file read and `json.load` (app.py:31-32) are the `parsed` input. It is assumed to be a list of objects with string fields; other JSON shapes and non-string field values are not modelled. A missing `path` key (so `file` is `None`) is not modelled either.
- Catalog.SplitExt: only the POSIX rule of `os.path.splitext`; the Windows rule (drive letters, backslashes) is not modelled.
- Directory creation and the writing of the two JSON files (app.py:79-83). The model stops at the lists that would be written.
- The process-wide warning suppression (app.py:9).
- Checker.CheckBooks: the pass counter is returned as an extra result. In the source it is a local variable; it is exposed so the bound on passes can be stated.

## Findings

| source | as written | input that shows it | evidently intended | confidence | as-written member | corrected member |
|---|---|---|---|---|---|---|
| app.py:83 | error.json is written as `[result['book'] for result in results['error']]`. After any pass, `error` holds bare books, not `{book, status}` records, so the lookup raises `KeyError('book')` after good.json is already written. | One source `{"bookSourceUrl": "http://unreachable.invalid/"}` whose probe fails on all 5 passes. | Write the still-failing books themselves, as good.json writes the books of the good records. | high (not executed) | Report.UnreachableBookBreaksReport | Report.WriteReports |
