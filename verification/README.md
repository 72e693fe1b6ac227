# OpenLineage proxy: event-identifier allocator and file naming

A Dafny model of how the OpenLineage proxy numbers and names the lineage
events it receives. The model covers:

- **the lock-guarded counter store** of `pages/api/v1/lineage/index.js`. It is
  a decimal counter in `counter.txt`, created as `"0"`, that each critical
  section of `incrementCounter` reads, increases by one, writes back and hands
  to the request;
- **the naming scheme**. The counter is padded with `padStart(3, '0')` and
  joined into `<padded>_lineage_data_<id>.json`;
- **the three sinks that use it**:
  - the local-file handler (`index.js`);
  - the database handler (`database-version.js`): the counter is
    `COALESCE(MAX(counter),0)+1`, read through a placeholder row, with the
    clock as fallback;
  - the blob handler (`blob-version.js`): the counter is a key-value `INCR`,
    with the clock as fallback;
- **the two status readers** (`pages/api/status.js`, `app/api/status/route.ts`).
  They read the counter back with `parseInt(…, 10) || 0` and count the
  `.json` entries.

Everything is functional. A directory is a `map<string, string>` from file
name to text. A database table is a sequence of rows. The key-value and blob
stores are maps. Each handler is a pure function from a state and a request
to a new state and a response. A run of serialised requests is a fold over a
sequence of requests.

These come in as inputs:

- whether the file lock was acquired;
- whether each I/O call or database statement succeeds, and whether a failed
  event-file write failed before or after opening the file;
- the UUID, `Date.now()` and the random token;
- the serialised JSON payload.

Modules: `Wrappers` (Option), `Strings`, `Decimal` (`String(n)` and
`parseInt`), `Padding`, `Naming`, `Sequences`, `CounterStore` and `FileSink`
(index.js), `Status`, `BlobSink`, `DatabaseSink`.

How the code behaves in three cases a reader might expect otherwise:

- `index.js` only logs a failed lock and sends no reply (index.js:68-70).
- A counter file that does not read as a number gives `NaN`, which the code
  increments and writes back (index.js:59-61); see Left out.
- The database sink takes its counter from the stored rows, so a failed
  insert uses up no value (`DatabaseSink.SuccessiveSaves`). The file and
  key-value sinks consume a value even when the write fails.

## Model

| member | source | states |
|---|---|---|
| `Decimal.ToDecimal` | pages/api/v1/lineage/index.js:61 | `String(n)` is a non-empty string of digits whose first digit is `0` only when n is 0 |
| `Decimal.ValueOfDecimal` | pages/api/v1/lineage/index.js:59-61 | the number parseInt accumulates from the digits `String(n)` wrote is n |
| `Decimal.ParseInt` | pages/api/status.js:29 | parseInt gives NaN exactly when the text does not start with a digit |
| `Decimal.ParseIntOfConcat` | pages/api/status.js:29 | parseInt reads the leading run of digits and ignores whatever non-digit text follows |
| `Decimal.ParseIntOrZero` | pages/api/status.js:29 | `parseInt(text, 10) or 0` is 0 when parseInt gives NaN and the number read otherwise |
| `Decimal.ParseDecimal` | pages/api/status.js:29 | reading `String(n)` back with parseInt and its default of 0 gives n, for every n including 0 |
| `Decimal.LexLessIsNumeric` | pages/api/v1/lineage/index.js:27-28 | on digit strings of equal length, string order and numeric order agree, in both directions |
| `Padding.PadStart` | pages/api/v1/lineage/index.js:88 | padStart yields length max(length of s, width), keeps s as the suffix, fills the rest with the fill character, never truncates |
| `Padding.PadCounter` | pages/api/v1/lineage/index.js:88 | the padded counter has length max(3, digits of n) and is all digits |
| `Padding.PadCounterDenotes` | pages/api/v1/lineage/index.js:88 | the padded counter is `'0'`s followed by `String(n)`, and it reads back as n |
| `Padding.PadCounterInjective` | pages/api/v1/lineage/index.js:88 | equal padded counters come from equal counters |
| `Padding.PadCounterLength` | pages/api/v1/lineage/index.js:88 | below 1000 the width is exactly 3; from 100 on nothing is added; from 1000 on the width is at least 4 (no truncation) |
| `Padding.PadOrderIsNumeric` | pages/api/v1/lineage/index.js:27-28 | padded counters of equal width sort as strings exactly as the counters sort as numbers |
| `Padding.PadOrderBelowThousand` | pages/api/v1/lineage/index.js:27-28 | for counters below 1000 (`001`, `002`, …), string order is numeric order |
| `Padding.OrderBreaksAtThousand` | pages/api/v1/lineage/index.js:88 | past 999 the width grows and `1000` sorts before `999` |
| `Naming.LineageFileName` | pages/api/v1/lineage/index.js:89 | the file name ends in `.json`; it contains no `/` when the id has none |
| `Naming.FileNameCarriesCounter` | pages/api/v1/lineage/index.js:89 | parseInt of a file name gives back its counter, whatever the id |
| `Naming.DistinctCountersDistinctNames` | pages/api/v1/lineage/index.js:89 | distinct counters give distinct file names, whatever the two ids are |
| `Naming.EventId` | pages/api/v1/lineage/database-version.js:78 | the serverless event id starts with a digit, so it is never the placeholder id `temp` |
| `Naming.CounterFileIsNotJson` | pages/api/status.js:36 | `counter.txt` is never counted as a stored event |
| `Naming.CountJson` | pages/api/status.js:36 | the filtered count is at most the number of entries, and 0 exactly when no entry ends in `.json` |
| `Naming.CountJsonIsCardinality` | pages/api/status.js:35-36 | for any listing that enumerates the directory once per entry, the filtered count equals the number of `.json` names in it |
| `CounterStore.Initialise` | pages/api/v1/lineage/index.js:49-51 | a missing counter file is created and reads as 0; an existing one is kept; no other file changes |
| `CounterStore.Increment` | pages/api/v1/lineage/index.js:57-71 | without the lock, or with no counter file, nothing changes and the callback never runs; otherwise the counter rises by exactly 1, the text written is `String` of the value handed to the callback, and no other file changes |
| `CounterStore.SerialAllocations` | pages/api/v1/lineage/index.js:57-67 | serialised allocations hand out consecutive values just above the stored counter, one per acquired lock; the counter ends at the last value handed out |
| `CounterStore.FreshStoreAllocations` | pages/api/v1/lineage/index.js:49-67 | from a fresh store, N acquired locks hand out exactly {1..N}, strictly increasing in execution order |
| `CounterStore.AllocateSerially` | pages/api/v1/lineage/index.js:57-67 | n allocations in a row return counter+1 … counter+n and leave the counter at counter+n |
| `FileSink.Serve` | pages/api/v1/lineage/index.js:80-103 | no lock: no change and no reply; otherwise the counter rises by 1; a complete write stores the payload under the new name and replies 200 naming it; a failed write replies 500 `Error writing to file`, leaving no file when the open failed and a prefix of the payload under the new name when it failed after the open |
| `FileSink.ServeFrame` | pages/api/v1/lineage/index.js:87-93 | every file other than the counter and the new event file is left as it was |
| `FileSink.FreshIsConsistent` | pages/api/v1/lineage/index.js:49-51 | an initialised fresh directory has counter 0 and no event file above it |
| `FileSink.ServeKeepsConsistent` | pages/api/v1/lineage/index.js:84-97 | every event file's counter stays within 1..counter; a new event file never lands on an existing one; the `.json` count grows by one exactly when the request leaves a file, complete or partial |
| `FileSink.Outcomes` | pages/api/v1/lineage/index.js:87-97 | every request that took a counter value ends in exactly one of a complete file, a partial file or a gap |
| `FileSink.Accounting` | pages/api/v1/lineage/index.js:80-103 | over a run the counter grows once per acquired lock and the `.json` count once per request that left a file |
| `FileSink.FreshRunAccounting` | pages/api/v1/lineage/index.js:49-103 | from a fresh directory, counter = acquired locks, and the `.json` count = complete + partial files = counter − sequence gaps |
| `Status.ReadStats` | pages/api/status.js:26-37 | counting over the listing reports what `Status.Reports` asks of the directory: 0 and 0 when it is missing; otherwise the counter's leading number (0 when missing or NaN) and the number of `.json` names |
| `Status.PagesStatus` | pages/api/status.js:16-75 | verbs other than GET/HEAD get 405; a throwing read gets 500 `error` (HEAD too); HEAD gets 200 with no body; GET gets 200 `healthy` with the statistics of `Status.Reports`: 0 and 0 without a directory, else the counter's number (0 when missing or NaN) and the `.json` count |
| `Status.AppGet` | app/api/status/route.ts:17-67 | a throwing read gets 500 `error`; otherwise 200 `healthy` with the statistics of `Status.Reports` |
| `Status.AppHead` | app/api/status/route.ts:69-72 | the route's HEAD answers 200 with no body, reading nothing |
| `Status.ReadersAgreeOnGet` | app/api/status/route.ts:17-67 | both readers answer GET identically |
| `Status.ReadersDifferOnHead` | app/api/status/route.ts:69-72 | on HEAD the route reader answers 200 without reading; the pages reader reads first and answers 500 when reading fails |
| `Status.ReportsWrittenCounter` | pages/api/status.js:26-30 | a counter file holding `String(n)` is reported as n events received |
| `Status.StatusAfterRun` | pages/api/status.js:26-47 | after any run of the file sink from a fresh directory, both readers report (acquired allocations, complete + partial files), and the two differ by the gaps |
| `BlobSink.NextCounter` | pages/api/v1/lineage/blob-version.js:13-24 | with the store answering, the counter key rises by 1 and that value is returned, other keys unchanged; otherwise the clock reading is returned and the store is unchanged |
| `BlobSink.Handle` | pages/api/v1/lineage/blob-version.js:29-69 | non-POST gets 405 and allocates nothing; the name given to `put` is the name reported with the counter; a failed put gets 500, stores nothing, and the counter stays consumed |
| `BlobSink.SuccessiveIncrements` | pages/api/v1/lineage/blob-version.js:17-18 | with the store answering, successive POSTs take successive increments, saved or not; a response is a success exactly when its put succeeded |
| `BlobSink.HandledResponseNamesCounter` | pages/api/v1/lineage/blob-version.js:40-57 | each saved response in a run reports the file name built from its own counter |
| `BlobSink.SavedNamesDistinct` | pages/api/v1/lineage/blob-version.js:40-43 | the saved responses of such a run name pairwise distinct files |
| `DatabaseSink.MaxCounter` | pages/api/v1/lineage/database-version.js:54 | `COALESCE(MAX(counter),0)` bounds every stored counter, is attained by some row, and is 0 on an empty table |
| `DatabaseSink.NextCounter` | pages/api/v1/lineage/database-version.js:50-66 | if the placeholder insert and delete succeed, the result is max+1, so above every stored counter by `DatabaseSink.MaxCounter`, and the table is unchanged; if the insert fails, the clock reading; if only the delete fails, the clock reading and the placeholder stays |
| `DatabaseSink.OrElse` | pages/api/v1/lineage/database-version.js:87-91 | `field or default` takes the default exactly when the field is absent or empty, and keeps the field otherwise |
| `DatabaseSink.EventRow` | pages/api/v1/lineage/database-version.js:87-100 | for each of event type, event time, job namespace, job name and run id: an absent or empty field (also under an absent `job` or `run`) takes `UNKNOWN`, the current time, `default`, `unknown`, `unknown`; a non-empty one is kept; the full payload is stored |
| `DatabaseSink.EventRowComplete` | pages/api/v1/lineage/database-version.js:87-100 | whatever the event leaves out, every text column of the inserted row is filled with a non-empty value |
| `DatabaseSink.HandleWith` | pages/api/v1/lineage/database-version.js:71-121 | non-POST gets 405 and nothing changes; rows are never removed; a POST answers 200 exactly when its body is not `null` and the event row built with `getNextCounter`'s value can be inserted; a 200 reports that counter, appends exactly that row, and reports `padStart(counter,3)_lineage_data_<eventId>.json`; any failure, a `null` body included, gets 500 `Failed to save event` after the counter was taken |
| `DatabaseSink.FallbackNeverStored` | pages/api/v1/lineage/database-version.js:62-102 | as written, a clock fallback above 2147483647 is rejected by the INTEGER column: 500, nothing stored |
| `DatabaseSink.FallbackStored` | pages/api/v1/lineage/database-version.js:62-102 | with a BIGINT column the fallback stores the event under the clock reading |
| `DatabaseSink.TempRowForcesFallback` | pages/api/v1/lineage/database-version.js:53-65 | while a `temp` row is stored, the UNIQUE event id makes every counter fall back to the clock |
| `DatabaseSink.TempRowPersists` | pages/api/v1/lineage/database-version.js:53-59 | a leftover `temp` row is never removed by later requests |
| `DatabaseSink.StuckAfterFailedDelete` | pages/api/v1/lineage/database-version.js:53-65 | as written, after one failed placeholder delete no event can be stored again |
| `DatabaseSink.StepWithDatabaseUp` | pages/api/v1/lineage/database-version.js:84-112 | with every statement answered, a request is saved exactly when its body is not `null`, its row fits the columns and its event id is new; then it gets max+1 and moves the max there, otherwise the table is as it was |
| `DatabaseSink.SuccessiveSaves` | pages/api/v1/lineage/database-version.js:84-112 | with every statement answered, the saved requests of a run get max+1, max+2, … in order; failed inserts leave no gap |

## Left out

- Cross-process locking (`proper-lockfile`: staleness, retries, fairness). The lock's outcome is an input, and a critical section is one atomic step.
- The lock is not released when the counter read throws. Later lock attempts can then fail until the lock goes stale. This is timing, which the model does not have.
- `CounterStore.Initialise`: the module-load `writeFileSync` (index.js:50) is assumed to succeed. If it throws, for example on a read-only file system, the route fails to load and no request is served; the model starts from the initialised directory.
- The `writeFileSync` of the counter itself is assumed to succeed. If it fails, the error lands in the same `.catch` as a lock failure, and the file may be left truncated depending on the OS.
- `CounterStore.Increment`: a counter file that parses to `NaN` is excluded by the precondition `WellFormed`. The code would write `"NaN"` and name the file `NaN_lineage_data_….json`.
- `Decimal.ParseInt`: simplified to text that begins with its digits. Leading white space and a sign, which JavaScript's parseInt accepts, read as NaN here. Precision loss above 2^53 is not modelled; numbers are unbounded.
- `JSON.stringify(…, null, 2)`: the payload is its serialised text, an opaque string. `uuidv4()`, `Date.now()`, `new Date().toISOString()` and `Math.random().toString(36).substr(2, 9)` are inputs.
- The index.js handler checks no HTTP method, and the model has no method for it: every request is served the same way.
- index.js writes next to its own module (`__dirname`), and the status readers read `pages/api/v1/lineage` under the working directory. The model takes them to be the same directory.
- Directory entries are names only. A sub-directory whose name ends in `.json` would also be counted by `readdirSync`.
- `initializeDatabase` (CREATE TABLE, indexes) swallows its errors. The table is assumed to exist. The `id SERIAL` and `created_at` columns are not modelled, and `event_time` is not parsed as a TIMESTAMP.
- Concurrent requests colliding on the UNIQUE `temp` row are concurrency and are not modelled. A `temp` row left behind by a failed delete is modelled.
- `DatabaseSink.EventRow`: an event's fields are strings or absent. A field holding another JSON value (a number, an object) would be passed to the INSERT as it is; the model does not represent it. A body that is a number or a string has no such fields and is the event with every field absent; a `null` body is modelled, and it answers 500.
- `DatabaseSink.Row`: counters are natural numbers, because only this handler writes the table.
- Key-value values are natural numbers written only by INCR. A failed dynamic import of the KV client counts as the store not answering. The blob map is keyed by the name given to `put`; any suffix blob storage adds appears only in the URL, which is an opaque input.
- Response fields with no logic are left out: timestamps, version, endpoints, `storageLocation`, `error.message` details.
- Request routing, webhooks and logging are left out. So are the UI pages (`pages/index.js`, `app/page.tsx`), the constant health endpoints, `hybrid-version.js` and `vercel-ready.js`. The last two hold no counter; their identifier is a timestamp plus `Math.random`.

## Findings

| source | as written | input that shows it | evidently intended | confidence | as-written member | corrected member |
|---|---|---|---|---|---|---|
| pages/api/v1/lineage/database-version.js:25 | the `counter INTEGER` column (32 bits) receives the `Date.now()` fallback of line 64 | the placeholder insert fails while `Date.now()` is 1700000000000: the event insert is out of range, and the reply is 500 with nothing stored | the fallback stores the event under the clock reading, as the comment "Fallback to timestamp" says; that needs a BIGINT column | medium, not executed | `DatabaseSink.FallbackNeverStored` | `DatabaseSink.FallbackStored` |
