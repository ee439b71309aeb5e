# Flat-file log codec of the location tracker, in Dafny

This project models the persistence core of `server.js`, a small Express
service that records visitor observations (IP address, latitude, longitude,
user agent). It covers the following parts:

- **Line format.** `saveToLocalFile` appends
  `"<ts> | IP: <ip> | Lat: <lat> | Lon: <lon> | UA: <ua>\n"` to `logs.txt`.
- **Line parser.** The two admin routes share it. It reads the whole file,
  splits it on `'\n'`, and drops the empty strings (`filter(Boolean)`). Each
  line is split on `'|'` and its segments 0..4 are used by position. The
  first segment is trimmed. On each of the others, the first occurrence of
  the label (`IP:`, `Lat:`, `Lon:`, `UA:`) is removed, wherever it is, and
  the result is trimmed.
- **`POST /log`.** It tries a database save, swallows any failure, always
  appends exactly one line, and answers `{status: 'ok'}`.
- **`GET /admin/logs` and `GET /admin/logs/download`.** They read from the
  database when `db.readyState === 1`, and from the file otherwise. The
  export's file name depends on the source: `logs.json` or
  `logs_backup.json`. Any failure is caught and answered with a 500 and a
  fixed message.

## Structure

- `results.dfy`, module `Results`: `Option` and `Result`.
- `js_builtins.dfy`, module `JsBuiltins`: the JavaScript built-ins the codec
  relies on, with contracts taken from their ECMAScript definitions. They
  are `trim` (with the ECMAScript whitespace set), `indexOf`,
  `replace(pattern, '')` with a string pattern, `split` on one character
  (with its inverse `join`), `filter(Boolean)`, and `map` with a callback
  that may throw.
- `log_line.dfy`, module `LogLine`: the line format, the line parser, and
  the round-trip and lossiness lemmas.
- `local_log.dfy`, module `LocalLog`: the file, modelled as the sequence of
  texts appended to it (`Missing` before the first append), plus reading it
  back as lines and as records.
- `routes.dfy`, module `Routes`: ingestion, source selection, the listing and
  the export. It also replays a history of posts.

### Modelling assumptions

`server.js` uses `Log` and `db` but never defines or imports them. As
written, two things follow:

- `new Log(...)` throws inside the `try` of `POST /log`, so the save always
  "fails" and the append still happens.
- `db.readyState` throws inside the `try` of both admin routes, so they
  always answer 500.

The model makes three things explicit inputs instead:

- the outcome of the save (`dbSaved`);
- the connection state (`readyState: int`);
- the result of `Log.find().sort({ timestamp: -1 })`, given as
  `Option<seq<D>>`, where `None` means the query threw and `D` is an
  unspecified document type.

The timestamp (`new Date().toISOString()`) is also an input string.

### Label collisions and label stripping

**A value that contains its own label still round-trips.** The formatter
writes each label right after the segment's leading space, so that label is
always the first occurrence in its segment. `replace` removes exactly that
occurrence, even when the value itself contains the label (an IP of `IP:1`,
say). `LogLine.RoundTrip` therefore needs only these conditions on every
field and on the timestamp: no `'|'`, no `'\n'`, and no leading or trailing
whitespace.

**`replace` removes the first occurrence anywhere, not only a prefix.** A
segment whose label appears after other text loses that occurrence and keeps
any later one (`LogLine.LabelRemovedOnce`).

## Model

| member | source | states |
|---|---|---|
| `LogLine.Format` | server.js:19-22 | the written text ends in `'\n'` and, before it, is exactly the record's line `Body` |
| `LogLine.BodyIsTemplate` | server.js:20 | the line is the template `ts + " \| IP: " + ip + " \| Lat: " + lat + " \| Lon: " + lon + " \| UA: " + ua` |
| `LogLine.ParseLine` | server.js:116-122 | a line parses iff it has at least four `'|'` (five segments); otherwise the error names the first missing segment `parts[k]`, `k` = number of separators + 1; no parsed field contains `'|'` |
| `LogLine.RoundTrip` | server.js:116-122 | parsing the line written at line 20 returns exactly `(ts, ip, lat, lon, ua)` when none of them holds `'\|'` or `'\n'` or has surrounding whitespace, even if a value contains its own label |
| `LogLine.SeparatorIsLost` | server.js:116-122 | if the IP, latitude, longitude or user agent contains `'\|'`, parsing its line does not return the original record |
| `LogLine.TrailingSegmentsIgnored` | server.js:116-122 | segments after index 4 are ignored: appending `'\|' + extra` to a parsable line does not change its record |
| `LogLine.UserAgentTruncated` | server.js:116-122 | a `'\|'` inside the user agent cuts it at its first `'\|'` (then trimmed), while the other fields still come back exactly |
| `LogLine.LabelRemovedOnce` | server.js:119-122 | only the first occurrence of the label is removed, wherever it stands in the segment; later occurrences remain; then the rest is trimmed |
| `LogLine.UnlabelledSegmentTrimmed` | server.js:119-122 | a segment without its label is only trimmed |
| `LogLine.FieldOfWritten` | server.js:119-122 | a written segment `" " + label + " " + x + pad` yields `trim(x + pad)` |
| `LogLine.ParseLines` | server.js:115-124 | `lines.map(parse)` succeeds iff every line has at least four `'\|'`; then it has one record per line, record `i` parsed from line `i`; otherwise it names a line that fails |
| `LogLine.ParseLinesSnoc` | server.js:115-124 | parsing one more parsable line appends its record at the end |
| `LocalLog.Append` | server.js:21 | after `appendFileSync` the file exists and reads as its old text (empty if missing) followed by the new text; earlier appends are unchanged |
| `LocalLog.ReadLines` | server.js:114 | reading fails exactly when the file is missing; every line returned is non-empty and newline-free |
| `LocalLog.ReadRecords` | server.js:114-124 | the local path fails with file-not-found exactly when the file is missing; on success it has one record per non-empty line, record `i` parsed from line `i`; on a parse failure some line fails to parse |
| `LocalLog.AppendLine` | server.js:21 | appending a newline-terminated line at a line boundary adds exactly that line, last, to what is read back, and keeps the file at a line boundary |
| `LocalLog.LinesOfEntries` | server.js:114 | a file of k newline-terminated entries (k = 0 for an existing empty file) is read back, after split and `filter(Boolean)`, as exactly k lines, the entries without their newline, in write order |
| `Routes.SelectSource` | server.js:109-113 | the database is chosen exactly when `readyState == 1` |
| `Routes.Ingest` | server.js:32-48 | whatever the save outcome, the answer is `{status:'ok'}` and the file gains exactly one chunk, the formatted line, after the unchanged earlier ones |
| `Routes.IngestExtendsRecords` | server.js:32-48 | after a post of a loggable observation, the file's records are the earlier records followed by the new one, whatever the save did |
| `Routes.Listing` | server.js:51-104 | database path iff `readyState == 1`; it shows the query's documents or answers 500 "Error fetching logs"; the local path shows the file's records in file order, or 500 on a missing file or a bad line; the heading names the source |
| `Routes.Export` | server.js:107-131 | attachment `logs.json` with the query's documents iff `readyState == 1` and the query succeeds; `logs_backup.json` with the file's records iff not ready and the file reads; otherwise 500 "Error downloading logs" |
| `Routes.LocalExportFollowsLines` | server.js:114-126 | the local export has as many objects as the file has non-empty lines, object `i` parsed from line `i`, named `logs_backup.json` |
| `Routes.MalformedLineFails` | server.js:114-130 | one non-empty line with fewer than four `'\|'` makes the local export and the listing answer 500 with their fixed messages |
| `Routes.MissingFileFails` | server.js:109-130 | with the database not ready and no file yet, both admin routes answer 500 |
| `Routes.ReplayThenExport` | server.js:107-131 | after any non-empty history of loggable posts, whatever their save outcomes, a not-ready export is `logs_backup.json` with exactly their records in posting order, and the listing shows the same rows |
| `Routes.Replay` | server.js:32-48 | replaying posts only appends: one chunk per post after the original, unchanged chunks |
| `JsBuiltins.Trim` | server.js:118 | `trim` returns a trimmed string made of characters of the input, empty iff the input is all whitespace |
| `JsBuiltins.TrimPadded` | server.js:118 | `trim` of whitespace + trimmed x + whitespace is exactly x |
| `JsBuiltins.IndexOf` | server.js:119 | returns the first position where the pattern occurs, or none when it never occurs |
| `JsBuiltins.RemoveFirst` | server.js:119 | `replace(p, '')` deletes the first occurrence of `p` and keeps everything else; with no occurrence the string is unchanged |
| `JsBuiltins.Split` | server.js:116 | `split` yields one piece more than there are separators, none containing the separator |
| `JsBuiltins.JoinSplit` | server.js:116 | joining the pieces of `split` with the separator gives the string back |
| `JsBuiltins.SplitJoin` | server.js:116 | splitting a join of separator-free pieces gives the pieces back |
| `JsBuiltins.SplitAround` | server.js:116 | splitting `a + sep + b` gives the pieces of `a` followed by those of `b` |
| `JsBuiltins.NonEmpty` | server.js:114 | `filter(Boolean)` keeps exactly the non-empty strings, each as often as it occurs (the multiset of the input without `""`) |
| `JsBuiltins.NonEmptyAppend` | server.js:114 | `filter(Boolean)` keeps order: it distributes over concatenation |
| `JsBuiltins.MapOrThrow` | server.js:115-124 | `map` with a throwing callback: all results, in order, iff no callback throws; otherwise it names the first throwing element, all before it having succeeded |

## Left out

- The database (`Log`, `save`, `find().sort`, `readyState`) is not defined in
  `server.js`. Its outcomes are inputs, and its newest-first sorting is not
  modelled. The same goes for `log.timestamp.toISOString()` on its documents.
- Reading `db.readyState` throws a ReferenceError as written, which turns
  every admin request into a 500. The model replaces that read with the
  `readyState` input (see Modelling assumptions).
- The HTML table, the Google Maps link and the EJS rendering are
  presentation only. So are the decoy route `/yt/:id`, body parsing, the
  port and `app.listen`. The listing is modelled as its heading's source
  name plus its rows.
- `appendFileSync` failing (a full disk, missing permissions) is not
  modelled. The call sits outside the `try` of `POST /log`, so the append is
  assumed to succeed.
- `readFileSync` failures other than a missing file are not distinguished;
  every read failure leads to the same 500.
- The body fields are taken as the strings the template literal renders.
  The rendering of numbers, `undefined` or objects, and a missing body, are
  not modelled.
- Strings are sequences of Unicode scalar values, while JavaScript uses
  UTF-16 code units. Every character the codec inspects is in the Basic
  Multilingual Plane. Lone surrogates cannot be represented.
- `console.log` output and concurrent appends are not modelled.
- The JSON serialisation done by `res.json` is not modelled; the export is
  its sequence of records.
