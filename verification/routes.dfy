/** The three persistence routes of server.js as pure functions of their
    inputs.

    `Log` and `db` are used by server.js but never defined or imported there;
    what the database would do is therefore an input: whether `save()`
    succeeded, the connection's `readyState`, and what
    `Log.find().sort({ timestamp: -1 })` returned (`None` when it threw), as
    documents of an unspecified type `D`. */
module Routes {
  import opened Results
  import opened JsBuiltins
  import opened LogLine
  import opened LocalLog

  /** Where the admin routes read from. */
  datatype Source = Database | LocalFileStore

  /** `db.readyState === 1` picks the database; any other state the file. */
  function SelectSource(readyState: int): (s: Source)
    ensures s == Database <==> readyState == 1
  {
    if readyState == 1 then Database else LocalFileStore
  }

  /** The attachment name of the export, fixed per source. */
  function ExportFilename(s: Source): string {
    match s
    case Database => "logs.json"
    case LocalFileStore => "logs_backup.json"
  }

  /** The word in the listing's heading naming the source. */
  function SourceName(s: Source): string {
    match s
    case Database => "MongoDB"
    case LocalFileStore => "Local File"
  }

  const ListingError: string := "Error fetching logs"
  const ExportError: string := "Error downloading logs"

  /** The rows a response carries: database documents as returned, or the
      records parsed from the file. */
  datatype Rows<D> = DbRows(docs: seq<D>) | FileRows(records: seq<LogRecord>)

  datatype Response<D> =
    | Html(sourceName: string, rows: Rows<D>)              // `res.send(html)`
    | JsonAttachment(filename: string, rows: Rows<D>)      // `Content-Disposition` + `res.json`
    | ServerError(status: nat, message: string)            // the `catch` branch

  // ---------------------------------------------------------------------
  // POST /log
  // ---------------------------------------------------------------------

  /** `res.json({ status: 'ok' })`, the only answer of `POST /log`. */
  datatype Ack = StatusOk

  datatype Posted = Posted(file: LocalFile, ack: Ack)

  /** `POST /log`: the database save is attempted and its failure swallowed;
      then exactly one line is appended to the file, and the answer is
      `{status: 'ok'}`, whatever the save did. Earlier text is untouched. */
  function Ingest(file: LocalFile, body: Observation, timestamp: string, dbSaved: bool): (r: Posted)
    ensures r.ack == StatusOk
    ensures Text(r.file) == Some(Concat(Chunks(file)) + Format(timestamp, body))
    ensures |Chunks(r.file)| == |Chunks(file)| + 1 && Chunks(r.file)[..|Chunks(file)|] == Chunks(file)
  {
    // The outcome of `logEntry.save()` only decides what is logged to the
    // console; both paths reach the append.
    Posted(Append(file, Format(timestamp, body)), StatusOk)
  }

  // ---------------------------------------------------------------------
  // GET /admin/logs and GET /admin/logs/download
  // ---------------------------------------------------------------------

  /** `GET /admin/logs`. With the database ready its documents are listed as
      returned; otherwise the file's records are listed in file order. A
      failed query, a missing file or a line that does not parse gives a 500
      with a fixed message. */
  function Listing<D>(readyState: int, dbQuery: Option<seq<D>>, file: LocalFile): (r: Response<D>)
    ensures r.Html? || r == ServerError(500, ListingError)
    ensures r.Html? ==> r.sourceName == (if readyState == 1 then "MongoDB" else "Local File")
    ensures readyState == 1 ==> (r.Html? <==> dbQuery.Some?)
    ensures readyState == 1 && r.Html? ==> r.rows == DbRows(dbQuery.value)
    ensures readyState != 1 ==> (r.Html? <==> ReadRecords(file).Ok?)
    ensures readyState != 1 && r.Html? ==> r.rows == FileRows(ReadRecords(file).value)
  {
    var source := SelectSource(readyState);
    match source
    case Database =>
      (match dbQuery
       case None => ServerError(500, ListingError)
       case Some(docs) => Html(SourceName(source), DbRows(docs)))
    case LocalFileStore =>
      (match ReadRecords(file)
       case Err(_) => ServerError(500, ListingError)
       case Ok(records) => Html(SourceName(source), FileRows(records)))
  }

  /** `GET /admin/logs/download`: the same choice of source as the listing;
      the attachment is `logs.json` for the database and `logs_backup.json`
      for the file. */
  function Export<D>(readyState: int, dbQuery: Option<seq<D>>, file: LocalFile): (r: Response<D>)
    ensures r.JsonAttachment? || r == ServerError(500, ExportError)
    ensures r.JsonAttachment? ==> r.filename == (if readyState == 1 then "logs.json" else "logs_backup.json")
    ensures r.JsonAttachment? ==> (r.rows.DbRows? <==> readyState == 1)
    ensures readyState == 1 ==> (r.JsonAttachment? <==> dbQuery.Some?)
    ensures readyState == 1 && r.JsonAttachment? ==> r.rows == DbRows(dbQuery.value)
    ensures readyState != 1 ==> (r.JsonAttachment? <==> ReadRecords(file).Ok?)
    ensures readyState != 1 && r.JsonAttachment? ==> r.rows == FileRows(ReadRecords(file).value)
  {
    var source := SelectSource(readyState);
    match source
    case Database =>
      (match dbQuery
       case None => ServerError(500, ExportError)
       case Some(docs) => JsonAttachment(ExportFilename(source), DbRows(docs)))
    case LocalFileStore =>
      (match ReadRecords(file)
       case Err(_) => ServerError(500, ExportError)
       case Ok(records) => JsonAttachment(ExportFilename(source), FileRows(records)))
  }

  // ---------------------------------------------------------------------
  // Properties of the local path
  // ---------------------------------------------------------------------

  /** The local export holds one object per non-empty line of the file, in
      file order, each parsed from its line. */
  lemma LocalExportFollowsLines<D>(readyState: int, dbQuery: Option<seq<D>>, file: LocalFile)
    requires readyState != 1
    requires Export(readyState, dbQuery, file).JsonAttachment?
    ensures var r := Export(readyState, dbQuery, file);
            var lines := ReadLines(file).value;
            && r.filename == "logs_backup.json"
            && |r.rows.records| == |lines|
            && forall i :: 0 <= i < |lines| ==> ParseLine(lines[i]) == Ok(r.rows.records[i])
  {
  }

  /** A non-empty line with fewer than four separators (five segments) makes
      both admin routes answer 500 on the local path. */
  lemma MalformedLineFails<D>(readyState: int, dbQuery: Option<seq<D>>, file: LocalFile, i: nat)
    requires readyState != 1
    requires ReadLines(file).Some? && i < |ReadLines(file).value|
    requires multiset(ReadLines(file).value[i])[Separator] < 4
    ensures Export(readyState, dbQuery, file) == ServerError(500, ExportError)
    ensures Listing(readyState, dbQuery, file) == ServerError(500, ListingError)
  {
    var lines := ReadLines(file).value;
    assert ParseLine(lines[i]).Err?;
  }

  /** Without the database and before any `POST /log`, the file does not exist
      and both admin routes answer 500. */
  lemma MissingFileFails<D>(readyState: int, dbQuery: Option<seq<D>>)
    requires readyState != 1
    ensures Export(readyState, dbQuery, Missing) == ServerError(500, ExportError)
    ensures Listing(readyState, dbQuery, Missing) == ServerError(500, ListingError)
  {
  }

  // ---------------------------------------------------------------------
  // A history of posts
  // ---------------------------------------------------------------------

  /** One `POST /log`: when it arrived, its body, and whether the database
      save went through. */
  datatype Post = Post(timestamp: string, body: Observation, dbSaved: bool)

  /** The file after the posts, in order. */
  function Replay(file: LocalFile, posts: seq<Post>): (g: LocalFile)
    ensures |Chunks(g)| == |Chunks(file)| + |posts|
    ensures Chunks(g)[..|Chunks(file)|] == Chunks(file)
    decreases |posts|
  {
    if |posts| == 0 then file
    else
      var last := posts[|posts| - 1];
      var before := Replay(file, posts[..|posts| - 1]);
      var g := Ingest(before, last.body, last.timestamp, last.dbSaved).file;
      assert Chunks(g)[..|Chunks(file)|] == Chunks(g)[..|Chunks(before)|][..|Chunks(file)|];
      g
  }

  /** The records the posts should read back as, in order. */
  function Expected(posts: seq<Post>): (r: seq<LogRecord>)
    ensures |r| == |posts|
    decreases |posts|
  {
    if |posts| == 0 then []
    else
      var last := posts[|posts| - 1];
      Expected(posts[..|posts| - 1]) + [Recorded(last.timestamp, last.body)]
  }

  predicate AllLoggable(posts: seq<Post>) {
    forall i :: 0 <= i < |posts| ==> Loggable(posts[i].timestamp, posts[i].body)
  }

  /** Posting one loggable observation to a file that reads as `records` and
      ends at a line boundary makes it read as `records` and the new record,
      whatever happened to the database save. */
  lemma IngestExtendsRecords(file: LocalFile, records: seq<LogRecord>, p: Post)
    requires AtLineBoundary(file)
    requires file.Missing? ==> records == []
    requires file.Present? ==> ReadRecords(file) == Ok(records)
    requires Loggable(p.timestamp, p.body)
    ensures var g := Ingest(file, p.body, p.timestamp, p.dbSaved).file;
            AtLineBoundary(g) && ReadRecords(g) == Ok(records + [Recorded(p.timestamp, p.body)])
  {
    var line := Body(p.timestamp, p.body);
    var g := Ingest(file, p.body, p.timestamp, p.dbSaved).file;
    BodyHasNoNewline(p.timestamp, p.body);
    assert Format(p.timestamp, p.body) == line + [Newline];
    assert g == Append(file, line + [Newline]);
    AppendLine(file, line);
    RoundTrip(p.timestamp, p.body);
    if file.Missing? {
      MapOrThrowSnoc([], line, ParseLine);
      assert LinesOr(file) + [line] == [] + [line];
    } else {
      ParseLinesSnoc(ReadLines(file).value, line);
    }
  }

  /** No field holds a newline, so neither does the line. */
  lemma BodyHasNoNewline(timestamp: string, o: Observation)
    requires Loggable(timestamp, o)
    ensures Body(timestamp, o) != [] && Newline !in Body(timestamp, o)
  {
    BodyIsTemplate(timestamp, o);
  }

  /** Starting from no file, any non-empty sequence of loggable posts — each
      database save succeeding or not — is exported from the file, when the
      database is not ready, as exactly their records in posting order, under
      `logs_backup.json`. */
  lemma ReplayThenExport<D>(readyState: int, dbQuery: Option<seq<D>>, posts: seq<Post>)
    requires readyState != 1
    requires |posts| > 0 && AllLoggable(posts)
    ensures Export(readyState, dbQuery, Replay(Missing, posts))
         == JsonAttachment("logs_backup.json", FileRows(Expected(posts)))
    ensures Listing(readyState, dbQuery, Replay(Missing, posts))
         == Html("Local File", FileRows(Expected(posts)))
  {
    ReplayRecords(posts);
  }

  /** The induction behind `ReplayThenExport`. */
  lemma {:induction false} ReplayRecords(posts: seq<Post>)
    requires AllLoggable(posts)
    ensures AtLineBoundary(Replay(Missing, posts))
    ensures |posts| > 0 ==> ReadRecords(Replay(Missing, posts)) == Ok(Expected(posts))
    ensures |posts| == 0 ==> Replay(Missing, posts) == Missing
    decreases |posts|
  {
    if |posts| > 0 {
      var init := posts[..|posts| - 1];
      var last := posts[|posts| - 1];
      assert AllLoggable(init) by {
        forall i | 0 <= i < |init| ensures Loggable(init[i].timestamp, init[i].body) {
          assert init[i] == posts[i];
        }
      }
      ReplayRecords(init);
      var before := Replay(Missing, init);
      IngestExtendsRecords(before, Expected(init), last);
    }
  }
}
