/** The flat-file record codec of server.js: one observation becomes one
    pipe-delimited, labelled line, and a line is parsed back by position.

    The timestamp is whatever `new Date().toISOString()` returned when the
    line was written; here it is an input. */
module LogLine {
  import opened Results
  import opened JsBuiltins
  import opened Seqs

  /** The JSON body of `POST /log`: the four fields the visitor's page reports,
      each already rendered to text the way a template literal renders it. */
  datatype Observation = Observation(ip: string, lat: string, lon: string, userAgent: string)

  /** One element of the export document: the fields read back from a line. */
  datatype LogRecord = LogRecord(timestamp: string, ip: string, lat: string, lon: string, userAgent: string)

  /** `parts[index]` was `undefined`, so calling `.replace` on it threw. */
  datatype ParseError = MissingSegment(index: nat)

  const Separator: char := '|'
  const Newline: char := '\n'

  const IpLabel: string := "IP:"
  const LatLabel: string := "Lat:"
  const LonLabel: string := "Lon:"
  const UaLabel: string := "UA:"

  /** What `saveToLocalFile` writes: the record's line and its newline. */
  function Format(timestamp: string, o: Observation): (line: string)
    ensures |line| > 0 && line[|line| - 1] == Newline
    ensures line[..|line| - 1] == Body(timestamp, o)
  {
    Body(timestamp, o) + [Newline]
  }

  /** The text of a record's line, without its newline: the template
      `"<ts> | IP: <ip> | Lat: <lat> | Lon: <lon> | UA: <ua>"` read as its
      five segments joined by the separator (`BodyIsTemplate`). */
  function Body(timestamp: string, o: Observation): string {
    Join(Segments(timestamp, o), Separator)
  }

  function Segments(timestamp: string, o: Observation): seq<string> {
    [ timestamp + " ",
      Labelled(IpLabel, o.ip) + " ",
      Labelled(LatLabel, o.lat) + " ",
      Labelled(LonLabel, o.lon) + " ",
      Labelled(UaLabel, o.userAgent) ]
  }

  /** A segment's text before its trailing space: `" IP: <value>"`. */
  function Labelled(name: string, value: string): string {
    " " + name + " " + value
  }

  /** Joining five pieces, spelled out. */
  lemma JoinFive(s0: string, s1: string, s2: string, s3: string, s4: string, sep: char)
    ensures Join([s0, s1, s2, s3, s4], sep)
         == s0 + [sep] + (s1 + [sep] + (s2 + [sep] + (s3 + [sep] + s4)))
  {
    assert [s3, s4][1..] == [s4];
    assert Join([s3, s4], sep) == s3 + [sep] + s4;
    assert [s2, s3, s4][1..] == [s3, s4];
    assert Join([s2, s3, s4], sep) == s2 + [sep] + Join([s3, s4], sep);
    assert [s1, s2, s3, s4][1..] == [s2, s3, s4];
    assert Join([s1, s2, s3, s4], sep) == s1 + [sep] + Join([s2, s3, s4], sep);
    assert [s0, s1, s2, s3, s4][1..] == [s1, s2, s3, s4];
  }

  /** The segments, joined, are the template literal of server.js. */
  lemma BodyIsTemplate(timestamp: string, o: Observation)
    ensures Body(timestamp, o)
         == timestamp + " | IP: " + o.ip + " | Lat: " + o.lat + " | Lon: " + o.lon + " | UA: " + o.userAgent
  {
    var g := Segments(timestamp, o);
    JoinFive(g[0], g[1], g[2], g[3], g[4], Separator);
    var sp, sep := " ", Separator;
    var j3 := g[3] + [sep] + g[4];
    var j2 := g[2] + [sep] + j3;
    var a1 := timestamp + (sp + [sep] + sp + IpLabel + sp) + o.ip;
    var a2 := a1 + (sp + [sep] + sp + LatLabel + sp) + o.lat;
    var a3 := a2 + (sp + [sep] + sp + LonLabel + sp) + o.lon;
    TemplateStep(timestamp, sp, sep, IpLabel, o.ip, j2);
    TemplateStep(a1, sp, sep, LatLabel, o.lat, j3);
    TemplateStep(a2, sp, sep, LonLabel, o.lon, g[4]);
    TemplateLast(a3, sp, sep, UaLabel, o.userAgent);
    GluesAreLiterals();
  }

  /** What stands between two fields of the template: a space, the separator,
      a space, the next label and a space. */
  function Glue(name: string): string {
    " " + [Separator] + " " + name + " "
  }

  lemma GluesAreLiterals()
    ensures Glue(IpLabel) == " | IP: " && Glue(LatLabel) == " | Lat: "
    ensures Glue(LonLabel) == " | Lon: " && Glue(UaLabel) == " | UA: "
  {
  }

  /** One joint of the template: a prefix, the separator and the next
      labelled segment, regrouped so that the segment's field stands alone. */
  lemma TemplateStep<T>(a: seq<T>, sp: seq<T>, sep: T, l: seq<T>, x: seq<T>, tail: seq<T>)
    ensures a + sp + [sep] + (sp + l + sp + x + sp + [sep] + tail)
         == a + (sp + [sep] + sp + l + sp) + x + sp + [sep] + tail
  {
  }

  /** The last joint of the template, before the user agent. */
  lemma TemplateLast<T>(a: seq<T>, sp: seq<T>, sep: T, l: seq<T>, x: seq<T>)
    ensures a + sp + [sep] + (sp + l + sp + x) == a + (sp + [sep] + sp + l + sp) + x
  {
  }

  /** How one segment becomes a field: the first occurrence of its label `name` is
      removed, wherever it is, and the rest is trimmed. */
  function Field(segment: string, name: string): string {
    Trim(RemoveFirst(segment, name))
  }

  /** The per-line parse of both admin handlers. A line parses exactly when it
      has at least four separators (five segments); otherwise the first
      missing segment is reported. No parsed field holds a separator. */
  function ParseLine(line: string): (r: Result<LogRecord, ParseError>)
    ensures r.Ok? <==> multiset(line)[Separator] >= 4
    ensures r.Err? ==> r.error.index == multiset(line)[Separator] + 1
    ensures r.Ok? ==> SeparatorFree(r.value)
  {
    var parts := Split(line, Separator);
    if |parts| < 5 then Err(MissingSegment(|parts|))
    else
      assert Separator !in parts[0] && Separator !in parts[1] && Separator !in parts[2]
          && Separator !in parts[3] && Separator !in parts[4];
      Ok(LogRecord(Trim(parts[0]),
                   Field(parts[1], IpLabel),
                   Field(parts[2], LatLabel),
                   Field(parts[3], LonLabel),
                   Field(parts[4], UaLabel)))
  }

  /** No field of the record holds the separator. */
  predicate SeparatorFree(r: LogRecord) {
    && Separator !in r.timestamp && Separator !in r.ip && Separator !in r.lat
    && Separator !in r.lon && Separator !in r.userAgent
  }

  /** A value survives the line format when it has no separator, no newline
      and no leading or trailing whitespace. */
  predicate Representable(s: string) {
    Separator !in s && Newline !in s && Trimmed(s)
  }

  predicate Loggable(timestamp: string, o: Observation) {
    && Representable(timestamp) && Representable(o.ip) && Representable(o.lat)
    && Representable(o.lon) && Representable(o.userAgent)
  }

  /** The record a line written at `timestamp` for `o` should read back as. */
  function Recorded(timestamp: string, o: Observation): LogRecord {
    LogRecord(timestamp, o.ip, o.lat, o.lon, o.userAgent)
  }

  // ---------------------------------------------------------------------
  // Round trip
  // ---------------------------------------------------------------------

  /** A written segment `Labelled(label, x) + pad` reads back as `x + pad`,
      trimmed: the label the formatter writes is the first occurrence in its
      segment, whatever `x` holds. */
  lemma FieldOfWritten(name: string, x: string, pad: string)
    requires |name| > 0 && !IsWhitespace(name[0])
    ensures Field(Labelled(name, x) + pad, name) == Trim(x + pad)
  {
    var rest := " " + x + pad;
    Assoc(" " + name, " " + x, pad);
    Assoc(" " + name, " ", x);
    NotAtSpace(name, rest);
    RemoveFirstAfter(" ", name, rest);
    Assoc(" ", " " + x, pad);
    Assoc(" ", " ", x);
    Assoc(" " + " ", x, pad);
    TrimSkipsBlankPrefix(" " + " ", x + pad);
  }

  /** A label that starts visibly does not occur at a segment's leading
      space. */
  lemma NotAtSpace(name: string, rest: string)
    requires |name| > 0 && !IsWhitespace(name[0])
    ensures forall j :: 0 <= j < |" "| ==> !OccursAt(" " + name + rest, name, j)
  {
    var seg := " " + name + rest;
    assert seg[0] == ' ' && IsWhitespace(' ');
  }

  /** No label starts with whitespace. */
  lemma LabelsStartVisibly()
    ensures |IpLabel| > 0 && !IsWhitespace(IpLabel[0])
    ensures |LatLabel| > 0 && !IsWhitespace(LatLabel[0])
    ensures |LonLabel| > 0 && !IsWhitespace(LonLabel[0])
    ensures |UaLabel| > 0 && !IsWhitespace(UaLabel[0])
  {
  }

  /** A trimmed value followed by whitespace trims back to itself. */
  lemma TrimValue(x: string, pad: string)
    requires Trimmed(x) && AllWhitespace(pad)
    ensures Trim(x + pad) == x
  {
    TrimPadded([], x, pad);
    assert [] + x + pad == x + pad;
  }

  /** A trimmed value is its own trim. */
  lemma TrimmedIsFixed(x: string)
    requires Trimmed(x)
    ensures Trim(x) == x
  {
    TrimPadded([], x, []);
    assert [] + x + [] == x;
  }

  /** A labelled segment followed by the formatter's space reads back as its
      trimmed value. */
  lemma FieldBack(name: string, x: string)
    requires |name| > 0 && !IsWhitespace(name[0])
    requires Trimmed(x)
    ensures Field(Labelled(name, x) + " ", name) == x
  {
    FieldOfWritten(name, x, " ");
    TrimValue(x, " ");
  }

  /** The last segment has no trailing space: it reads back as its value,
      trimmed. */
  lemma LastFieldOf(name: string, x: string)
    requires |name| > 0 && !IsWhitespace(name[0])
    ensures Field(Labelled(name, x), name) == Trim(x)
  {
    FieldOfWritten(name, x, []);
    AppendNothing(Labelled(name, x));
    AppendNothing(x);
  }

  /** The first four segments of a line written from representable values
      read back as exactly those values. */
  lemma FirstFourBack(timestamp: string, o: Observation)
    requires Trimmed(timestamp) && Trimmed(o.ip) && Trimmed(o.lat) && Trimmed(o.lon)
    ensures var g := Segments(timestamp, o);
            && Trim(g[0]) == timestamp && Field(g[1], IpLabel) == o.ip
            && Field(g[2], LatLabel) == o.lat && Field(g[3], LonLabel) == o.lon
  {
    var g := Segments(timestamp, o);
    assert g[0] == timestamp + " " && g[1] == Labelled(IpLabel, o.ip) + " ";
    assert g[2] == Labelled(LatLabel, o.lat) + " " && g[3] == Labelled(LonLabel, o.lon) + " ";
    LabelsStartVisibly();
    TrimValue(timestamp, " ");
    FieldBack(IpLabel, o.ip);
    FieldBack(LatLabel, o.lat);
    FieldBack(LonLabel, o.lon);
  }

  /** A line whose fields hold no separator splits back into its segments. */
  lemma ParseBySegments(timestamp: string, o: Observation)
    requires Separator !in timestamp && Separator !in o.ip && Separator !in o.lat
    requires Separator !in o.lon && Separator !in o.userAgent
    ensures var g := Segments(timestamp, o);
            ParseLine(Body(timestamp, o)) == Ok(LogRecord(Trim(g[0]), Field(g[1], IpLabel),
                                                          Field(g[2], LatLabel), Field(g[3], LonLabel),
                                                          Field(g[4], UaLabel)))
  {
    var g := Segments(timestamp, o);
    forall i | 0 <= i < 5 ensures Separator !in g[i] {
    }
    SplitJoin(g, Separator);
  }

  /** Parsing a formatted line gives back the timestamp and the four fields
      exactly, provided each is `Representable`. A field may even contain its
      own label (an `ip` of `"IP:1"`, say): it is still recovered. */
  lemma RoundTrip(timestamp: string, o: Observation)
    requires Loggable(timestamp, o)
    ensures ParseLine(Body(timestamp, o)) == Ok(Recorded(timestamp, o))
  {
    ParseBySegments(timestamp, o);
    FirstFourBack(timestamp, o);
    LabelsStartVisibly();
    LastFieldOf(UaLabel, o.userAgent);
    TrimmedIsFixed(o.userAgent);
  }

  // ---------------------------------------------------------------------
  // Where the round trip is lossy
  // ---------------------------------------------------------------------

  /** A value holding a separator cannot come back: the parsed fields never
      hold one. */
  lemma SeparatorIsLost(timestamp: string, o: Observation)
    requires Separator in o.ip || Separator in o.lat || Separator in o.lon || Separator in o.userAgent
    ensures ParseLine(Body(timestamp, o)) != Ok(Recorded(timestamp, o))
  {
  }

  /** Segments after the fifth are ignored: appending a separator and any text
      to a line that already parses leaves its record unchanged. */
  lemma TrailingSegmentsIgnored(line: string, extra: string)
    requires ParseLine(line).Ok?
    ensures ParseLine(line + [Separator] + extra) == ParseLine(line)
  {
    SplitAround(line, Separator, extra);
    var parts := Split(line, Separator);
    var more := Split(line + [Separator] + extra, Separator);
    assert |parts| >= 5;
    FirstFiveOfConcat(parts, Split(extra, Separator));
  }

  /** A separator inside the user agent truncates it: everything from its
      first separator on is dropped, and the other fields still come back. */
  lemma UserAgentTruncated(timestamp: string, o: Observation, k: nat)
    requires Representable(timestamp) && Representable(o.ip)
    requires Representable(o.lat) && Representable(o.lon)
    requires k < |o.userAgent| && o.userAgent[k] == Separator && Separator !in o.userAgent[..k]
    ensures ParseLine(Body(timestamp, o))
         == Ok(LogRecord(timestamp, o.ip, o.lat, o.lon, Trim(o.userAgent[..k])))
  {
    var short := o.(userAgent := o.userAgent[..k]);
    BodyOfTruncated(timestamp, o, k);
    ParseBySegments(timestamp, short);
    FirstFourBack(timestamp, short);
    LabelsStartVisibly();
    LastFieldOf(UaLabel, short.userAgent);
    TrailingSegmentsIgnored(Body(timestamp, short), o.userAgent[k + 1..]);
  }

  /** The line of an observation whose user agent holds a separator at `k`
      is the line of the user agent cut at `k`, then the separator and the
      rest. */
  lemma BodyOfTruncated(timestamp: string, o: Observation, k: nat)
    requires k < |o.userAgent| && o.userAgent[k] == Separator
    ensures Body(timestamp, o)
         == Body(timestamp, o.(userAgent := o.userAgent[..k])) + [Separator] + o.userAgent[k + 1..]
  {
    var head := o.userAgent[..k];
    var tail := o.userAgent[k + 1..];
    var g := Segments(timestamp, o);
    var h := Segments(timestamp, o.(userAgent := head));
    assert o.userAgent == head + [Separator] + tail;
    Assoc(" " + UaLabel + " ", head + [Separator], tail);
    Assoc(" " + UaLabel + " ", head, [Separator]);
    JoinFive(g[0], g[1], g[2], g[3], g[4], Separator);
    JoinFive(h[0], h[1], h[2], h[3], h[4], Separator);
    ExtendInnermost(h[0], h[1], h[2], h[3], h[4], tail, Separator);
  }

  /** Extending the last of five joined pieces extends the join. */
  lemma ExtendInnermost<T>(s0: seq<T>, s1: seq<T>, s2: seq<T>, s3: seq<T>, s4: seq<T>, t: seq<T>, sep: T)
    ensures s0 + [sep] + (s1 + [sep] + (s2 + [sep] + (s3 + [sep] + (s4 + [sep] + t))))
         == s0 + [sep] + (s1 + [sep] + (s2 + [sep] + (s3 + [sep] + s4))) + [sep] + t
  {
  }

  // ---------------------------------------------------------------------
  // Label stripping
  // ---------------------------------------------------------------------

  /** Only the first occurrence of the label `name` is removed, wherever it stands,
      even in the middle of the segment; a later occurrence stays. */
  lemma LabelRemovedOnce(before: string, name: string, after: string)
    requires forall j :: 0 <= j < |before| ==> !OccursAt(before + name + after, name, j)
    ensures Field(before + name + after, name) == Trim(before + after)
  {
    RemoveFirstAfter(before, name, after);
  }

  /** A segment without the label `name` is only trimmed. */
  lemma UnlabelledSegmentTrimmed(segment: string, name: string)
    requires forall j :: !OccursAt(segment, name, j)
    ensures Field(segment, name) == Trim(segment)
  {
    assert RemoveFirst(segment, name) == segment;
  }

  // ---------------------------------------------------------------------
  // A whole listing
  // ---------------------------------------------------------------------

  /** `lines.map(parse)` in both admin handlers: one record per line, in
      line order, or the first line whose parse throws, which ends the map. */
  function ParseLines(lines: seq<string>): (r: Result<seq<LogRecord>, Thrown<ParseError>>)
    ensures r.Ok? <==> forall i :: 0 <= i < |lines| ==> multiset(lines[i])[Separator] >= 4
    ensures r.Ok? ==> |r.value| == |lines|
    ensures r.Ok? ==> forall i :: 0 <= i < |lines| ==> ParseLine(lines[i]) == Ok(r.value[i])
    ensures r.Err? ==> r.error.index < |lines| && multiset(lines[r.error.index])[Separator] < 4
  {
    MapOrThrow(lines, ParseLine)
  }

  /** Parsing one more line that parses extends the records by its record. */
  lemma ParseLinesSnoc(lines: seq<string>, line: string)
    requires ParseLines(lines).Ok? && ParseLine(line).Ok?
    ensures ParseLines(lines + [line]) == Ok(ParseLines(lines).value + [ParseLine(line).value])
  {
    MapOrThrowSnoc(lines, line, ParseLine);
  }
}
