/** The backup file `logs.txt`: `fs.appendFileSync` adds text at its end
    (creating it on first use), and the admin handlers read it whole with
    `fs.readFileSync`, split it on newlines and drop the empty lines. */
module LocalLog {
  import opened Results
  import opened JsBuiltins
  import opened LogLine
  import opened Seqs

  /** The file, as the sequence of texts appended to it; `Missing` until the
      first append. */
  datatype LocalFile = Missing | Present(chunks: seq<string>)

  /** Why the records of the file could not be read. */
  datatype ReadError =
    | FileNotFound                        // `readFileSync` threw
    | Unparsable(at: Thrown<ParseError>)  // a line's parse threw

  function Chunks(f: LocalFile): seq<string> {
    if f.Missing? then [] else f.chunks
  }

  /** The appended texts, one after another. */
  function Concat(chunks: seq<string>): string
    decreases |chunks|
  {
    if |chunks| == 0 then [] else Concat(chunks[..|chunks| - 1]) + chunks[|chunks| - 1]
  }

  /** `fs.readFileSync(localLogFile, 'utf8')`, or `None` when it throws
      because the file was never written. */
  function Text(f: LocalFile): Option<string> {
    if f.Missing? then None else Some(Concat(f.chunks))
  }

  /** `fs.appendFileSync(localLogFile, text)`: the file exists afterwards and
      reads as its old contents (nothing, if it was missing) followed by
      `text`. */
  function Append(f: LocalFile, text: string): (g: LocalFile)
    ensures Text(g) == Some(Concat(Chunks(f)) + text)
    ensures |Chunks(g)| == |Chunks(f)| + 1 && Chunks(g)[..|Chunks(f)|] == Chunks(f)
  {
    var chunks := Chunks(f) + [text];
    assert chunks[..|chunks| - 1] == Chunks(f);
    Present(chunks)
  }

  /** `readFileSync(...).split('\n').filter(Boolean)`: the non-empty lines of
      the file, none of which holds a newline; `None` when the file is
      missing. */
  function ReadLines(f: LocalFile): (r: Option<seq<string>>)
    ensures r.None? <==> f.Missing?
    ensures r.Some? ==> forall i :: 0 <= i < |r.value| ==> r.value[i] != [] && Newline !in r.value[i]
  {
    match Text(f)
    case None => None
    case Some(text) =>
      var lines := NonEmpty(Split(text, Newline));
      assert forall i :: 0 <= i < |lines| ==> lines[i] in Split(text, Newline);
      Some(lines)
  }

  /** The records the local path of both admin handlers builds: one per
      non-empty line, in file order, or the reason it throws. */
  function ReadRecords(f: LocalFile): (r: Result<seq<LogRecord>, ReadError>)
    ensures r == Err(FileNotFound) <==> f.Missing?
    ensures r.Ok? ==> ReadLines(f).Some? && |r.value| == |ReadLines(f).value|
    ensures r.Ok? ==> forall i :: 0 <= i < |r.value| ==> ParseLine(ReadLines(f).value[i]) == Ok(r.value[i])
    ensures r.Err? && f.Present? ==> exists i :: 0 <= i < |ReadLines(f).value| && ParseLine(ReadLines(f).value[i]).Err?
  {
    match ReadLines(f)
    case None => Err(FileNotFound)
    case Some(lines) =>
      match ParseLines(lines)
      case Err(at) => Err(Unparsable(at))
      case Ok(records) => Ok(records)
  }

  /** The file text ends at a line boundary: it is empty or ends in a newline,
      so the next append starts a fresh line. */
  predicate AtLineBoundary(f: LocalFile) {
    var text := Concat(Chunks(f));
    |text| == 0 || text[|text| - 1] == Newline
  }

  /** Appending one newline-terminated line to a file at a line boundary adds
      exactly that line to what the handlers read, after the others. */
  lemma AppendLine(f: LocalFile, line: string)
    requires AtLineBoundary(f)
    requires line != [] && Newline !in line
    ensures ReadLines(Append(f, line + [Newline])) == Some(LinesOr(f) + [line])
    ensures AtLineBoundary(Append(f, line + [Newline]))
  {
    var text := Concat(Chunks(f));
    var added := text + (line + [Newline]);
    var g := Append(f, line + [Newline]);
    assert Text(g) == Some(added);
    LinesAfterBoundary(text, line);
    if f.Missing? {
      LinesOfNothing();
    }
    assert added[|added| - 1] == Newline;
  }

  /** The empty file text holds no line. */
  lemma LinesOfNothing()
    ensures NonEmpty(Split([], Newline)) == []
  {
    assert Split([], Newline) == [""];
    KeepsOnlyTheLine("x");
  }

  /** Text at a line boundary followed by one more line and its newline reads
      as the lines of the text and then that line. */
  lemma LinesAfterBoundary(text: string, line: string)
    requires |text| == 0 || text[|text| - 1] == Newline
    requires line != [] && Newline !in line
    ensures NonEmpty(Split(text + (line + [Newline]), Newline)) == NonEmpty(Split(text, Newline)) + [line]
  {
    if |text| == 0 {
      LinesOfFirstLine(line);
      LinesOfNothing();
      PrependNothing(line + [Newline]);
      PrependNothing(NonEmpty(Split(line + [Newline], Newline)));
    } else {
      FrontAndLast(text);
      LinesOfNextLine(text[..|text| - 1], line);
    }
  }

  /** The text of one line and its newline reads as that line. */
  lemma LinesOfFirstLine(line: string)
    requires line != [] && Newline !in line
    ensures NonEmpty(Split(line + [Newline], Newline)) == [line]
  {
    SplitWithoutSeparator(line, Newline);
    assert line + [Newline] == line + [Newline] + [];
    SplitAround(line, Newline, []);
    assert Split([], Newline) == [""];
    NonEmptyAppend([line], [""]);
  }

  /** Text ending in a newline, followed by one more line and its newline,
      reads as the lines of the text and then that line. */
  lemma LinesOfNextLine(front: string, line: string)
    requires line != [] && Newline !in line
    ensures NonEmpty(Split(front + [Newline] + (line + [Newline]), Newline))
         == NonEmpty(Split(front + [Newline], Newline)) + [line]
  {
    var rf := Split(front, Newline);
    SplitNextLine(front, line);
    NonEmptyAppend(rf, [line, ""]);
    NonEmptyAppend(rf, [""]);
    KeepsOnlyTheLine(line);
    assert NonEmpty(rf) + [] == NonEmpty(rf);
  }

  lemma KeepsOnlyTheLine(line: string)
    requires line != []
    ensures NonEmpty([line, ""]) == [line]
    ensures NonEmpty([""]) == []
  {
    assert [line, ""][1..] == [""];
  }

  lemma SplitNextLine(front: string, line: string)
    requires Newline !in line
    ensures Split(front + [Newline] + (line + [Newline]), Newline) == Split(front, Newline) + [line, ""]
    ensures Split(front + [Newline], Newline) == Split(front, Newline) + [""]
  {
    SplitWithoutSeparator(line, Newline);
    assert Split([], Newline) == [""];
    assert front + [Newline] == front + [Newline] + [];
    SplitAround(front, Newline, []);
    assert line + [Newline] == line + [Newline] + [];
    SplitAround(line, Newline, []);
    SplitAround(front, Newline, line + [Newline]);
  }

  /** The lines read from a file, none if it is missing. */
  function LinesOr(f: LocalFile): seq<string> {
    if f.Missing? then [] else ReadLines(f).value
  }

  /** A newline-terminated line with no other newline and something before
      it: what `saveToLocalFile` appends for fields without newlines. */
  predicate IsEntry(chunk: string) {
    |chunk| >= 2 && chunk[|chunk| - 1] == Newline && Newline !in chunk[..|chunk| - 1]
  }

  /** A file made of k entries reads as exactly k lines, the entries without
      their newlines, in the order they were written. */
  lemma {:induction false} LinesOfEntries(chunks: seq<string>)
    requires forall i :: 0 <= i < |chunks| ==> IsEntry(chunks[i])
    ensures AtLineBoundary(Present(chunks))
    ensures ReadLines(Present(chunks)).value == Bodies(chunks)
    decreases |chunks|
  {
    var n := |chunks|;
    if n == 0 {
      LinesOfNothing();
    } else {
      var init := chunks[..n - 1];
      var last := chunks[n - 1];
      var line := last[..|last| - 1];
      assert last == line + [Newline];
      assert Append(Present(init), last) == Present(chunks);
      LinesOfEntries(init);
      AppendLine(Present(init), line);
    }
  }

  /** Each entry without its trailing newline. */
  function Bodies(chunks: seq<string>): (r: seq<string>)
    requires forall i :: 0 <= i < |chunks| ==> IsEntry(chunks[i])
    ensures |r| == |chunks|
    ensures forall i :: 0 <= i < |chunks| ==> r[i] + [Newline] == chunks[i]
    decreases |chunks|
  {
    if |chunks| == 0 then []
    else
      var init := chunks[..|chunks| - 1];
      var last := chunks[|chunks| - 1];
      assert IsEntry(last);
      assert forall i :: 0 <= i < |init| ==> init[i] == chunks[i];
      assert last[..|last| - 1] + [Newline] == last;
      Bodies(init) + [last[..|last| - 1]]
  }
}
