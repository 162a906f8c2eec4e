/** The index file: one line for every entry, written by `queue_save` and read
    back by `queue_load`. */
module IndexFile {
  import opened Entries
  import opened Scanning

  // ----- the base name of a URL -----

  /** The position of the last '/' in url[..n], not counting one at the front; 0
      when there is none. */
  function LastSlash(url: string, n: nat): (i: nat)
    requires n <= |url|
    ensures i < n || i == 0
    ensures i > 0 ==> url[i] == '/'
    ensures forall j | i < j < n :: url[j] != '/'
  {
    if n <= 1 then 0 else if url[n - 1] == '/' then n - 1 else LastSlash(url, n - 1)
  }

  predicate HasName(url: string) {
    LastSlash(url, |url|) > 0
  }

  function BaseName(url: string): (name: string)
    requires HasName(url)
    ensures '/' !in name
    ensures |name| < |url| && url == url[..|url| - |name| - 1] + "/" + name
  {
    url[LastSlash(url, |url|) + 1..]
  }

  /** The search as the source makes it, backwards from the terminating NUL; with
      no '/' behind the first character it returns nothing defined. */
  method GetNameFromUrl(url: string) returns (found: bool, name: string)
    ensures found <==> HasName(url)
    ensures found ==> name == BaseName(url)
  {
    var i := |url|;
    while i > 0
      invariant 0 <= i <= |url|
      invariant LastSlash(url, |url|) == LastSlash(url, if i < |url| then i + 1 else i)
    {
      if i < |url| && url[i] == '/' {
        return true, url[i + 1..];
      }
      i := i - 1;
    }
    return false, "";
  }

  // ----- rows -----

  /** An entry as the file holds it: the status is a bare number. */
  datatype Row = Row(name: string, code: int, url: string, size: int, remaining: int,
                     complete: int, speed: int, start: int, measured: int)

  const BLANK := Row("", 0, "", 0, 0, 0, 0, 0, 0)

  function StatusCode(status: Status): (code: int)
    ensures 0 <= code < 6
  {
    match status
    case WAITING => 0
    case STARTING => 1
    case STARTED => 2
    case PAUSED => 3
    case CANCELLED => 4
    case COMPLETED => 5
  }

  function StatusOf(code: int): (status: Status)
    requires 0 <= code < 6
    ensures StatusCode(status) == code
  {
    if code == 0 then WAITING else if code == 1 then STARTING else if code == 2 then STARTED
    else if code == 3 then PAUSED else if code == 4 then CANCELLED else COMPLETED
  }

  /** The row a line of the file stands for: the name is the base name of the URL. */
  function ToRow(e: Entry): Row
    requires HasName(e.url)
  {
    Row(BaseName(e.url), StatusCode(e.status), e.url, e.size, e.remaining, e.complete, e.speed, e.start, e.measured)
  }

  function ToEntry(r: Row): Entry
    requires 0 <= r.code < 6
  {
    Entry(r.name, r.url, StatusOf(r.code), r.size, r.remaining, r.complete, r.speed, r.start, r.measured)
  }

  function Renamed(e: Entry): Entry
    requires HasName(e.url)
  {
    e.(name := BaseName(e.url))
  }

  // ----- writing -----

  function Fields(r: Row): (fields: seq<Field>)
    ensures |fields| == 9
  {
    [Word(r.name), Integer(r.code), Word(r.url), Fixed(r.size), Fixed(r.remaining), Fixed(r.complete),
     Fixed(r.speed), Integer(r.start), Integer(r.measured)]
  }

  function PrintRows(rows: seq<Row>): string {
    if rows == [] then "" else PrintLine(Fields(rows[0]), PrintRows(rows[1..]))
  }

  // ----- reading -----

  /** The format of `queue_load`; the URL is read without a width, for which any
      width that the text cannot exceed will do. */
  function Format(long: nat): (format: seq<Directive>)
    ensures |format| == 9
  {
    [ReadWord(255), ReadInteger, ReadWord(long), ReadFixed, ReadFixed, ReadFixed, ReadFixed, ReadInteger, ReadInteger]
  }

  function WordOf(f: Field): string {
    if f.Word? then f.word else ""
  }

  function NumberOf(f: Field): int {
    match f
    case Word(_) => 0
    case Integer(n) => n
    case Fixed(n) => n
  }

  function RowOf(fields: seq<Field>): Row
    requires |fields| == 9
  {
    Row(WordOf(fields[0]), NumberOf(fields[1]), WordOf(fields[2]), NumberOf(fields[3]), NumberOf(fields[4]),
        NumberOf(fields[5]), NumberOf(fields[6]), NumberOf(fields[7]), NumberOf(fields[8]))
  }

  function ScanRow(text: string): (r: (Row, Cursor))
    ensures r.1.eof || |r.1.text| < |text|
  {
    var (fields, c) := ScanLine(Format(|text| + 1), Cursor(text, false, true));
    (RowOf(fields), c)
  }

  /** `while (!feof)`: a row is read before the end is first looked for. */
  function ScanRows(text: string): (rows: seq<Row>)
    ensures rows != []
    decreases |text|
  {
    var (row, c) := ScanRow(text);
    [row] + if c.eof then [] else ScanRows(c.text)
  }

  /** The loop of `queue_load` ends on every text, and reads what `ScanRows` says. */
  method ReadRows(text: string) returns (rows: seq<Row>)
    ensures rows == ScanRows(text)
  {
    rows := [];
    var rest, eof := text, false;
    ghost var more := ScanRows(text);
    assert rows + more == more;
    while !eof
      invariant rows + more == ScanRows(text)
      invariant more == if eof then [] else ScanRows(rest)
      decreases !eof, |rest|
    {
      var (row, c) := ScanRow(rest);
      assert rows + more == (rows + [row]) + more[1..];
      rows, rest, eof, more := rows + [row], c.text, c.eof, more[1..];
    }
    assert rows + more == rows;
  }

  // ----- the round trip -----

  /** A row whose words `fscanf` can read back. */
  predicate Readable(r: Row) {
    && NoSpace(r.name) && 0 < |r.name| <= 255
    && NoSpace(r.url) && 0 < |r.url|
  }

  lemma UrlFits(r: Row, more: string)
    ensures |r.url| <= |PrintLine(Fields(r), more)|
  {
    var fields := Fields(r);
    assert |PrintLine(fields[1..][1..], more)| >= |r.url|;
    assert |PrintLine(fields[1..], more)| >= |PrintLine(fields[1..][1..], more)|;
  }

  lemma FieldsMatch(r: Row, long: nat)
    requires Readable(r) && |r.url| <= long
    ensures forall i | 0 <= i < 9 :: Matches(Format(long)[i], Fields(r)[i])
  {
  }

  lemma RowOfFields(r: Row)
    ensures RowOf(Fields(r)) == r
  {
  }

  lemma ScanRowBy(text: string, r: Row, fields: seq<Field>, end: Cursor)
    requires |fields| == 9 && RowOf(fields) == r
    requires ScanLine(Format(|text| + 1), Cursor(text, false, true)) == (fields, end)
    ensures ScanRow(text) == (r, end)
  {
  }

  lemma TextReadBack(text: string, fields: seq<Field>, format: seq<Directive>, more: string)
    requires text == PrintLine(fields, more) && |format| == |fields| > 0 && LineStart(more)
    requires forall i | 0 <= i < |fields| :: Matches(format[i], fields[i])
    ensures ScanLine(format, Cursor(text, false, true)) == (fields, Cursor(more, more == [], true))
  {
    LineReadBack(format, fields, Cursor(text, false, true), more);
  }

  lemma LineOfRow(text: string, r: Row, fields: seq<Field>, format: seq<Directive>, more: string)
    requires |format| == |fields| == 9 && format == Format(|text| + 1) && RowOf(fields) == r
    requires text == PrintLine(fields, more) && LineStart(more)
    requires forall i | 0 <= i < 9 :: Matches(format[i], fields[i])
    ensures ScanRow(text) == (r, Cursor(more, more == [], true))
  {
    TextReadBack(text, fields, format, more);
    ScanRowBy(text, r, fields, Cursor(more, more == [], true));
  }

  /** One line is read back as it was printed, and the reading stops right behind it. */
  lemma RowReadBack(r: Row, more: string)
    requires Readable(r) && LineStart(more)
    ensures ScanRow(PrintLine(Fields(r), more)) == (r, Cursor(more, more == [], true))
  {
    var text := PrintLine(Fields(r), more);
    UrlFits(r, more);
    FieldsMatch(r, |text| + 1);
    RowOfFields(r);
    LineOfRow(text, r, Fields(r), Format(|text| + 1), more);
  }

  lemma PrintRowsLine(rows: seq<Row>)
    requires forall i | 0 <= i < |rows| :: Readable(rows[i])
    ensures LineStart(PrintRows(rows)) && (PrintRows(rows) == [] <==> rows == [])
  {
    if rows != [] {
      assert PrintRows(rows)[0] == rows[0].name[0];
    }
  }

  lemma UnsetRow(fields: seq<Field>, long: nat)
    requires |fields| == 9 && forall i | 0 <= i < 9 :: fields[i] == Unset(Format(long)[i])
    ensures RowOf(fields) == BLANK
  {
    assert fields[0] == Word("") && fields[1] == Integer(0) && fields[2] == Word("");
    assert fields[3] == Fixed(0) && fields[4] == Fixed(0) && fields[5] == Fixed(0) && fields[6] == Fixed(0);
    assert fields[7] == Integer(0) && fields[8] == Integer(0);
  }

  lemma EmptyFile()
    ensures ScanRows("") == [BLANK]
  {
    var failed := Cursor("", true, false);
    assert ScanField(Format(1)[0], Cursor("", false, true)) == (Word(""), failed);
    FailedFirst(Format(1), Cursor("", false, true), failed);
    UnsetRow(ScanLine(Format(1), Cursor("", false, true)).0, 1);
    assert ScanRow("") == (BLANK, failed);
  }

  lemma FirstRowReadBack(rows: seq<Row>)
    requires rows != [] && forall i | 0 <= i < |rows| :: Readable(rows[i])
    ensures ScanRows(PrintRows(rows)) == [rows[0]] + if rows[1..] == [] then [] else ScanRows(PrintRows(rows[1..]))
  {
    PrintRowsLine(rows[1..]);
    RowReadBack(rows[0], PrintRows(rows[1..]));
  }

  function ReadBack(rows: seq<Row>): (r: seq<Row>) {
    if rows == [] then [BLANK] else rows
  }

  lemma Prepend(rows: seq<Row>, all: seq<Row>, rest: seq<Row>)
    requires rows != [] && all == [rows[0]] + (if rows[1..] == [] then [] else rest) && rest == ReadBack(rows[1..])
    ensures all == ReadBack(rows)
  {
  }

  /** Reading what was written gives back the rows, for every non-empty file. An
      empty one yields a blank row, since the loop reads before it tests. */
  lemma {:induction false} RowsReadBack(rows: seq<Row>)
    requires forall i | 0 <= i < |rows| :: Readable(rows[i])
    ensures ScanRows(PrintRows(rows)) == ReadBack(rows)
  {
    if rows == [] {
      EmptyFile();
    } else {
      var rest := rows[1..];
      RowsReadBack(rest);
      FirstRowReadBack(rows);
      Prepend(rows, ScanRows(PrintRows(rows)), ScanRows(PrintRows(rest)));
    }
  }

  /** The round trip of a written file holds exactly when something was written. */
  lemma RoundTripExact(rows: seq<Row>)
    requires forall i | 0 <= i < |rows| :: Readable(rows[i])
    ensures ScanRows(PrintRows(rows)) == rows <==> rows != []
  {
    RowsReadBack(rows);
  }
}
