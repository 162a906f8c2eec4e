/** The text of the index file, column by column: what a save writes for a queue, and what
    any file of such lines loads as. */
module IndexText {
  import opened Entries
  import opened Scheduler
  import opened Scanning
  import opened IndexFile
  import opened Saving
  import opened Reload

  /** A status by its number in the enumeration. */
  function StatusNumber(status: Status): string {
    match status
    case WAITING => "0"
    case STARTING => "1"
    case STARTED => "2"
    case PAUSED => "3"
    case CANCELLED => "4"
    case COMPLETED => "5"
  }

  /** One space between columns, and a newline behind the last. */
  function Joined(columns: seq<string>): string {
    if columns == [] then "\n"
    else if |columns| == 1 then columns[0] + "\n"
    else columns[0] + " " + Joined(columns[1..])
  }

  /** The line of an entry: the name, the number of the status, the URL, the four numbers of
      six decimals, and the two times. */
  function EntryLine(e: Entry): string {
    Joined([e.name, StatusNumber(e.status), e.url, PrintFixed(e.size), PrintFixed(e.remaining),
            PrintFixed(e.complete), PrintFixed(e.speed), PrintInt(e.start), PrintInt(e.measured)])
  }

  function Lines(entries: seq<Entry>): string {
    if entries == [] then "" else EntryLine(entries[0]) + Lines(entries[1..])
  }

  /** A name and a URL that `fscanf` reads as one word each. */
  predicate Words(e: Entry) {
    NoSpace(e.name) && 0 < |e.name| <= 255 && NoSpace(e.url) && 0 < |e.url|
  }

  /** The row of an entry under its own name. */
  function RowFor(e: Entry): Row {
    Row(e.name, StatusCode(e.status), e.url, e.size, e.remaining, e.complete, e.speed, e.start, e.measured)
  }

  // ----- printing -----

  lemma StatusPrinted(status: Status)
    ensures PrintInt(StatusCode(status)) == StatusNumber(status)
  {
    var n := StatusCode(status);
    assert PrintInt(n) == "" + [DigitChar(n)];
    assert DigitChar(n) == '0' + n as char;
  }

  lemma {:induction false} JoinedExact(fields: seq<Field>, columns: seq<string>, more: string)
    requires |columns| == |fields| && forall i | 0 <= i < |fields| :: columns[i] == Show(fields[i])
    ensures PrintLine(fields, more) == Joined(columns) + more
    decreases |fields|
  {
    if |fields| == 1 {
      Associate(columns[0], "\n", more);
    } else if |fields| > 1 {
      JoinedExact(fields[1..], columns[1..], more);
      Associate(" ", Joined(columns[1..]), more);
      Associate(columns[0], " ", Joined(columns[1..]));
      Associate(columns[0], " " + Joined(columns[1..]), more);
    }
  }

  lemma RowLine(e: Entry, more: string)
    ensures PrintLine(Fields(RowFor(e)), more) == EntryLine(e) + more
  {
    StatusPrinted(e.status);
    JoinedExact(Fields(RowFor(e)), [e.name, StatusNumber(e.status), e.url, PrintFixed(e.size), PrintFixed(e.remaining),
      PrintFixed(e.complete), PrintFixed(e.speed), PrintInt(e.start), PrintInt(e.measured)], more);
  }

  ghost predicate RowsFor(rows: seq<Row>, entries: seq<Entry>) {
    |rows| == |entries| && forall i | 0 <= i < |rows| :: rows[i] == RowFor(entries[i])
  }

  lemma {:induction false} LinesExact(rows: seq<Row>, entries: seq<Entry>)
    requires RowsFor(rows, entries)
    ensures PrintRows(rows) == Lines(entries)
    decreases |rows|
  {
    if rows != [] {
      RowLine(entries[0], PrintRows(rows[1..]));
      LinesExact(rows[1..], entries[1..]);
    }
  }

  /** An entry as it is saved: named after its URL, and waiting if it was active. */
  predicate SavedAs(e: Entry, saved: Entry)
    requires HasName(e.url)
  {
    && saved.name == BaseName(e.url) && saved.url == e.url
    && saved.status == (if e.status == STARTING || e.status == STARTED then WAITING else e.status)
    && saved.size == e.size && saved.remaining == e.remaining && saved.complete == e.complete
    && saved.speed == e.speed && saved.start == e.start && saved.measured == e.measured
  }

  lemma SavedRow(e: Entry, saved: Entry)
    requires HasName(e.url) && SavedAs(e, saved)
    ensures HasName(AtRest(e).url) && ToRow(AtRest(e)) == RowFor(saved)
  {
  }

  lemma SavedRowsFor(rows: seq<Entry>, saved: seq<Entry>)
    requires AllSaveable(rows) && AllSaveable(SavedRows(rows)) && |saved| == |rows|
    requires forall i | 0 <= i < |saved| :: SavedAs(rows[i], saved[i])
    ensures RowsFor(ToRows(SavedRows(rows)), saved)
  {
    forall i | 0 <= i < |rows|
      ensures ToRows(SavedRows(rows))[i] == RowFor(saved[i])
    {
      SavedRow(rows[i], saved[i]);
    }
  }

  /** A save writes one line for every queued entry, in queue order. */
  lemma SavedText(s: State, saved: seq<Entry>)
    requires WellFormed(s) && AllSaveable(Rows(s)) && |saved| == |s.queue|
    requires forall i | 0 <= i < |saved| :: SavedAs(Rows(s)[i], saved[i])
    ensures var rows := SaveFrom(s, 0).1; AllSaveable(rows) && Reload.Text(rows) == Lines(saved)
  {
    SaveExact(s);
    SavedAtRest(s);
    SavedRowsFor(Rows(s), saved);
    LinesExact(ToRows(SavedRows(Rows(s))), saved);
  }

  // ----- reading -----

  lemma ReadAsWritten(e: Entry)
    requires Words(e)
    ensures Readable(RowFor(e)) && 0 <= RowFor(e).code < 6 && ToEntry(RowFor(e)) == e
  {
  }

  lemma LinesRead(entries: seq<Entry>, rows: seq<Row>)
    requires entries != [] && RowsFor(rows, entries) && forall i | 0 <= i < |entries| :: Words(entries[i])
    ensures ScanRows(Lines(entries)) == rows
  {
    LinesExact(rows, entries);
    forall i | 0 <= i < |rows|
      ensures Readable(rows[i])
    {
      ReadAsWritten(entries[i]);
    }
    RowsReadBack(rows);
  }

  lemma EntriesBack(entries: seq<Entry>, rows: seq<Row>)
    requires RowsFor(rows, entries) && forall i | 0 <= i < |entries| :: Words(entries[i])
    ensures KnownCodes(rows) && ToEntries(rows) == entries
  {
    forall i | 0 <= i < |entries|
      ensures 0 <= rows[i].code < 6 && ToEntry(rows[i]) == entries[i]
    {
      ReadAsWritten(entries[i]);
    }
  }

  /** Any file of such lines, not empty, loads as exactly these entries in this order. */
  lemma LinesLoaded(entries: seq<Entry>)
    requires entries != [] && forall i | 0 <= i < |entries| :: Words(entries[i])
    ensures var read := ScanRows(Lines(entries)); KnownCodes(read) && ToEntries(read) == entries
  {
    var rows := seq(|entries|, i requires 0 <= i < |entries| => RowFor(entries[i]));
    LinesRead(entries, rows);
    EntriesBack(entries, rows);
  }
}
