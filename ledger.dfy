/**
 * The output ledger `output_data.csv`: a file that may be absent, whose rows are the header
 * row and one row per saved timesheet entry. `save_output` appends, `/clear` deletes the
 * file and `/download` hands it out or reports that it is missing.
 */
module Ledger {
  import opened Json

  /** The CSV columns, in the fixed order of every row. */
  const Fieldnames: seq<string> := [
    "entry_date", "project_code", "client_code", "project_name",
    "task_name", "task_id", "duration_minutes", "comment",
    "transcript_excerpt", "billing_classification", "start_time",
    "end_time", "ts"
  ]

  /** One CSV row: its cells, before the csv module renders them as text. */
  type Row = seq<Value>

  /** The header row: the field names themselves. */
  function HeaderRow(): (r: Row)
    ensures |r| == |Fieldnames|
    ensures forall i :: 0 <= i < |r| ==> r[i] == Str(Fieldnames[i])
  {
    seq(|Fieldnames|, i requires 0 <= i < |Fieldnames| => Str(Fieldnames[i]))
  }

  /** `{field: entry.get(field, '') for field in fields}`, laid out in the order of `fields`. */
  function Project(e: Entry, fields: seq<string>): (r: Row)
    ensures |r| == |fields|
  {
    seq(|fields|, i requires 0 <= i < |fields| => Get(e, fields[i], Str("")))
  }

  /** The data row written for one entry. */
  function EntryRow(e: Entry): (r: Row)
    ensures |r| == 13
  {
    Project(e, Fieldnames)
  }

  /** Reads a row back under a header, as `csv.DictReader` does (a later column wins). */
  function ReadRow(header: seq<string>, row: Row): (m: map<string, Value>)
    requires |row| == |header|
  {
    if header == [] then map[]
    else ReadRow(header[..|header| - 1], row[..|row| - 1])[header[|header| - 1] := row[|row| - 1]]
  }

  /**
   * Reading a written row back under its header recovers the entry restricted to the
   * columns: exactly the listed keys, each with the entry's value or '' when it was missing.
   */
  lemma {:induction false} RowRoundTrip(e: Entry, fields: seq<string>, k: string)
    ensures k in ReadRow(fields, Project(e, fields)) <==> k in fields
    ensures k in fields ==> ReadRow(fields, Project(e, fields))[k] == Get(e, k, Str(""))
    decreases |fields|
  {
    if fields != [] {
      var n := |fields|;
      var init, last := fields[..n - 1], fields[n - 1];
      var row := Project(e, fields);
      assert row[..n - 1] == Project(e, init);
      assert row[n - 1] == Get(e, last, Str(""));
      RowRoundTrip(e, init, k);
      assert fields == init + [last];
    }
  }

  /** A saved field reads back with its value, a missing one as '', and any other key is dropped. */
  lemma EntryRowReadsBack(e: Entry, k: string)
    ensures k in ReadRow(Fieldnames, EntryRow(e)) <==> k in Fieldnames
    ensures k in Fieldnames && k in e ==> ReadRow(Fieldnames, EntryRow(e))[k] == e[k]
    ensures k in Fieldnames && k !in e ==> ReadRow(Fieldnames, EntryRow(e))[k] == Str("")
  {
    RowRoundTrip(e, Fieldnames, k);
  }

  /** Keys outside the thirteen columns have no effect on the row. */
  lemma ExtraKeysIgnored(e: Entry, k: string, v: Value)
    requires k !in Fieldnames
    ensures EntryRow(e[k := v]) == EntryRow(e)
  {
  }

  /** The data rows of a batch, one per entry, in batch order. */
  function EntryRows(data: seq<Entry>): (rows: seq<Row>)
    ensures |rows| == |data|
    ensures forall i :: 0 <= i < |data| ==> rows[i] == EntryRow(data[i])
  {
    seq(|data|, i requires 0 <= i < |data| => EntryRow(data[i]))
  }

  /** The rows of two batches one after the other are the rows of the joined batch. */
  lemma EntryRowsAppend(a: seq<Entry>, b: seq<Entry>)
    ensures EntryRows(a + b) == EntryRows(a) + EntryRows(b)
  {
  }

  /** The header is written exactly when the file is absent or empty. */
  predicate NeedsHeader(present: bool, rows: seq<Row>)
  {
    !present || rows == []
  }

  /** The file's rows after `save_output(data)`: opening in append mode creates it if absent. */
  function AfterSave(present: bool, rows: seq<Row>, data: seq<Entry>): (after: seq<Row>)
    ensures |after| == |rows| + (if NeedsHeader(present, rows) then 1 else 0) + |data|
  {
    rows + (if NeedsHeader(present, rows) then [HeaderRow()] else []) + EntryRows(data)
  }

  /** Saving K entries to an absent or empty ledger yields the header and K rows. */
  lemma SaveToFreshLedger(present: bool, rows: seq<Row>, data: seq<Entry>)
    requires !present ==> rows == []
    requires NeedsHeader(present, rows)
    ensures AfterSave(present, rows, data) == [HeaderRow()] + EntryRows(data)
    ensures |AfterSave(present, rows, data)| == 1 + |data|
  {
  }

  /** Saving K entries to a non-empty ledger adds exactly K rows after the old ones, no header. */
  lemma SaveToNonEmptyLedger(rows: seq<Row>, data: seq<Entry>)
    requires rows != []
    ensures AfterSave(true, rows, data)[..|rows|] == rows
    ensures AfterSave(true, rows, data)[|rows|..] == EntryRows(data)
  {
  }

  /** All entries of a list of batches, in order. */
  function Flatten(batches: seq<seq<Entry>>): seq<Entry>
  {
    if batches == [] then [] else batches[0] + Flatten(batches[1..])
  }

  /** The rows after saving each batch in turn, starting from a file state. */
  function SaveAll(present: bool, rows: seq<Row>, batches: seq<seq<Entry>>): seq<Row>
    decreases |batches|
  {
    if batches == [] then rows
    else SaveAll(true, AfterSave(present, rows, batches[0]), batches[1..])
  }

  /** Saving batches to a non-empty ledger appends their rows, and never another header. */
  lemma {:induction false} SaveBatchesToNonEmptyLedger(rows: seq<Row>, batches: seq<seq<Entry>>)
    requires rows != []
    ensures SaveAll(true, rows, batches) == rows + EntryRows(Flatten(batches))
    decreases |batches|
  {
    if batches != [] {
      SaveBatchesToNonEmptyLedger(AfterSave(true, rows, batches[0]), batches[1..]);
      EntryRowsAppend(batches[0], Flatten(batches[1..]));
    }
  }

  /**
   * Saving K batches totalling M entries to an absent or empty ledger yields one header
   * followed by the M data rows, whatever the batch sizes (an empty batch still creates the
   * file with its header).
   */
  lemma SaveBatchesToFreshLedger(present: bool, rows: seq<Row>, batches: seq<seq<Entry>>)
    requires !present ==> rows == []
    requires NeedsHeader(present, rows) && batches != []
    ensures SaveAll(present, rows, batches) == [HeaderRow()] + EntryRows(Flatten(batches))
  {
    var first := AfterSave(present, rows, batches[0]);
    SaveToFreshLedger(present, rows, batches[0]);
    SaveBatchesToNonEmptyLedger(first, batches[1..]);
    EntryRowsAppend(batches[0], Flatten(batches[1..]));
  }

  /** The ledger file: `present` says whether it exists, `rows` what it holds. */
  class CsvLedger {
    var present: bool
    var rows: seq<Row>
    /** The entries saved since the file was last created. */
    ghost var Entries: seq<Entry>

    /** An absent file holds nothing. */
    ghost predicate Valid()
      reads this
    {
      !present ==> rows == []
    }

    /** The file is empty or is the header followed by one row per saved entry. */
    ghost predicate WellFormed()
      reads this
    {
      Valid() && (rows == [] ==> Entries == []) && (rows != [] ==> rows == [HeaderRow()] + EntryRows(Entries))
    }

    /** The file as found on disk: absent, or present with the given rows. */
    constructor (present: bool, rows: seq<Row>)
      requires !present ==> rows == []
      ensures Valid() && this.present == present && this.rows == rows && Entries == []
      ensures rows == [] ==> WellFormed()
    {
      this.present := present;
      this.rows := rows;
      Entries := [];
    }

    /** `save_output(data)`: the header if the file is absent or empty, then one row per entry. */
    method Save(data: seq<Entry>)
      requires Valid()
      modifies this
      ensures Valid() && present
      ensures rows == AfterSave(old(present), old(rows), data)
      ensures old(WellFormed()) ==> WellFormed() && Entries == old(Entries) + data
    {
      var needsHeader := !present || rows == [];
      present := true;
      if needsHeader {
        rows := rows + [HeaderRow()];
        Entries := [];
      }
      ghost var before, saved := rows, Entries;
      for i := 0 to |data|
        invariant present && Entries == saved
        invariant rows == before + EntryRows(data[..i])
      {
        assert data[..i + 1] == data[..i] + [data[i]];
        EntryRowsAppend(data[..i], [data[i]]);
        rows := rows + [EntryRow(data[i])];
      }
      assert data[..|data|] == data;
      EntryRowsAppend(Entries, data);
      Entries := Entries + data;
    }

    /** `/clear`: the file is removed if it exists; either way the reply is a success. */
    method Clear()
      requires Valid()
      modifies this
      ensures Valid() && WellFormed()
      ensures !present && rows == []
    {
      if present {
        present := false;
        rows := [];
      }
      Entries := [];
    }

    /** `/download`: the file as an attachment, or a 404 error when there is none. */
    method Download() returns (r: Download)
      requires Valid()
      ensures present ==> r == Attachment(AttachmentName, rows)
      ensures !present ==> r == NotFound(404, "Output file not found")
    {
      if present {
        r := Attachment(AttachmentName, rows);
      } else {
        r := NotFound(404, "Output file not found");
      }
    }
  }

  const AttachmentName: string := "timesheet_entries.csv"

  datatype Download = Attachment(filename: string, content: seq<Row>) | NotFound(status: int, error: string)

  /** `/clear` followed by `/download` reports that the file is missing. */
  method ClearThenDownload(ledger: CsvLedger) returns (r: Download)
    requires ledger.Valid()
    modifies ledger
    ensures r.NotFound? && r.status == 404
  {
    ledger.Clear();
    r := ledger.Download();
  }

  /** `/clear`, then saving a batch, then `/download` gives exactly that batch under the header. */
  method ClearSaveDownload(ledger: CsvLedger, data: seq<Entry>) returns (r: Download)
    requires ledger.Valid()
    modifies ledger
    ensures r == Attachment(AttachmentName, [HeaderRow()] + EntryRows(data))
  {
    ledger.Clear();
    ledger.Save(data);
    r := ledger.Download();
  }
}
