/** The lead sheet of services/googleSheets.js: the 11-column row that
    `addPostToSheet` appends, the records `getRecentPosts` reads back, the
    status/notes range `updatePostStatus` writes, the `setupSheet` headers,
    and the `initialized` guard every operation checks. The spreadsheet is a
    sequence of rows of cells; authentication and the HTTP calls are reduced
    to whether the call succeeds. */
module Sheets {
  import opened Text

  /** A cell value: text or a number. */
  datatype Cell = Str(s: string) | Num(n: int)

  /** JavaScript truthiness of a cell: "" and 0 are falsy. */
  predicate Truthy(c: Cell) {
    match c
    case Str(s) => s != []
    case Num(n) => n != 0
  }

  /** `x || d`. */
  function Or(x: Cell, d: Cell): (r: Cell)
    ensures Truthy(x) ==> r == x
    ensures !Truthy(x) ==> r == d
  {
    if Truthy(x) then x else d
  }

  /** `row[k] || d`: a missing cell is falsy. */
  function CellOr(row: seq<Cell>, k: nat, d: Cell): Cell {
    if k < |row| then Or(row[k], d) else d
  }

  /** The lead `addPostToSheet` receives: the post with its matched keyword.
      An empty string stands for a missing field; score and comment count
      are whatever the post carries. */
  datatype LeadData = LeadData(
    title: string, author: string, subreddit: string, score: Cell, numComments: Cell,
    url: string, permalink: string, keyword: string)

  /** The number of columns, A to K. */
  const Columns: nat := 11
  /** Column indices of the status and notes cells (I and J). */
  const StatusColumn: nat := 8
  const NotesColumn: nat := 9

  /** The row `addPostToSheet` appends, stamped with `timestamp`. */
  function EncodeRow(timestamp: string, d: LeadData): (row: seq<Cell>)
    ensures |row| == Columns
    ensures row[StatusColumn] == Str("New") && row[NotesColumn] == Str("")
  {
    [Str(timestamp), Str(d.title), Str(d.author), Str(d.subreddit),
     Or(d.score, Num(0)), Or(d.numComments, Num(0)),
     Str(d.url), Str(d.permalink), Str("New"), Str(""), Str(d.keyword)]
  }

  /** One record of `getRecentPosts`. */
  datatype SheetRecord = SheetRecord(
    rowNumber: nat, timestamp: Cell, title: Cell, author: Cell, subreddit: Cell,
    score: Cell, comments: Cell, url: Cell, permalink: Cell, status: Cell,
    notes: Cell, keyword: Cell)

  /** The record read from `row`, the `index`-th after the header. */
  function DecodeRow(row: seq<Cell>, index: nat): (r: SheetRecord)
    ensures r.rowNumber == index + 2
  {
    SheetRecord(
      rowNumber := index + 2,
      timestamp := CellOr(row, 0, Str("")),
      title := CellOr(row, 1, Str("")),
      author := CellOr(row, 2, Str("")),
      subreddit := CellOr(row, 3, Str("")),
      score := CellOr(row, 4, Num(0)),
      comments := CellOr(row, 5, Num(0)),
      url := CellOr(row, 6, Str("")),
      permalink := CellOr(row, 7, Str("")),
      status := CellOr(row, StatusColumn, Str("New")),
      notes := CellOr(row, NotesColumn, Str("")),
      keyword := CellOr(row, 10, Str("")))
  }

  /** `rows.slice(1, limit + 1).map(...)`: skip the header, keep at most
      `limit` rows. */
  function RecentPosts(rows: seq<seq<Cell>>, limit: nat): (r: seq<SheetRecord>)
    ensures |r| == if |rows| <= 1 then 0 else if limit < |rows| - 1 then limit else |rows| - 1
    ensures forall i :: 0 <= i < |r| ==> r[i] == DecodeRow(rows[i + 1], i) && r[i].rowNumber == i + 2
  {
    var body := if |rows| <= 1 then [] else rows[1..if limit + 1 < |rows| then limit + 1 else |rows|];
    seq(|body|, i requires 0 <= i < |body| => DecodeRow(body[i], i))
  }

  /** The `setupSheet` header row. */
  const Headers: seq<string> := ["Timestamp", "Title", "Author", "Subreddit", "Score", "Comments",
                                 "URL", "Permalink", "Status", "Notes", "Matched Keyword"]

  /** The letter of column `k`, counting from A. */
  function ColumnLetter(k: nat): char
    requires k < 26
  {
    ('A' as int + k) as char
  }

  /** The A1 range `I<row>:J<row>` that `updatePostStatus` writes. */
  function StatusRange(rowIndex: nat): string {
    [ColumnLetter(StatusColumn)] + NatToString(rowIndex) + ":" + [ColumnLetter(NotesColumn)] + NatToString(rowIndex)
  }

  /** `row` with at least `n` cells, filled with empty text. */
  function Pad(row: seq<Cell>, n: nat): (r: seq<Cell>)
    ensures |r| == if |row| < n then n else |row|
    ensures forall k :: 0 <= k < |row| ==> r[k] == row[k]
  {
    if |row| < n then row + seq(n - |row|, _ => Str("")) else row
  }

  /** `row'` holds every cell of `row` outside the `n` cells from `first`. */
  predicate KeepsOutside(row': seq<Cell>, row: seq<Cell>, first: nat, n: nat) {
    |row'| >= |row| && forall k :: 0 <= k < |row| && !(first <= k < first + n) ==> row'[k] == row[k]
  }

  /** The row `rowIndex` (1-based) of `rows`, extended with empty rows when
      the sheet is shorter. */
  function WriteCells(rows: seq<seq<Cell>>, rowIndex: nat, first: nat, cells: seq<Cell>): (r: seq<seq<Cell>>)
    requires rowIndex >= 1
    ensures |r| == if |rows| < rowIndex then rowIndex else |rows|
    ensures forall k :: 0 <= k < |rows| && k != rowIndex - 1 ==> r[k] == rows[k]
    ensures |r[rowIndex - 1]| >= first + |cells|
    ensures forall k :: 0 <= k < |cells| ==> r[rowIndex - 1][first + k] == cells[k]
    ensures rowIndex - 1 < |rows| ==> KeepsOutside(r[rowIndex - 1], rows[rowIndex - 1], first, |cells|)
  {
    var grown := if |rows| < rowIndex then rows + seq(rowIndex - |rows|, _ => []) else rows;
    var padded := Pad(grown[rowIndex - 1], first + |cells|);
    var row := seq(|padded|, k requires 0 <= k < |padded| => if first <= k < first + |cells| then cells[k - first] else padded[k]);
    grown[rowIndex - 1 := row]
  }

  /* ---------------------------------------------------------------------- */
  /* Layout properties                                                       */

  /** Decoding a row that `addPostToSheet` wrote gives back its fields: the
      text fields as written, the counts as written unless falsy (then 0),
      status "New" and empty notes. */
  lemma DecodeEncode(timestamp: string, d: LeadData, index: nat)
    ensures var r := DecodeRow(EncodeRow(timestamp, d), index);
            r.rowNumber == index + 2 &&
            r.title == Str(d.title) && r.author == Str(d.author) && r.subreddit == Str(d.subreddit) &&
            r.url == Str(d.url) && r.permalink == Str(d.permalink) && r.keyword == Str(d.keyword) &&
            r.timestamp == Str(timestamp) &&
            r.score == Or(d.score, Num(0)) && r.comments == Or(d.numComments, Num(0)) &&
            r.status == Str("New") && r.notes == Str("")
  {
  }

  /** A row appended to a sheet with a header shows up as the last record,
      with row number equal to its 1-based row in the sheet. */
  lemma AppendedRowIsRead(rows: seq<seq<Cell>>, timestamp: string, d: LeadData)
    requires |rows| >= 1
    ensures var r := RecentPosts(rows + [EncodeRow(timestamp, d)], |rows|);
            |r| == |rows| && r[|rows| - 1] == DecodeRow(EncodeRow(timestamp, d), |rows| - 1) &&
            r[|rows| - 1].rowNumber == |rows| + 1
  {
  }

  /** The header has one name per column, and the status, notes and keyword
      names sit over the cells the row layout puts there. */
  lemma HeadersAlignWithRows(timestamp: string, d: LeadData)
    ensures |Headers| == Columns == |EncodeRow(timestamp, d)|
    ensures Headers[1] == "Title" && EncodeRow(timestamp, d)[1] == Str(d.title)
    ensures Headers[6] == "URL" && EncodeRow(timestamp, d)[6] == Str(d.url)
    ensures Headers[StatusColumn] == "Status" && Headers[NotesColumn] == "Notes"
    ensures Headers[10] == "Matched Keyword" && EncodeRow(timestamp, d)[10] == Str(d.keyword)
    ensures ColumnLetter(Columns - 1) == 'K'
  {
  }

  /** The status range names columns I and J of the given row, the columns
      that hold "Status" and "Notes". */
  lemma StatusRangeColumns(rowIndex: nat)
    ensures StatusRange(rowIndex)[0] == 'I' && Headers[StatusColumn] == "Status"
    ensures StatusRange(rowIndex)[|StatusRange(rowIndex)| - |NatToString(rowIndex)| - 1] == 'J' &&
            Headers[NotesColumn] == "Notes"
  {
  }

  /** A status written at a record's row number is what the next read shows
      as that record's status and notes (an empty status reads as "New"),
      and the rest of the record is unchanged. */
  lemma StatusWriteIsRead(rows: seq<seq<Cell>>, limit: nat, i: nat, status: string, notes: string)
    requires i < |RecentPosts(rows, limit)|
    ensures var rows' := WriteCells(rows, i + 2, StatusColumn, [Str(status), Str(notes)]);
            var before := RecentPosts(rows, limit)[i];
            var after := RecentPosts(rows', limit)[i];
            |RecentPosts(rows', limit)| == |RecentPosts(rows, limit)| &&
            after.status == Or(Str(status), Str("New")) && after.notes == Or(Str(notes), Str("")) &&
            after.title == before.title && after.url == before.url && after.keyword == before.keyword &&
            after.rowNumber == before.rowNumber
  {
    var rows' := WriteCells(rows, i + 2, StatusColumn, [Str(status), Str(notes)]);
    var row := rows[i + 1];
    var row' := rows'[i + 1];
    assert |row'| >= 10;
    assert row'[StatusColumn] == Str(status) && row'[NotesColumn] == Str(notes);
  }

  /* ---------------------------------------------------------------------- */
  /* The service                                                             */

  class SheetsService {
    /** Whether an API client was made. */
    var hasClient: bool
    /** `spreadsheetId`; empty when unset. */
    var spreadsheetId: string
    /** `initialized`: set once credentials and a sheet id were found. */
    var initialized: bool
    /** The spreadsheet's rows, header first. */
    var sheet: seq<seq<Cell>>

    constructor (rows: seq<seq<Cell>>)
      ensures !hasClient && spreadsheetId == [] && !initialized && sheet == rows
    {
      hasClient := false;
      spreadsheetId := [];
      initialized := false;
      sheet := rows;
    }

    /** `initialize`: fails without a credentials file, with unreadable
        credentials, or without a sheet id; on failure `initialized` keeps its
        previous value. */
    method Initialize(credentialsFound: bool, credentialsValid: bool, sheetId: string) returns (ok: bool)
      modifies this
      ensures ok <==> credentialsFound && credentialsValid && sheetId != []
      ensures initialized == (old(initialized) || ok)
      ensures credentialsFound && credentialsValid ==> hasClient && spreadsheetId == sheetId
      ensures !(credentialsFound && credentialsValid) ==>
                hasClient == old(hasClient) && spreadsheetId == old(spreadsheetId)
      ensures sheet == old(sheet)
    {
      if !credentialsFound || !credentialsValid {
        return false;
      }
      hasClient := true;
      spreadsheetId := sheetId;
      if sheetId == [] {
        return false;
      }
      initialized := true;
      ok := true;
    }

    /** `addPostToSheet`: append the lead's row when initialized and the call
        succeeds. */
    method AddPostToSheet(d: LeadData, timestamp: string, callSucceeds: bool) returns (ok: bool)
      modifies this
      ensures ok <==> initialized && callSucceeds
      ensures ok ==> sheet == old(sheet) + [EncodeRow(timestamp, d)]
      ensures !ok ==> sheet == old(sheet)
      ensures initialized == old(initialized) && spreadsheetId == old(spreadsheetId) && hasClient == old(hasClient)
    {
      if !initialized || !callSucceeds {
        return false;
      }
      sheet := sheet + [EncodeRow(timestamp, d)];
      ok := true;
    }

    /** `updatePostStatus`: write status and notes to columns I:J of row
        `rowIndex`; a row index below 1 names no cell, and the call fails. */
    method UpdatePostStatus(rowIndex: int, status: string, notes: string, callSucceeds: bool) returns (ok: bool)
      modifies this
      ensures ok <==> initialized && callSucceeds && rowIndex >= 1
      ensures ok ==> sheet == WriteCells(old(sheet), rowIndex, StatusColumn, [Str(status), Str(notes)])
      ensures !ok ==> sheet == old(sheet)
      ensures initialized == old(initialized) && spreadsheetId == old(spreadsheetId) && hasClient == old(hasClient)
    {
      if !initialized || !callSucceeds || rowIndex < 1 {
        return false;
      }
      sheet := WriteCells(sheet, rowIndex, StatusColumn, [Str(status), Str(notes)]);
      ok := true;
    }

    /** `getRecentPosts`: nothing unless initialized and the call succeeds. */
    method GetRecentPosts(limit: nat, callSucceeds: bool) returns (records: seq<SheetRecord>)
      ensures initialized && callSucceeds ==> records == RecentPosts(sheet, limit)
      ensures !(initialized && callSucceeds) ==> records == []
    {
      if !initialized || !callSucceeds {
        return [];
      }
      records := RecentPosts(sheet, limit);
    }

    /** `setupSheet`: write the headers to A1:K1. */
    method SetupSheet(callSucceeds: bool) returns (ok: bool)
      modifies this
      ensures ok <==> initialized && callSucceeds
      ensures ok ==> sheet == WriteCells(old(sheet), 1, 0, seq(|Headers|, k requires 0 <= k < |Headers| => Str(Headers[k])))
      ensures !ok ==> sheet == old(sheet)
      ensures initialized == old(initialized) && spreadsheetId == old(spreadsheetId) && hasClient == old(hasClient)
    {
      if !initialized || !callSucceeds {
        return false;
      }
      sheet := WriteCells(sheet, 1, 0, seq(|Headers|, k requires 0 <= k < |Headers| => Str(Headers[k])));
      ok := true;
    }
  }
}
