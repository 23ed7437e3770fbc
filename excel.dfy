/**
 * The spreadsheet export `do_excel` (src/main.rs:76-116): a header row, then one
 * row per pull request, in a workbook named after the first request's author.
 * Only the logical content of the cells is modelled, not their styles.
 */
module Excel {
  import opened Wrappers
  import opened Records

  /** What a cell holds: plain text, or a hyperlink written with `write_url`. */
  datatype Cell = Text(text: string) | Url(target: string)

  /** A written workbook: its file name and the cells of its single sheet, by (row, column). */
  datatype Workbook = Workbook(filename: string, cells: map<(nat, nat), Cell>)

  /** The header row (src/main.rs:86). */
  const Titles: seq<string> := ["author", "sig", "repo", "link", "created_at"]

  const Columns: nat := 5

  /** The worksheet being filled in; every write replaces one cell. */
  class Worksheet {
    var cells: map<(nat, nat), Cell>

    constructor ()
      ensures cells == map[]
    {
      cells := map[];
    }

    method WriteString(row: nat, col: nat, text: string)
      modifies this
      ensures cells == old(cells)[(row, col) := Text(text)]
    {
      cells := cells[(row, col) := Text(text)];
    }

    method WriteUrl(row: nat, col: nat, target: string)
      modifies this
      ensures cells == old(cells)[(row, col) := Url(target)]
    {
      cells := cells[(row, col) := Url(target)];
    }
  }

  /** The cell the layout puts at `row`, `col`: the titles in row 0, request k in row k + 1. */
  function CellAt(list: seq<PullRequest>, row: nat, col: nat): Cell
    requires row <= |list| && col < Columns
  {
    if row == 0 then Text(Titles[col])
    else
      var pr := list[row - 1];
      if col == 0 then Text(pr.author)
      else if col == 1 then Text(pr.sig)
      else if col == 2 then Text(pr.repo)
      else if col == 3 then Url(pr.link)
      else Text(pr.created_at)
  }

  /** The positions of a sheet with a header row and `n` further rows. */
  function Positions(n: nat): set<(nat, nat)>
  {
    set row: nat, col: nat | row <= n && col < Columns :: (row, col)
  }

  /** The cells of the sheet written for `list`. */
  function SheetCells(list: seq<PullRequest>): map<(nat, nat), Cell>
  {
    map p | p in Positions(|list|) :: CellAt(list, p.0, p.1)
  }

  /** What `do_excel` writes: nothing for an empty list, otherwise one workbook. */
  function ExpectedWorkbook(list: seq<PullRequest>): Option<Workbook>
  {
    if list == [] then None else Some(Workbook(list[0].author + ".xlsx", SheetCells(list)))
  }

  /**
   * The layout of the sheet: exactly |list| + 1 rows of five columns, the titles
   * in row 0, and author, sig, repo, link (as a hyperlink) and created_at of
   * request k in row k + 1.
   */
  lemma SheetLayout(list: seq<PullRequest>)
    ensures forall row: nat, col: nat :: (row, col) in SheetCells(list) <==> row <= |list| && col < Columns
    ensures forall col :: 0 <= col < Columns ==> SheetCells(list)[(0, col)] == Text(Titles[col])
    ensures forall k :: 0 <= k < |list| ==>
      var cells := SheetCells(list);
      && cells[(k + 1, 0)] == Text(list[k].author)
      && cells[(k + 1, 1)] == Text(list[k].sig)
      && cells[(k + 1, 2)] == Text(list[k].repo)
      && cells[(k + 1, 3)] == Url(list[k].link)
      && cells[(k + 1, 4)] == Text(list[k].created_at)
  {
  }

  /** The cells written before position (`row`, `col`), filling the sheet row by row. */
  function WrittenBefore(list: seq<PullRequest>, row: nat, col: nat): map<(nat, nat), Cell>
  {
    map p | p in Positions(|list|) && (p.0 < row || (p.0 == row && p.1 < col)) :: CellAt(list, p.0, p.1)
  }

  lemma WriteNext(list: seq<PullRequest>, row: nat, col: nat)
    requires row <= |list| && col < Columns
    ensures WrittenBefore(list, row, col)[(row, col) := CellAt(list, row, col)] == WrittenBefore(list, row, col + 1)
  {
    assert (row, col) in Positions(|list|);
  }

  lemma RowDone(list: seq<PullRequest>, row: nat)
    ensures WrittenBefore(list, row, Columns) == WrittenBefore(list, row + 1, 0)
  {
  }

  lemma AllWritten(list: seq<PullRequest>)
    ensures WrittenBefore(list, |list| + 1, 0) == SheetCells(list)
  {
  }

  /** `do_excel`: the header loop, then the record loop, each writing cell by cell. */
  method DoExcel(list: seq<PullRequest>) returns (wb: Option<Workbook>)
    ensures wb == ExpectedWorkbook(list)
  {
    if |list| == 0 {
      return None;
    }
    var filename := list[0].author + ".xlsx";
    var sheet := new Worksheet();

    for index := 0 to |Titles|
      invariant sheet.cells == WrittenBefore(list, 0, index)
    {
      WriteNext(list, 0, index);
      sheet.WriteString(0, index, Titles[index]);
    }
    RowDone(list, 0);

    for index := 0 to |list|
      invariant sheet.cells == WrittenBefore(list, index + 1, 0)
    {
      var value := list[index];
      var row := index + 1;
      WriteNext(list, row, 0);
      sheet.WriteString(row, 0, value.author);
      WriteNext(list, row, 1);
      sheet.WriteString(row, 1, value.sig);
      WriteNext(list, row, 2);
      sheet.WriteString(row, 2, value.repo);
      WriteNext(list, row, 3);
      sheet.WriteUrl(row, 3, value.link);
      WriteNext(list, row, 4);
      sheet.WriteString(row, 4, value.created_at);
      RowDone(list, row);
    }

    AllWritten(list);
    wb := Some(Workbook(filename, sheet.cells));
  }
}
