/** The append-only ledger of a workspace, `results.tsv`: tab-separated rows, at most one per commit
    (`workspaces.py`, `read_ledger` and `_append_ledger_locked`). A row is the text that sealing a
    line keeps intact. */
module Ledger {
  datatype Row = Row(commit: string, score: string, memory: string, status: string, description: string)

  predicate IsBreak(c: char) { c == '\t' || c == '\n' }

  /** A cell value that the file keeps as it is. */
  predicate Clean(s: string) { forall i :: 0 <= i < |s| ==> !IsBreak(s[i]) }

  predicate NoTab(s: string) { forall i :: 0 <= i < |s| ==> s[i] != '\t' }

  function Cell(s: string): (r: string)
    ensures |r| == |s| && Clean(r) && NoTab(r)
    ensures r == s <==> Clean(s)
  {
    var r := seq(|s|, i requires 0 <= i < |s| => if IsBreak(s[i]) then ' ' else s[i]);
    assert Clean(s) ==> r == s;
    assert r == s ==> Clean(s) by {
      if r == s { forall i | 0 <= i < |s| ensures !IsBreak(s[i]) { assert s[i] == r[i]; } }
    }
    r
  }

  function Join(cells: seq<string>): string
    requires |cells| > 0
  {
    if |cells| == 1 then cells[0] else cells[0] + "\t" + Join(cells[1..])
  }

  function Split(s: string): (cells: seq<string>)
    ensures |cells| > 0
  {
    if s == "" then [""]
    else
      var rest := Split(s[1..]);
      if s[0] == '\t' then [""] + rest else [[s[0]] + rest[0]] + rest[1..]
  }

  lemma {:induction false} SplitCell(cell: string, tail: string)
    requires NoTab(cell)
    ensures Split(cell + "\t" + tail) == [cell] + Split(tail)
    ensures Split(cell) == [cell]
  {
    if cell == "" {
      assert "" + "\t" + tail == "\t" + tail && ("\t" + tail)[1..] == tail;
    } else {
      assert (cell + "\t" + tail)[1..] == cell[1..] + "\t" + tail;
      assert forall i :: 0 <= i < |cell[1..]| ==> cell[1..][i] == cell[i + 1];
      SplitCell(cell[1..], tail);
      assert [cell[0]] + cell[1..] == cell;
    }
  }

  /** Reading a row back gives the cells that were written. */
  lemma {:induction false} RowRoundTrip(cells: seq<string>)
    requires |cells| > 0 && forall i :: 0 <= i < |cells| ==> NoTab(cells[i])
    ensures Split(Join(cells)) == cells
  {
    if |cells| == 1 {
      SplitCell(cells[0], "");
    } else {
      RowRoundTrip(cells[1..]);
      SplitCell(cells[0], Join(cells[1..]));
    }
  }

  function Line(row: Row): string {
    Join([Cell(row.commit), Cell(row.score), Cell(row.memory), Cell(row.status), Cell(row.description)])
  }

  /** The commit column of a stored line. */
  function CommitOf(line: string): string { Split(line)[0] }

  lemma LineCommit(row: Row)
    ensures CommitOf(Line(row)) == Cell(row.commit)
    ensures Split(Line(row))
         == [Cell(row.commit), Cell(row.score), Cell(row.memory), Cell(row.status), Cell(row.description)]
  {
    RowRoundTrip([Cell(row.commit), Cell(row.score), Cell(row.memory), Cell(row.status), Cell(row.description)]);
  }

  predicate Records(lines: seq<string>, commit: string) {
    exists i :: 0 <= i < |lines| && CommitOf(lines[i]) == commit
  }

  /** `_append_ledger_locked` on the rows of a ledger. */
  function Append(lines: seq<string>, row: Row): (r: seq<string>)
    ensures lines <= r
  {
    if row.commit != "" && Records(lines, row.commit) then lines else lines + [Line(row)]
  }

  /** At most one row per non-empty commit. */
  ghost predicate AtMostOne(lines: seq<string>) {
    forall i, j :: 0 <= i < j < |lines| && CommitOf(lines[i]) == CommitOf(lines[j]) ==> CommitOf(lines[i]) == ""
  }

  /** Appending keeps that for every commit that the file can hold as it is, git's among them. */
  lemma AppendKeepsAtMostOne(lines: seq<string>, row: Row)
    requires AtMostOne(lines) && Clean(row.commit)
    ensures AtMostOne(Append(lines, row))
  {
    hide Split, Line, Clean;
    LineCommit(row);
  }

  /** Repeating an append for the same commit changes nothing. */
  lemma AppendIsIdempotent(lines: seq<string>, row: Row, again: Row)
    requires Clean(row.commit) && row.commit != "" && again.commit == row.commit
    ensures Append(Append(lines, row), again) == Append(lines, row)
  {
    hide Split, Line, Clean;
    LineCommit(row);
    var after := Append(lines, row);
    if !Records(lines, row.commit) { assert CommitOf(after[|lines|]) == row.commit; }
  }

  /** A commit holding a tab or a line feed is stored under another name, so its second row is not
      recognised as a duplicate: for a commit not recorded yet, two appends leave one row exactly when
      the commit is clean. */
  lemma AppendTwiceExactly(lines: seq<string>, row: Row)
    requires AtMostOne(lines) && row.commit != ""
    requires !Records(lines, row.commit) && !Records(lines, Cell(row.commit))
    ensures AtMostOne(Append(Append(lines, row), row)) <==> Clean(row.commit)
  {
    hide Split, Line, Clean;
    LineCommit(row);
    var once := Append(lines, row);
    assert CommitOf(once[|lines|]) == Cell(row.commit);
    if Clean(row.commit) {
      AppendIsIdempotent(lines, row, row);
      AppendKeepsAtMostOne(lines, row);
    } else {
      var twice := Append(once, row);
      assert CommitOf(twice[|lines|]) == CommitOf(twice[|lines| + 1]) != "";
    }
  }

  /** A cell loses nothing but its tabs and line feeds, which become spaces. */
  lemma CellKeepsTheRest(s: string, i: nat)
    requires i < |s|
    ensures Cell(s)[i] == if s[i] == '\t' || s[i] == '\n' then ' ' else s[i]
  {
  }
}
