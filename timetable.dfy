/** The timetable page of scraper.py: `_parse_lesson_cell` and the seven-day
    assembly of `_scrape_timetable` that runs on the schedule HTML. */
module Timetable {
  import opened Wrappers
  import opened PyStr
  import opened ScraperText

  /** One timetable entry. `_parse_lesson_cell` returns a string, or Python's None
      when a changed-lesson cell lacks one of its two colours. */
  type Cell = Option<string>

  /** The separator of a changed lesson as it stands in the source file: the UTF-8
      bytes of the arrow U+2192 decoded one by one as Windows-1252, then written
      out as text ("â", "†", "’"). */
  const Arrow: string := " \U{E2}\U{2020}\U{2019} "

  /** `cell.split("</td>", 1)[0]`. */
  function CellContent(cell: string): (r: string)
    ensures !Contains(r, "</td>")
  {
    Before(cell, "</td>")
  }

  /** The cancelled branch: the text between `lesson-cell cancelled">`, then
      `timetable-left">`, and `timetable-right`, cut at the first `</`. None where
      one of the `split(..., 1)[1]` raises IndexError. */
  function CancelledLesson(content: string): (r: Option<string>)
    ensures r.Some? ==> !Contains(r.value, "</")
  {
    var cancelled :- After(content, "lesson-cell cancelled\">");
    var left :- After(cancelled, "timetable-left\">");
    Some(Before(Before(left, "timetable-right"), "</"))
  }

  /** `content.split(marker)[1].split("<", 1)[0].strip()` for a marker that occurs. */
  function ColouredText(content: string, marker: string): (r: string)
    requires marker != [] && Contains(content, marker)
    ensures Strip(r) == r
  {
    StripIdempotent(Before(Piece(content, marker, 1).value, "<"));
    Strip(Before(Piece(content, marker, 1).value, "<"))
  }

  /** The changed branch: `old → new` from the red and the green span, or None
      (the function falls off its end) when either colour is missing. */
  function ChangedLesson(content: string): (r: Cell)
    ensures r.Some? <==> Contains(content, "red;\">") && Contains(content, "green;\">")
  {
    if Contains(content, "red;\">") && Contains(content, "green;\">") then
      Some(ColouredText(content, "red;\">") + Arrow + ColouredText(content, "green;\">"))
    else None
  }

  /** `text.split(">")[k].split("<")[0]` with spaces and newlines removed. */
  function TagField(text: string, k: nat): (r: Option<string>)
    ensures r.Some? ==> ' ' !in r.value && '\n' !in r.value
  {
    var piece :- Piece(text, ">", k);
    Some(Compact(Before(piece, "<")))
  }

  /** The lesson: the third `>` piece of the text between `timetable-left">` and
      `timetable-right`. */
  function LessonName(content: string): (r: Option<string>)
    ensures r.Some? ==> Contains(content, "timetable-left\">")
  {
    var left :- After(content, "timetable-left\">");
    TagField(Before(left, "timetable-right"), 2)
  }

  /** The teacher: the sixth `>` piece of the text between `timetable-right">` and
      `timetable-bottom`. */
  function Teacher(content: string): (r: Option<string>)
    ensures r.Some? ==> Contains(content, "timetable-right\">")
  {
    var right :- After(content, "timetable-right\">");
    TagField(Before(right, "timetable-bottom"), 5)
  }

  /** The room: the fourth `>` piece of the text after `timetable-bottom">`. */
  function Room(content: string): (r: Option<string>)
    ensures r.Some? ==> Contains(content, "timetable-bottom\">")
  {
    var bottom :- After(content, "timetable-bottom\">");
    TagField(bottom, 3)
  }

  /** The regular branch: lesson, teacher and room, blank-joined and stripped. None
      where one of the lookups raises IndexError. */
  function RegularLesson(content: string): (r: Option<string>)
    ensures r.Some? <==> LessonName(content).Some? && Teacher(content).Some? && Room(content).Some?
    ensures r.Some? ==> '\n' !in r.value
  {
    var lesson :- LessonName(content);
    var teacher :- Teacher(content);
    var room :- Room(content);
    var joined := lesson + " " + teacher + " " + room;
    assert '\n' !in joined;
    StripShape(joined);
    Some(Strip(joined))
  }

  /** What `_parse_lesson_cell(cell)` returns; an exception inside it gives "". */
  function LessonCell(cell: string): (r: Cell)
    ensures !Contains(CellContent(cell), "span") ==> r == Some("")
  {
    var content := CellContent(cell);
    if !Contains(content, "span") then Some("")
    else if Contains(content, "lesson-cell cancelled") then
      match CancelledLesson(content)
      case Some(lesson) => Some("<del>" + lesson + "</del>")
      case None => Some("")
    else if Contains(content, "<span style=\"color") && !Contains(content, "Inter") then
      ChangedLesson(content)
    else Some(RegularLesson(content).GetOr(""))
  }

  /** The cell is None exactly for a changed-lesson cell (a coloured span, no
      `Inter`, not cancelled) that lacks the red or the green span. */
  lemma LessonCellNone(cell: string)
    ensures var content := CellContent(cell);
            LessonCell(cell).None? <==>
              && Contains(content, "span")
              && !Contains(content, "lesson-cell cancelled")
              && Contains(content, "<span style=\"color")
              && !Contains(content, "Inter")
              && !(Contains(content, "red;\">") && Contains(content, "green;\">"))
  {
  }

  /** A cancelled cell reads `<del>lesson</del>` with no `</` inside the lesson, or
      "" when its markers are missing. */
  lemma LessonCellCancelled(cell: string)
    requires Contains(CellContent(cell), "span") && Contains(CellContent(cell), "lesson-cell cancelled")
    ensures var lesson := CancelledLesson(CellContent(cell));
            && (lesson.Some? ==> LessonCell(cell) == Some("<del>" + lesson.value + "</del>"))
            && (lesson.None? ==> LessonCell(cell) == Some(""))
    ensures LessonCell(cell).value == ""
            || exists lesson :: LessonCell(cell).value == "<del>" + lesson + "</del>" && !Contains(lesson, "</")
  {
    var content := CellContent(cell);
    if CancelledLesson(content).Some? {
      var lesson := CancelledLesson(content).value;
      assert LessonCell(cell).value == "<del>" + lesson + "</del>";
    }
  }

  /** A changed cell with both colours reads `old → new`, both stripped. */
  lemma LessonCellChanged(cell: string)
    requires var content := CellContent(cell);
             && Contains(content, "span") && !Contains(content, "lesson-cell cancelled")
             && Contains(content, "<span style=\"color") && !Contains(content, "Inter")
             && Contains(content, "red;\">") && Contains(content, "green;\">")
    ensures var content := CellContent(cell);
            var was, now := ColouredText(content, "red;\">"), ColouredText(content, "green;\">");
            && LessonCell(cell) == Some(was + Arrow + now)
            && Strip(was) == was && Strip(now) == now
  {
  }

  /** Every other cell with a span is read as a regular lesson: lesson, teacher and
      room joined by blanks and stripped, a single line; or "" when one of the three
      is missing. */
  lemma LessonCellRegular(cell: string)
    requires var content := CellContent(cell);
             && Contains(content, "span") && !Contains(content, "lesson-cell cancelled")
             && !(Contains(content, "<span style=\"color") && !Contains(content, "Inter"))
    ensures LessonCell(cell).Some? && '\n' !in LessonCell(cell).value
    ensures var content := CellContent(cell);
            var lesson, teacher, room := LessonName(content), Teacher(content), Room(content);
            && (lesson.Some? && teacher.Some? && room.Some? ==>
                  LessonCell(cell) == Some(Strip(lesson.value + " " + teacher.value + " " + room.value)))
            && (lesson.None? || teacher.None? || room.None? ==> LessonCell(cell) == Some(""))
  {
  }

  /** Only the text before the first `</td>` matters: cutting there first changes
      nothing. */
  lemma LessonCellCut(cell: string)
    ensures LessonCell(CellContent(cell)) == LessonCell(cell)
  {
    BeforeIdempotent(cell, "</td>");
  }

  /** `html.split("<table", 1)[1].split("</table>", 1)[0]`; None where the first
      `[1]` raises IndexError. */
  function TableText(html: string): (r: Option<string>)
    ensures r.Some? <==> Contains(html, "<table")
    ensures r.Some? ==> !Contains(r.value, "</table>")
  {
    var afterTable :- After(html, "<table");
    Some(Before(afterTable, "</table>"))
  }

  /** The table text split at `<tr>` with the header and time rows deleted; None
      where the table is missing or the second `del` raises IndexError (a table
      without `<tr>`). */
  function TableRows(html: string): (r: Option<seq<string>>)
    ensures r.None? <==> !Contains(html, "<table") || !Contains(TableText(html).value, "<tr>")
    ensures r.Some? ==> r.value == Split(TableText(html).value, "<tr>")[2..]
  {
    var table :- TableText(html);
    var rows := Split(table, "<tr>");
    if |rows| < 2 then None else Some(rows[2..])
  }

  /** `row.split("<td>")`. */
  function Columns(row: string): (r: seq<string>)
    ensures |r| >= 1
  {
    Split(row, "<td>")
  }

  /** The number of days a row fills: `len(columns[1:8])`. */
  function DayCount(row: string): (r: int)
    ensures 0 <= r <= 7 && r < |Columns(row)|
    ensures |Columns(row)| >= 8 ==> r == 7
    ensures |Columns(row)| < 8 ==> r == |Columns(row)| - 1
  {
    Min(7, |Columns(row)| - 1)
  }

  /** The cells that day `d` collects from `rows`: column `d + 1` of every row that
      reaches that day, in row order. */
  function DayColumn(rows: seq<string>, d: nat): (r: seq<Cell>)
    ensures |r| <= |rows|
    decreases |rows|
  {
    if rows == [] then []
    else
      var last := rows[|rows| - 1];
      DayColumn(rows[..|rows| - 1], d) + (if d < DayCount(last) then [LessonCell(Columns(last)[d + 1])] else [])
  }

  lemma DayColumnSnoc(rows: seq<string>, row: string, d: nat)
    ensures DayColumn(rows + [row], d) ==
              DayColumn(rows, d) + (if d < DayCount(row) then [LessonCell(Columns(row)[d + 1])] else [])
  {
    assert (rows + [row])[..|rows|] == rows;
  }

  /** A day never holds more cells than there are rows, and a later day never holds
      more than an earlier one: a short row fills only the first days. */
  lemma {:induction false} DayColumnBounds(rows: seq<string>, d: nat)
    ensures |DayColumn(rows, d)| <= |rows|
    ensures |DayColumn(rows, d + 1)| <= |DayColumn(rows, d)|
    decreases |rows|
  {
    if rows != [] {
      DayColumnBounds(rows[..|rows| - 1], d);
    }
  }

  /** When every row has all seven day columns (eight `<td>` pieces or more), day
      `d` holds one cell per row: the lesson of column `d + 1`. */
  lemma {:induction false} DayColumnFull(rows: seq<string>, d: nat)
    requires d < 7
    requires forall r :: 0 <= r < |rows| ==> |Columns(rows[r])| >= 8
    ensures |DayColumn(rows, d)| == |rows|
    ensures forall r :: 0 <= r < |rows| ==> DayColumn(rows, d)[r] == LessonCell(Columns(rows[r])[d + 1])
    decreases |rows|
  {
    if rows != [] {
      var n := |rows|;
      var init, last := rows[..n - 1], rows[n - 1];
      assert rows == init + [last];
      assert forall r :: 0 <= r < |init| ==> init[r] == rows[r];
      DayColumnFull(init, d);
      DayColumnSnoc(init, last, d);
      assert DayCount(last) == 7;
    }
  }

  /** What `_scrape_timetable` returns for the schedule HTML once it is loaded:
      seven day lists, or [] when the table cannot be cut out. */
  function Week(html: string): (r: seq<seq<Cell>>)
    ensures r == [] <==> TableRows(html).None?
    ensures r != [] ==> |r| == 7
  {
    match TableRows(html)
    case None => []
    case Some(rows) => seq(7, d requires 0 <= d < 7 => DayColumn(rows, d))
  }

  /** The column loop for one row: cell `d + 1` of the row is appended to day `d`
      for every day the row reaches. */
  method AddRow(days: array<seq<Cell>>, row: string)
    requires days.Length == 7
    modifies days
    ensures forall d :: 0 <= d < 7 ==>
              days[d] == old(days[d]) + (if d < DayCount(row) then [LessonCell(Columns(row)[d + 1])] else [])
  {
    var columns := Columns(row);
    var j := 0;
    while j < 7 && j + 1 < |columns|
      invariant 0 <= j <= DayCount(row)
      invariant forall d :: 0 <= d < j ==> days[d] == old(days[d]) + [LessonCell(columns[d + 1])]
      invariant forall d :: j <= d < 7 ==> days[d] == old(days[d])
    {
      days[j] := days[j] + [LessonCell(columns[j + 1])];
      j := j + 1;
    }
  }

  /** One row more: seven day lists that were the columns of the first `i` rows,
      each extended as `AddRow` extends it, are the columns of the first `i + 1`. */
  lemma DayColumnsStep(rows: seq<string>, i: nat, before: seq<seq<Cell>>, after: seq<seq<Cell>>)
    requires i < |rows| && |before| == 7 && |after| == 7
    requires forall d :: 0 <= d < 7 ==> before[d] == DayColumn(rows[..i], d)
    requires forall d :: 0 <= d < 7 ==>
               after[d] == before[d] + (if d < DayCount(rows[i]) then [LessonCell(Columns(rows[i])[d + 1])] else [])
    ensures forall d :: 0 <= d < 7 ==> after[d] == DayColumn(rows[..i + 1], d)
  {
    assert rows[..i + 1] == rows[..i] + [rows[i]];
    forall d | 0 <= d < 7
      ensures after[d] == DayColumn(rows[..i + 1], d)
    {
      DayColumnSnoc(rows[..i], rows[i], d);
    }
  }

  /** The row loop of `_scrape_timetable` (scraper.py:270-276), filling seven day
      lists in place. */
  method FillDays(rows: seq<string>) returns (week: seq<seq<Cell>>)
    ensures |week| == 7
    ensures forall d :: 0 <= d < 7 ==> week[d] == DayColumn(rows, d)
  {
    var days := new seq<Cell>[7](_ => []);
    var i := 0;
    while i < |rows|
      invariant 0 <= i <= |rows|
      invariant forall d :: 0 <= d < 7 ==> days[d] == DayColumn(rows[..i], d)
    {
      ghost var before := days[..];
      AddRow(days, rows[i]);
      DayColumnsStep(rows, i, before, days[..]);
      i := i + 1;
    }
    assert rows[..i] == rows;
    week := days[..];
  }

  /** `_scrape_timetable` (scraper.py:262-283) once the page is loaded. */
  method ScrapeTimetable(html: string) returns (week: seq<seq<Cell>>)
    ensures week == Week(html)
  {
    var table := TableRows(html);
    if table.None? {
      return [];
    }
    week := FillDays(table.value);
  }
}
