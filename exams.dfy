/** The exam table of scraper.py: `_parse_exam_row` and the table and row
    splitting of `_scrape_exams` that runs on the dashboard HTML. */
module Exams {
  import opened Wrappers
  import opened PyStr
  import opened ScraperText

  /** One exam entry: `{"date", "subject", "time", "description"}`. */
  datatype ExamItem = ExamItem(date: string, subject: string, time: string, description: string)

  /** `row.split("<strong ")[1].split(">")[1].split("<")[0]`. */
  function ExamSubject(row: string): (r: Option<string>)
    ensures r.Some? <==> Piece(row, "<strong ", 1).Some? && Contains(Piece(row, "<strong ", 1).value, ">")
    ensures r.Some? ==> !Contains(r.value, "<") && !Contains(r.value, ">")
  {
    var strong :- Piece(row, "<strong ", 1);
    TagText(strong)
  }

  /** `.split("<td ")[1].split(">")[1].split("\n")[1].split("\n")[0].split(", ")[1].split(",")[0]`
      applied to the text after the subject: the date token of the date cell. */
  function ExamDateText(afterSubject: string): (r: Option<string>)
    ensures r.Some? ==> !Contains(r.value, ",")
  {
    var td :- Piece(afterSubject, "<td ", 1);
    var cell :- Piece(td, ">", 1);
    var line :- Piece(cell, "\n", 1);
    var firstLine := Before(line, "\n");
    var dated :- Piece(firstLine, ", ", 1);
    Some(Before(dated, ","))
  }

  /** scraper.py:226-228: the digits of the current year are appended, with no
      separator, unless they already occur in the date. */
  function WithYear(date: string, year: nat): (r: string)
    ensures Contains(r, Decimal(year))
    ensures r == date <==> Contains(date, Decimal(year))
    ensures r != date ==> r == date + Decimal(year)
  {
    ContainsSuffix(date, Decimal(year));
    if Contains(date, Decimal(year)) then date else date + Decimal(year)
  }

  /** The begin time: `time_section.split("<br")[1].split(">")[1].split("<")[0]`
      with spaces and newlines removed. */
  function BeginTime(section: string): (r: Option<string>)
    ensures r.Some? ==> ' ' !in r.value && '\n' !in r.value
  {
    var br :- Piece(section, "<br", 1);
    var text :- TagText(br);
    Some(Compact(text))
  }

  /** The end time: `time_section.split("- ")[1].split("\n")[0]`. */
  function EndTime(section: string): (r: Option<string>)
    ensures r.Some? ==> '\n' !in r.value
  {
    var dashed :- Piece(section, "- ", 1);
    ContainsChar(Before(dashed, "\n"), '\n');
    Some(Before(dashed, "\n"))
  }

  /** `time` is `begin + " - " + end` with a begin free of blanks and newlines and an
      end free of newlines. */
  predicate IsTimeRange(time: string, begin: string, end: string) {
    && time == begin + " - " + end
    && ' ' !in begin && '\n' !in begin
    && '\n' !in end
  }

  /** The date text with the year added where it was missing: the text at which
      the row is cut for the time section and that is formatted as the date. */
  function ExamDate(after: string, year: nat): (r: Option<string>)
    ensures r.Some? <==> ExamDateText(after).Some?
    ensures r.Some? ==> r.value != [] && r.value == WithYear(ExamDateText(after).value, year)
  {
    var dateText :- ExamDateText(after);
    var date := WithYear(dateText, year);
    assert date != [] by {
      assert Contains(date, Decimal(year));
    }
    Some(date)
  }

  /** `row_after_subject.split(date_str)[1]`: the text after the first occurrence of
      the (possibly extended) date text. */
  function TimeSection(after: string, year: nat): (r: Option<string>)
    ensures r.Some? ==> ExamDate(after, year).Some? && Contains(after, ExamDate(after, year).value)
  {
    var date :- ExamDate(after, year);
    Piece(after, date, 1)
  }

  /** `begin_time + " - " + end`: present exactly when both times are. */
  function ExamTime(section: string): (r: Option<string>)
    ensures r.Some? <==> BeginTime(section).Some? && EndTime(section).Some?
    ensures r.Some? ==> IsTimeRange(r.value, BeginTime(section).value, EndTime(section).value)
  {
    var begin :- BeginTime(section);
    var end :- EndTime(section);
    Some(begin + " - " + end)
  }

  /** The part of `_parse_exam_row` after the subject is known: the date, the
      times and the item, read from the text after the subject. */
  function ExamAfterSubject(subject: string, after: string, year: nat): (r: Option<ExamItem>)
    ensures r.Some? ==> r.value.subject == subject
    ensures r.Some? ==> TimeSection(after, year).Some? && ExamTime(TimeSection(after, year).value) == Some(r.value.time)
    ensures r.Some? ==> r.value.description == r.value.time + " " + r.value.subject
    ensures r.Some? ==> && ExamDateText(after).Some?
                        && var date := WithYear(ExamDateText(after).value, year);
                           && Contains(after, date)
                           && Some(r.value.date) == FormatDate(date)
  {
    var section :- TimeSection(after, year);
    var time :- ExamTime(section);
    var formatted :- FormatDate(ExamDate(after, year).value);
    Some(ExamItem(formatted, subject, time, time + " " + subject))
  }

  /** The subject is cut out of its own row, so the row contains it. */
  lemma ExamSubjectInRow(row: string)
    requires ExamSubject(row).Some?
    ensures Contains(row, ExamSubject(row).value)
  {
    var strong := Piece(row, "<strong ", 1).value;
    SplitPieceContained(row, "<strong ", 1);
    var inner := Piece(strong, ">", 1).value;
    SplitPieceContained(strong, ">", 1);
    var subject := Before(inner, "<");
    assert subject == ExamSubject(row).value;
    assert subject == inner[0..|subject|];
    ContainsSlice(inner, 0, |subject|);
    ContainsTransitive(strong, inner, subject);
    ContainsTransitive(row, strong, subject);
  }

  /** The text after the subject, where the date and times are looked for;
      None where `row.split(subject)[1]` raises, for an empty subject too. */
  function AfterSubject(row: string): (r: Option<string>)
    ensures r.Some? <==> ExamSubject(row).Some? && ExamSubject(row).value != []
  {
    var subject :- ExamSubject(row);
    ExamSubjectInRow(row);
    // `row.split(subject)` raises ValueError for an empty subject.
    if subject == [] then None else Piece(row, subject, 1)
  }

  /** What `_parse_exam_row(row)` returns when the current year is `year`; None
      where it raises and the handler returns None. */
  function ExamRow(row: string, year: nat): (r: Option<ExamItem>)
    ensures ExamSubject(row) == Some("") ==> r.None?
    ensures r.Some? ==> Some(r.value.subject) == ExamSubject(row) && r.value.subject != ""
    ensures r.Some? ==> && AfterSubject(row).Some?
                        && var section := TimeSection(AfterSubject(row).value, year);
                           section.Some? && ExamTime(section.value) == Some(r.value.time)
    ensures r.Some? ==> r.value.description == r.value.time + " " + r.value.subject
  {
    var subject :- ExamSubject(row);
    var after :- AfterSubject(row);
    ExamAfterSubject(subject, after, year)
  }

  /** A parsed exam carries the date of its row, with the year appended when it was
      missing, as `Y-MM-DD`; the time section was cut at that (possibly extended)
      date text, so the extended text occurs after the subject. */
  lemma ExamRowDate(row: string, year: nat)
    requires ExamRow(row, year).Some?
    ensures AfterSubject(row).Some? && ExamDateText(AfterSubject(row).value).Some?
    ensures var date := WithYear(ExamDateText(AfterSubject(row).value).value, year);
            && Contains(AfterSubject(row).value, date)
            && Contains(date, Decimal(year))
            && Some(ExamRow(row, year).value.date) == FormatDate(date)
  {
  }

  /** A row whose date lacks the year and whose text does not hold the extended
      date is discarded: the cut at the extended date finds nothing. */
  lemma ExamRowYearlessDiscarded(row: string, year: nat)
    requires AfterSubject(row).Some? && ExamDateText(AfterSubject(row).value).Some?
    requires var date := ExamDateText(AfterSubject(row).value).value;
             !Contains(date, Decimal(year)) && !Contains(AfterSubject(row).value, date + Decimal(year))
    ensures ExamRow(row, year).None?
  {
    var date := ExamDateText(AfterSubject(row).value).value;
    assert WithYear(date, year) == date + Decimal(year);
  }

  /** The time of a parsed exam is the begin time of the time section, " - ", and
      its end time: both read from the text after the extended date. */
  lemma ExamRowTime(row: string, year: nat)
    requires ExamRow(row, year).Some?
    ensures AfterSubject(row).Some? && TimeSection(AfterSubject(row).value, year).Some?
    ensures var section := TimeSection(AfterSubject(row).value, year).value;
            && BeginTime(section).Some? && EndTime(section).Some?
            && ExamRow(row, year).value.time == BeginTime(section).value + " - " + EndTime(section).value
  {
    var after := AfterSubject(row).value;
    var section := TimeSection(after, year).value;
    assert ExamTime(section).Some?;
  }

  /** A row whose time section is missing, or lacks the begin or the end time, is
      discarded. */
  lemma ExamRowTimeMissing(row: string, year: nat)
    requires AfterSubject(row).Some?
    ensures TimeSection(AfterSubject(row).value, year).None? ==> ExamRow(row, year).None?
    ensures var section := TimeSection(AfterSubject(row).value, year);
            section.Some? && (BeginTime(section.value).None? || EndTime(section.value).None?)
            ==> ExamRow(row, year).None?
  {
    var after := AfterSubject(row).value;
    var section := TimeSection(after, year);
    if section.Some? {
      assert ExamTime(section.value).Some? <==> BeginTime(section.value).Some? && EndTime(section.value).Some?;
    }
  }

  /** The digits of 2025. */
  lemma Decimal2025()
    ensures Decimal(2025) == "2025"
  {
    assert Decimal(2) == "2";
    assert Decimal(20) == "20";
    assert Decimal(202) == "202";
  }

  /** A year-less date token such as "12.11" in 2025 becomes "12.112025", which has a
      single dot and is rejected by the date step. */
  lemma WithYearExample(d: string, m: string)
    requires d == "12" && m == "11"
    ensures WithYear(d + "." + m, 2025) == d + "." + m + "2025"
    ensures FormatDate(WithYear(d + "." + m, 2025)).None?
  {
    Decimal2025();
    MissingCharNotContains(d + "." + m, "2025", 3);
    var extended := d + "." + (m + "2025");
    assert WithYear(d + "." + m, 2025) == extended;
    CountAppend(d + ".", m + "2025", '.');
    CountAppend(d, ".", '.');
    CountAbsent(d, '.');
    CountAbsent(m + "2025", '.');
    FormatDateAccepts(extended);
  }

  /** With a trailing dot the extended token is a full date: "12.11." in 2025 becomes
      "12.11.2025", formatted as "2025-11-12". */
  lemma WithYearDottedExample(d: string, m: string)
    requires d == "12" && m == "11"
    ensures WithYear(d + "." + m + ".", 2025) == d + "." + m + "." + "2025"
    ensures FormatDate(WithYear(d + "." + m + ".", 2025)) == Some("2025" + "-" + m + "-" + d)
  {
    Decimal2025();
    MissingCharNotContains(d + "." + m + ".", "2025", 3);
    FormatDateOfParts(d, m, "2025");
  }

  /** The rows of the first table: `html.split("<table ")[1].split("</table>")[0]`,
      split at `<tr ` with the first piece popped; none for a page without
      `<table `, where `_scrape_exams` returns early. */
  function ExamRows(html: string): (r: seq<string>)
    ensures !Contains(html, "<table ") ==> r == []
    ensures forall k :: 0 <= k < |r| ==> !Contains(r[k], "<tr ")
  {
    if !Contains(html, "<table ") then []
    else
      var table := Piece(html, "<table ", 1).value;
      var pieces := Split(Before(table, "</table>"), "<tr ");
      SplitPiecesFree(Before(table, "</table>"), "<tr ");
      assert forall k :: 0 <= k < |pieces| - 1 ==> pieces[1..][k] == pieces[k + 1];
      pieces[1..]
  }

  /** `_parse_exam_row` applied to each row. */
  function RowResults(rows: seq<string>, year: nat): (r: seq<Option<ExamItem>>)
    ensures |r| == |rows|
  {
    seq(|rows|, k requires 0 <= k < |rows| => ExamRow(rows[k], year))
  }

  /** The parsed exams in row order, the discarded rows left out. */
  function Parsed(results: seq<Option<ExamItem>>): (r: seq<ExamItem>)
    ensures |r| <= |results|
    decreases |results|
  {
    if results == [] then []
    else
      var last := results[|results| - 1];
      Parsed(results[..|results| - 1]) + (if last.Some? then [last.value] else [])
  }

  /** Filtering two runs of rows is concatenation: row order is kept. */
  lemma {:induction false} ParsedAppend(a: seq<Option<ExamItem>>, b: seq<Option<ExamItem>>)
    ensures Parsed(a + b) == Parsed(a) + Parsed(b)
    decreases |b|
  {
    if b == [] {
      assert a + b == a;
    } else {
      var n := |b|;
      assert (a + b)[..|a + b| - 1] == a + b[..n - 1];
      ParsedAppend(a, b[..n - 1]);
      var last := if b[n - 1].Some? then [b[n - 1].value] else [];
      calc {
        Parsed(a + b);
        Parsed(a + b[..n - 1]) + last;
        Parsed(a) + (Parsed(b[..n - 1]) + last);
        Parsed(a) + Parsed(b);
      }
    }
  }

  /** No more exams than rows, and an exam is listed exactly when some row parses
      to it. */
  lemma {:induction false} ParsedSpec(results: seq<Option<ExamItem>>, exam: ExamItem)
    ensures |Parsed(results)| <= |results|
    ensures exam in Parsed(results) <==> exists k :: 0 <= k < |results| && results[k] == Some(exam)
    decreases |results|
  {
    if results != [] {
      var n := |results|;
      var init := results[..n - 1];
      ParsedSpec(init, exam);
      assert forall k :: 0 <= k < n - 1 ==> init[k] == results[k];
    }
  }

  /** What `_scrape_exams` returns for the dashboard HTML once it is read. */
  function ExamsPage(html: string, year: nat): (r: seq<ExamItem>)
    ensures !Contains(html, "<table ") ==> r == []
  {
    if !Contains(html, "<table ") then [] else Parsed(RowResults(ExamRows(html), year))
  }

  /** The row loop of `_scrape_exams` (scraper.py:202-206): the exams of the rows
      that parse, in row order. */
  method CollectExams(rows: seq<string>, year: nat, ghost results: seq<Option<ExamItem>>)
    returns (exams: seq<ExamItem>)
    requires results == RowResults(rows, year)
    ensures exams == Parsed(results)
  {
    exams := [];
    var i := 0;
    while i < |rows|
      invariant 0 <= i <= |rows|
      invariant exams == Parsed(results[..i])
    {
      var exam := ExamRow(rows[i], year);
      assert exam == results[i];
      assert results[..i + 1][..i] == results[..i];
      if exam.Some? {
        exams := exams + [exam.value];
      }
      i := i + 1;
    }
    assert results[..i] == results;
  }

  /** `_scrape_exams` (scraper.py:192-209) once the dashboard is read. */
  method ScrapeExamsPage(html: string, year: nat) returns (exams: seq<ExamItem>)
    ensures !Contains(html, "<table ") ==> exams == []
    ensures exams == ExamsPage(html, year)
  {
    if !Contains(html, "<table ") {
      return [];
    }
    var rows := ExamRows(html);
    exams := CollectExams(rows, year, RowResults(rows, year));
  }
}
