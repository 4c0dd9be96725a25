/** Extraction steps shared by the homework, exam and timetable parsers of
    scraper.py: the "text of the first tag", the removal of blanks, and the
    `D.M.Y` to `Y-MM-DD` date step. */
module ScraperText {
  import opened Wrappers
  import opened PyStr

  /** `fragment.split(">")[1].split("<")[0]`: the text that follows the first `>`,
      up to the next `<`; None (an IndexError) when `fragment` has no `>`. */
  function TagText(fragment: string): (r: Option<string>)
    ensures r.Some? <==> Contains(fragment, ">")
    ensures r.Some? ==> !Contains(r.value, "<") && !Contains(r.value, ">")
  {
    SplitPiecesFree(fragment, ">");
    var inner :- Piece(fragment, ">", 1);
    PrefixFree(inner, ">", |Before(inner, "<")|);
    Some(Before(inner, "<"))
  }

  /** `s.replace(" ", "").replace("\n", "")`. */
  function Compact(s: string): (r: string)
    ensures ' ' !in r && '\n' !in r
    ensures forall c :: c in r <==> c in s && c != ' ' && c != '\n'
  {
    RemoveAll(RemoveAll(s, ' '), '\n')
  }

  /** `day, month, year = date.split(".")` then `f"{year}-{month.zfill(2)}-{day.zfill(2)}"`.
      The unpacking raises ValueError (None here) unless there are exactly three
      parts, i.e. exactly two dots. Nothing else is checked: the parts need not be
      digits and the year is not padded. */
  function FormatDate(date: string): (r: Option<string>)
    ensures r.Some? <==> |Split(date, ".")| == 3
    ensures r.Some? ==> |r.value| >= 6
  {
    var parts := Split(date, ".");
    if |parts| == 3 then Some(parts[2] + "-" + ZFill2(parts[1]) + "-" + ZFill2(parts[0]))
    else None
  }

  /** A date is accepted exactly when it holds two dots. */
  lemma FormatDateAccepts(date: string)
    ensures FormatDate(date).Some? <==> Count(date, '.') == 2
  {
    SplitCount(date, '.');
  }

  /** A date written `d.m.y` (no dot inside a part) becomes `y-MM-DD`. */
  lemma FormatDateOfParts(d: string, m: string, y: string)
    requires '.' !in d && '.' !in m && '.' !in y
    ensures FormatDate(d + "." + m + "." + y) == Some(y + "-" + ZFill2(m) + "-" + ZFill2(d))
  {
    var parts := [d, m, y];
    assert Join(parts, ".") == d + "." + m + "." + y by {
      assert Join(parts[2..], ".") == y;
      assert Join(parts[1..], ".") == m + "." + y;
    }
    JoinSplit(parts, '.');
  }

  /** Conversely, every accepted date is of that form, and the result is built from
      its three parts. */
  lemma FormatDateParts(date: string)
    requires FormatDate(date).Some?
    ensures var p := Split(date, ".");
            && |p| == 3
            && '.' !in p[0] && '.' !in p[1] && '.' !in p[2]
            && date == p[0] + "." + p[1] + "." + p[2]
            && FormatDate(date).value == p[2] + "-" + ZFill2(p[1]) + "-" + ZFill2(p[0])
  {
    var p := Split(date, ".");
    assert |p| == 3;
    SplitJoin(date, ".");
    JoinThree(p, ".");
    SplitPiecesFree(date, ".");
    assert !Contains(p[0], ".") && !Contains(p[1], ".") && !Contains(p[2], ".");
    ContainsChar(p[0], '.');
    ContainsChar(p[1], '.');
    ContainsChar(p[2], '.');
  }

  /** "5.3.2025" becomes "2025-03-05": both components are zero-padded. */
  lemma FormatDateExample(d: string, m: string, y: string)
    requires d == "5" && m == "3" && y == "2025"
    ensures FormatDate(d + "." + m + "." + y) == Some(y + "-" + "03" + "-" + "05")
  {
    FormatDateOfParts(d, m, y);
    assert ZFill2(m) == "03" && ZFill2(d) == "05";
  }

  /** Nothing is validated and the year is copied as it stands: a thirteenth month
      and a non-numeric year pass through, "31.13.x" becoming "x-13-31". */
  lemma FormatDateUnvalidated(d: string, m: string, y: string)
    requires d == "31" && m == "13" && y == "x"
    ensures FormatDate(d + "." + m + "." + y) == Some(y + "-" + m + "-" + d)
  {
    FormatDateOfParts(d, m, y);
  }
}
