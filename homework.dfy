/** The homework page of scraper.py: `_parse_homework_block` and the
    block-splitting loop of `_scrape_homework` that runs on the page HTML. */
module Homework {
  import opened Wrappers
  import opened PyStr
  import opened ScraperText

  /** One homework entry: `{"date", "subject", "task", "description"}`. */
  datatype HomeworkItem = HomeworkItem(date: string, subject: string, task: string, description: string)

  /** `block.split(", ", 1)[1].split("\n")[0]`: the date text after the first comma,
      up to the end of its line. */
  function BlockDate(block: string): (r: Option<string>)
    ensures r.Some? <==> Contains(block, ", ")
    ensures r.Some? ==> !Contains(r.value, "\n")
  {
    var afterComma :- After(block, ", ");
    Some(Before(afterComma, "\n"))
  }

  /** `block.split(marker)` with the first piece popped. */
  function Fragments(block: string, marker: string): seq<string>
    requires marker != []
  {
    Split(block, marker)[1..]
  }

  /** The tag texts of `fragments` in order, as the subject and task loops collect
      them; None as soon as one fragment has no `>`. */
  function TagTexts(fragments: seq<string>): (r: Option<seq<string>>)
    ensures r.Some? ==> |r.value| == |fragments|
    decreases |fragments|
  {
    if fragments == [] then Some([])
    else
      var init :- TagTexts(fragments[..|fragments| - 1]);
      var last :- TagText(fragments[|fragments| - 1]);
      Some(init + [last])
  }

  /** TagTexts succeeds exactly when every fragment has a tag text, and then lists
      those texts position by position. */
  lemma {:induction false} TagTextsSpec(fragments: seq<string>)
    ensures TagTexts(fragments).Some? <==> forall k :: 0 <= k < |fragments| ==> TagText(fragments[k]).Some?
    ensures TagTexts(fragments).Some? ==>
              && |TagTexts(fragments).value| == |fragments|
              && forall k :: 0 <= k < |fragments| ==> TagTexts(fragments).value[k] == TagText(fragments[k]).value
    decreases |fragments|
  {
    if fragments != [] {
      var n := |fragments|;
      var init := fragments[..n - 1];
      TagTextsSpec(init);
      assert forall k :: 0 <= k < n - 1 ==> init[k] == fragments[k];
      var last := TagText(fragments[n - 1]);
      if TagTexts(init).Some? && last.Some? {
        var texts := TagTexts(init).value + [last.value];
        assert TagTexts(fragments) == Some(texts);
        forall k | 0 <= k < n
          ensures texts[k] == TagText(fragments[k]).value
        {
          if k < n - 1 {
            assert texts[k] == TagTexts(init).value[k];
          }
        }
      } else if TagTexts(init).None? {
        assert TagTexts(fragments).None?;
        var k :| 0 <= k < n - 1 && TagText(init[k]).None?;
        assert TagText(fragments[k]).None?;
      } else {
        assert TagTexts(fragments).None?;
      }
    }
  }

  /** `subject` i paired with task i, for every i below both counts. */
  function Pair(date: string, subjects: seq<string>, tasks: seq<string>): (r: seq<HomeworkItem>)
    ensures |r| == Min(|subjects|, |tasks|)
  {
    seq(Min(|subjects|, |tasks|), i requires 0 <= i < Min(|subjects|, |tasks|) =>
      HomeworkItem(date, subjects[i], tasks[i], subjects[i] + ": " + tasks[i]))
  }

  /** What `_parse_homework_block` returns for `block`; None where it raises and
      the handler returns None. */
  function HomeworkBlock(block: string): (r: Option<seq<HomeworkItem>>)
    ensures r.Some? ==> Contains(block, ", ")
    ensures r.Some? ==> forall i :: 0 <= i < |r.value| ==>
              r.value[i].description == r.value[i].subject + ": " + r.value[i].task
  {
    var dateText :- BlockDate(block);
    var subjects :- TagTexts(Fragments(block, "<h4 "));
    var tasks :- TagTexts(Fragments(block, "<span "));
    var date :- FormatDate(dateText);
    Some(Pair(date, subjects, tasks))
  }

  /** A parsed block has one item per `<h4 ` fragment that has a `<span ` fragment
      of the same position: item i pairs subject i with task i, every item
      carries the block's date, and each description is `subject: task`. */
  lemma HomeworkBlockItems(block: string)
    requires HomeworkBlock(block).Some?
    ensures var items := HomeworkBlock(block).value;
            var lessons, tasks := Fragments(block, "<h4 "), Fragments(block, "<span ");
            && |items| == Min(|lessons|, |tasks|)
            && forall i :: 0 <= i < |items| ==>
                 && items[i].date == FormatDate(BlockDate(block).value).value
                 && Some(items[i].subject) == TagText(lessons[i])
                 && Some(items[i].task) == TagText(tasks[i])
                 && items[i].description == items[i].subject + ": " + items[i].task
  {
    TagTextsSpec(Fragments(block, "<h4 "));
    TagTextsSpec(Fragments(block, "<span "));
  }

  /** A block is discarded exactly when its date text is missing, a subject or task
      fragment has no `>`, or the date text does not hold exactly two dots. */
  lemma HomeworkBlockDiscarded(block: string)
    ensures HomeworkBlock(block).None? <==>
              || !Contains(block, ", ")
              || (exists k :: 0 <= k < |Fragments(block, "<h4 ")| && TagText(Fragments(block, "<h4 ")[k]).None?)
              || (exists k :: 0 <= k < |Fragments(block, "<span ")| && TagText(Fragments(block, "<span ")[k]).None?)
              || Count(BlockDate(block).value, '.') != 2
  {
    TagTextsSpec(Fragments(block, "<h4 "));
    TagTextsSpec(Fragments(block, "<span "));
    if Contains(block, ", ") {
      FormatDateAccepts(BlockDate(block).value);
    }
  }

  /** The subject loop (scraper.py:149-154) and the task loop (157-162): collect
      the tag text of every fragment, giving up at the first fragment without `>`. */
  method CollectTagTexts(fragments: seq<string>) returns (r: Option<seq<string>>)
    ensures r == TagTexts(fragments)
  {
    var texts: seq<string> := [];
    var i := 0;
    while i < |fragments|
      invariant 0 <= i <= |fragments|
      invariant TagTexts(fragments[..i]) == Some(texts)
    {
      var text := TagText(fragments[i]);
      if text.None? {
        TagTextsSpec(fragments);
        return None;
      }
      assert fragments[..i + 1][..i] == fragments[..i];
      texts := texts + [text.value];
      i := i + 1;
    }
    assert fragments[..i] == fragments;
    r := Some(texts);
  }

  /** The item loop (scraper.py:169-177). */
  method PairItems(date: string, subjects: seq<string>, tasks: seq<string>) returns (items: seq<HomeworkItem>)
    ensures items == Pair(date, subjects, tasks)
  {
    items := [];
    var k := 0;
    while k < |subjects|
      invariant 0 <= k <= |subjects|
      invariant items == Pair(date, subjects[..k], tasks)
    {
      if k < |tasks| {
        items := items + [HomeworkItem(date, subjects[k], tasks[k], subjects[k] + ": " + tasks[k])];
      }
      k := k + 1;
    }
    assert subjects[..k] == subjects;
  }

  /** `_parse_homework_block(block)`. */
  method ParseHomeworkBlock(block: string) returns (r: Option<seq<HomeworkItem>>)
    ensures r == HomeworkBlock(block)
  {
    var dateText := BlockDate(block);
    if dateText.None? {
      return None;
    }
    var subjects := CollectTagTexts(Fragments(block, "<h4 "));
    if subjects.None? {
      return None;
    }
    var tasks := CollectTagTexts(Fragments(block, "<span "));
    if tasks.None? {
      return None;
    }
    var date := FormatDate(dateText.value);
    if date.None? {
      return None;
    }
    var items := PairItems(date.value, subjects.value, tasks.value);
    r := Some(items);
  }

  /** The items of a run of block results in order, a discarded block adding nothing. */
  function Flatten(results: seq<Option<seq<HomeworkItem>>>): (r: seq<HomeworkItem>)
    ensures (forall k :: 0 <= k < |results| ==> results[k].None?) ==> r == []
    decreases |results|
  {
    if results == [] then []
    else Flatten(results[..|results| - 1]) + results[|results| - 1].GetOr([])
  }

  /** Flattening two runs of results is concatenation: page order is kept. */
  lemma {:induction false} FlattenAppend(a: seq<Option<seq<HomeworkItem>>>, b: seq<Option<seq<HomeworkItem>>>)
    ensures Flatten(a + b) == Flatten(a) + Flatten(b)
    decreases |b|
  {
    if b == [] {
      assert a + b == a;
    } else {
      var n := |b|;
      assert (a + b)[..|a + b| - 1] == a + b[..n - 1];
      FlattenAppend(a, b[..n - 1]);
      calc {
        Flatten(a + b);
        Flatten(a + b[..n - 1]) + b[n - 1].GetOr([]);
        Flatten(a) + (Flatten(b[..n - 1]) + b[n - 1].GetOr([]));
        Flatten(a) + Flatten(b);
      }
    }
  }

  /** One more result adds its items at the end. */
  lemma FlattenPrefix(results: seq<Option<seq<HomeworkItem>>>, k: nat)
    requires k < |results|
    ensures Flatten(results[..k + 1]) == Flatten(results[..k]) + results[k].GetOr([])
  {
    assert results[..k + 1][..k] == results[..k];
  }

  /** An item is in the flattening exactly when some successful result holds it. */
  lemma {:induction false} FlattenMember(results: seq<Option<seq<HomeworkItem>>>, item: HomeworkItem)
    ensures item in Flatten(results) <==>
              exists k :: 0 <= k < |results| && results[k].Some? && item in results[k].value
    decreases |results|
  {
    if results != [] {
      var n := |results|;
      var init := results[..n - 1];
      FlattenMember(init, item);
      assert forall k :: 0 <= k < n - 1 ==> init[k] == results[k];
    }
  }

  /** The blocks of a page: `html.split('tile">')` with the first piece popped. */
  function PageBlocks(html: string): (r: seq<string>)
    ensures r == [] <==> !Contains(html, "tile\">")
    ensures forall k :: 0 <= k < |r| ==> !Contains(r[k], "tile\">")
  {
    SplitPiecesFree(html, "tile\">");
    Fragments(html, "tile\">")
  }

  /** `_parse_homework_block` applied to every block of the page. */
  function BlockResults(html: string): (r: seq<Option<seq<HomeworkItem>>>)
    ensures |r| == |PageBlocks(html)|
  {
    var blocks := PageBlocks(html);
    seq(|blocks|, k requires 0 <= k < |blocks| => HomeworkBlock(blocks[k]))
  }

  /** What `_scrape_homework` returns for the page HTML once it is read. */
  function HomeworkPage(html: string): (r: seq<HomeworkItem>)
    ensures !Contains(html, "tile\">") ==> r == []
  {
    Flatten(BlockResults(html))
  }

  /** An item is on the page exactly when one of the page's blocks parses and
      yields it. */
  lemma HomeworkPageMember(html: string, item: HomeworkItem)
    ensures item in HomeworkPage(html) <==>
              exists k :: 0 <= k < |PageBlocks(html)| && HomeworkBlock(PageBlocks(html)[k]).Some?
                          && item in HomeworkBlock(PageBlocks(html)[k]).value
  {
    var blocks, results := PageBlocks(html), BlockResults(html);
    FlattenMember(results, item);
    assert forall k :: 0 <= k < |blocks| ==> results[k] == HomeworkBlock(blocks[k]);
  }

  /** The block loop of `_scrape_homework` (scraper.py:129-133): the items of each
      block that parses, appended in block order. */
  method CollectHomework(blocks: seq<string>, ghost results: seq<Option<seq<HomeworkItem>>>)
    returns (homework: seq<HomeworkItem>)
    requires |results| == |blocks|
    requires forall k :: 0 <= k < |blocks| ==> results[k] == HomeworkBlock(blocks[k])
    ensures homework == Flatten(results)
  {
    homework := [];
    var i := 0;
    while i < |blocks|
      invariant 0 <= i <= |blocks|
      invariant homework == Flatten(results[..i])
    {
      var items := ParseHomeworkBlock(blocks[i]);
      assert items == results[i];
      FlattenPrefix(results, i);
      homework := homework + items.GetOr([]);
      i := i + 1;
    }
    assert results[..i] == results;
  }

  /** `_scrape_homework` (scraper.py:121-136) once the page is read. */
  method ScrapeHomeworkPage(html: string) returns (homework: seq<HomeworkItem>)
    ensures homework == HomeworkPage(html)
  {
    var blocks := PageBlocks(html);
    if |blocks| == 0 {
      return [];
    }
    homework := CollectHomework(blocks, BlockResults(html));
  }
}
