/** The data update coordinator of __init__.py: the refresh interval and the
    merge of the letters and the scraped data into one snapshot. */
module Coordinator {
  import opened Wrappers
  import opened Api
  import opened Homework
  import opened Exams
  import opened Timetable

  const DefaultScanInterval: nat := 300
  const ScrapingScanInterval: nat := 900

  /** The `data` dictionary a refresh publishes; None stands for an absent key. */
  datatype Snapshot = Snapshot(
    letters: Option<seq<Letter>>,
    unreadCount: Option<int>,
    totalCount: Option<int>,
    homework: Option<seq<HomeworkItem>>,
    exams: Option<seq<ExamItem>>,
    timetable: Option<seq<seq<Cell>>>,
    appointments: Option<seq<Json>>)

  /** The empty dictionary `{}`. */
  const EmptySnapshot: Snapshot := Snapshot(None, None, None, None, None, None, None)

  /** The keys present in the dictionary. */
  function Keys(s: Snapshot): (r: set<string>)
    ensures s == EmptySnapshot <==> r == {}
  {
    (if s.letters.Some? then {"letters"} else {})
    + (if s.unreadCount.Some? then {"unread_count"} else {})
    + (if s.totalCount.Some? then {"total_count"} else {})
    + (if s.homework.Some? then {"homework"} else {})
    + (if s.exams.Some? then {"exams"} else {})
    + (if s.timetable.Some? then {"timetable"} else {})
    + (if s.appointments.Some? then {"appointments"} else {})
  }

  /** The dictionary `scrape_all_data` returns; None stands for an absent key. */
  datatype ScrapedData = ScrapedData(
    homework: Option<seq<HomeworkItem>>,
    exams: Option<seq<ExamItem>>,
    timetable: Option<seq<seq<Cell>>>,
    appointments: Option<seq<Json>>)

  /** How `scrape_all_data` ends: with its dictionary, or raising
      `SchulmanagerOnlineScraperError`, into which it wraps every exception. */
  datatype ScrapeOutcome = Scraped(data: ScrapedData) | ScraperFailed

  /** How a refresh ends: the snapshot is published, `UpdateFailed` is raised, or
      another exception propagates unwrapped. */
  datatype Refresh = Published(data: Snapshot) | UpdateFailed | Raised(failure: PyError)

  /** `sum(1 for letter in letters if not letter["read"])`. */
  function UnreadCount(letters: seq<Letter>): (r: nat)
    ensures r <= |letters|
    decreases |letters|
  {
    if letters == [] then 0
    else UnreadCount(letters[..|letters| - 1]) + (if letters[|letters| - 1].read then 0 else 1)
  }

  /** Unread letters are counted separately in each part of a list. */
  lemma {:induction false} UnreadCountAppend(a: seq<Letter>, b: seq<Letter>)
    ensures UnreadCount(a + b) == UnreadCount(a) + UnreadCount(b)
    decreases |b|
  {
    if b == [] {
      assert a + b == a;
    } else {
      assert (a + b)[..|a + b| - 1] == a + b[..|b| - 1];
      UnreadCountAppend(a, b[..|b| - 1]);
    }
  }

  /** The count is zero exactly when every letter is read, and the whole list
      exactly when none is. */
  lemma {:induction false} UnreadCountExtremes(letters: seq<Letter>)
    ensures UnreadCount(letters) == 0 <==> forall i :: 0 <= i < |letters| ==> letters[i].read
    ensures UnreadCount(letters) == |letters| <==> forall i :: 0 <= i < |letters| ==> !letters[i].read
    decreases |letters|
  {
    if letters != [] {
      var init := letters[..|letters| - 1];
      UnreadCountExtremes(init);
      assert forall i :: 0 <= i < |init| ==> init[i] == letters[i];
    }
  }

  /** The letter fields of a snapshot agree with its letters. */
  predicate CountsConsistent(s: Snapshot) {
    && s.letters.Some?
    && s.totalCount == Some(|s.letters.value|)
    && s.unreadCount == Some(UnreadCount(s.letters.value))
  }

  /** `data.update(...)` with the four scraped lists, each `[]` when absent. */
  function WithScraped(data: Snapshot, scraped: ScrapedData): (r: Snapshot)
    ensures Keys(r) == Keys(data) + {"homework", "exams", "timetable", "appointments"}
    ensures r.letters == data.letters && r.unreadCount == data.unreadCount && r.totalCount == data.totalCount
    ensures r.homework.Some? && (scraped.homework.Some? ==> r.homework == scraped.homework)
    ensures r.exams.Some? && (scraped.exams.Some? ==> r.exams == scraped.exams)
    ensures r.timetable.Some? && (scraped.timetable.Some? ==> r.timetable == scraped.timetable)
    ensures r.appointments.Some? && (scraped.appointments.Some? ==> r.appointments == scraped.appointments)
  {
    data.(homework := Some(scraped.homework.GetOr([])),
          exams := Some(scraped.exams.GetOr([])),
          timetable := Some(scraped.timetable.GetOr([])),
          appointments := Some(scraped.appointments.GetOr([])))
  }

  class DataUpdateCoordinator {
    /** Whether a scraper was handed over: `if self.scraper`. */
    const scraperConfigured: bool
    /** The refresh interval in seconds. */
    const updateInterval: nat

    /** `__init__`: scraping makes refreshes three times rarer. */
    constructor (scraperConfigured: bool)
      ensures this.scraperConfigured == scraperConfigured
      ensures updateInterval == if scraperConfigured then ScrapingScanInterval else DefaultScanInterval
    {
      this.scraperConfigured := scraperConfigured;
      updateInterval := if scraperConfigured then ScrapingScanInterval else DefaultScanInterval;
    }

    /** `_async_update_data`, given how `get_letters` and (if it is called)
        `scrape_all_data` end. Letters come first: an API error aborts the refresh
        as `UpdateFailed`, any other failure (the auth error among them) propagates,
        and in both cases the scraper is not called. A scraper failure only empties
        the four scraped lists. */
    method UpdateData(letters: Result<seq<Letter>, PyError>, scrape: ScrapeOutcome)
      returns (r: Refresh, scraperCalled: bool)
      ensures letters.Failure? ==> !scraperCalled
      ensures letters.Failure? && letters.error == ApiError ==> r == UpdateFailed
      ensures letters.Failure? && letters.error != ApiError ==> r == Raised(letters.error)
      ensures letters.Success? ==> r.Published? && scraperCalled == scraperConfigured
      ensures r.Published? ==> CountsConsistent(r.data) && r.data.letters == Some(letters.value)
      ensures r.Published? && !scraperConfigured ==>
                Keys(r.data) == {"letters", "unread_count", "total_count"}
      ensures r.Published? && scraperConfigured ==>
                Keys(r.data) == {"letters", "unread_count", "total_count", "homework", "exams", "timetable", "appointments"}
      ensures r.Published? && scraperConfigured && scrape.Scraped? ==>
                && r.data.homework == Some(scrape.data.homework.GetOr([]))
                && r.data.exams == Some(scrape.data.exams.GetOr([]))
                && r.data.timetable == Some(scrape.data.timetable.GetOr([]))
                && r.data.appointments == Some(scrape.data.appointments.GetOr([]))
      ensures r.Published? && scraperConfigured && scrape.ScraperFailed? ==>
                && r.data.homework == Some([]) && r.data.exams == Some([])
                && r.data.timetable == Some([]) && r.data.appointments == Some([])
    {
      var data := EmptySnapshot;
      scraperCalled := false;
      if letters.Failure? {
        if letters.error == ApiError {
          return UpdateFailed, false;
        }
        return Raised(letters.error), false;
      }
      var fetched := letters.value;
      data := data.(letters := Some(fetched), unreadCount := Some(UnreadCount(fetched)), totalCount := Some(|fetched|));
      if scraperConfigured {
        scraperCalled := true;
        match scrape
        case Scraped(scraped) =>
          data := WithScraped(data, scraped);
        case ScraperFailed =>
          data := data.(homework := Some([]), exams := Some([]), timetable := Some([]), appointments := Some([]));
      }
      r := Published(data);
    }
  }
}
