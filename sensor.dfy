/** The sensors of sensor.py: which entities are created, the state each
    reports and the attributes it carries, all read from the coordinator's
    snapshot. The current date is a parameter. */
module Sensor {
  import opened Wrappers
  import opened PyStr
  import opened ScraperText
  import opened Api
  import opened Homework
  import opened Exams
  import opened Timetable
  import opened Coordinator

  /** The sensor types, in the order `async_setup_entry` creates them. */
  const SensorTypes: seq<string> := ["letters", "unread_letters", "homework", "exams", "appointments", "timetable"]

  /** The attribute names given to the first seven timetable days. */
  const DayNames: seq<string> := ["monday", "tuesday", "wednesday", "thursday", "friday", "saturday", "sunday"]

  lemma DayNamesDistinct()
    ensures forall i, j :: 0 <= i < j < |DayNames| ==> DayNames[i] != DayNames[j]
  {
    assert forall i :: 0 <= i < 7 ==> DayNames[i][..2] == ["mo", "tu", "we", "th", "fr", "sa", "su"][i];
  }

  /** `not self.coordinator.data`: no data yet, or an empty dictionary. */
  predicate NoData(data: Option<Snapshot>)
    ensures NoData(data) <==> data.None? || data.value == EmptySnapshot
  {
    data.None? || Keys(data.value) == {}
  }

  /** A day counts when its lesson list is not empty (Python truthiness). */
  predicate HasLessons(day: seq<Cell>) {
    day != []
  }

  /** The number of days that hold a lesson list, counted one day at a time. */
  function NonEmptyDays(timetable: seq<seq<Cell>>): (r: nat)
    ensures r <= |timetable|
    ensures r == 0 <==> forall i :: 0 <= i < |timetable| ==> timetable[i] == []
    decreases |timetable|
  {
    if timetable == [] then 0
    else NonEmptyDays(timetable[..|timetable| - 1]) + (if timetable[|timetable| - 1] != [] then 1 else 0)
  }

  /** No more days with lessons than days, all of them exactly when none is empty. */
  lemma {:induction false} NonEmptyDaysBounds(timetable: seq<seq<Cell>>)
    ensures NonEmptyDays(timetable) <= |timetable|
    ensures NonEmptyDays(timetable) == |timetable| <==> forall i :: 0 <= i < |timetable| ==> timetable[i] != []
    decreases |timetable|
  {
    if timetable != [] {
      var init := timetable[..|timetable| - 1];
      NonEmptyDaysBounds(init);
      assert forall i :: 0 <= i < |init| ==> init[i] == timetable[i];
    }
  }

  /** The count agrees with the length of `[day for day in timetable if day]`. */
  lemma {:induction false} NonEmptyDaysSelected(timetable: seq<seq<Cell>>)
    ensures NonEmptyDays(timetable) == |Select(timetable, HasLessons)|
    decreases |timetable|
  {
    if timetable != [] {
      NonEmptyDaysSelected(timetable[..|timetable| - 1]);
    }
  }

  /** `native_value`: the state of the sensor of type `sensorType`. */
  function NativeValue(data: Option<Snapshot>, sensorType: string): (r: Option<int>)
    ensures NoData(data) ==> r.None?
    ensures r.Some? <==> !NoData(data) && sensorType in SensorTypes
    ensures r.Some? && sensorType != "letters" && sensorType != "unread_letters" ==> r.value >= 0
    ensures !NoData(data) ==>
              var s := data.value;
              && (sensorType == "letters" ==> r == Some(s.totalCount.GetOr(0)))
              && (sensorType == "unread_letters" ==> r == Some(s.unreadCount.GetOr(0)))
              && (sensorType == "homework" ==> r == Some(|s.homework.GetOr([])|))
              && (sensorType == "exams" ==> r == Some(|s.exams.GetOr([])|))
              && (sensorType == "appointments" ==> r == Some(|s.appointments.GetOr([])|))
              && (sensorType == "timetable" ==> r == Some(|Select(s.timetable.GetOr([]), HasLessons)|))
  {
    if NoData(data) then None
    else
      var s := data.value;
      NonEmptyDaysSelected(s.timetable.GetOr([]));
      if sensorType == "letters" then Some(s.totalCount.GetOr(0))
      else if sensorType == "unread_letters" then Some(s.unreadCount.GetOr(0))
      else if sensorType == "homework" then Some(|s.homework.GetOr([])|)
      else if sensorType == "exams" then Some(|s.exams.GetOr([])|)
      else if sensorType == "appointments" then Some(|s.appointments.GetOr([])|)
      else if sensorType == "timetable" then Some(NonEmptyDays(s.timetable.GetOr([])))
      else None
  }

  /** On a snapshot the coordinator published, the letters sensor shows the number
      of letters, the unread sensor the number of unread ones, never more. */
  lemma NativeValueLetters(s: Snapshot)
    requires CountsConsistent(s)
    ensures NativeValue(Some(s), "letters") == Some(|s.letters.value|)
    ensures NativeValue(Some(s), "unread_letters") == Some(UnreadCount(s.letters.value))
    ensures NativeValue(Some(s), "unread_letters").value <= NativeValue(Some(s), "letters").value
  {
    assert "letters" in Keys(s);
  }

  /** The timetable sensor never shows more days than the timetable has; for a
      scraped week that is at most seven. */
  lemma NativeValueTimetable(s: Snapshot, html: string)
    requires !NoData(Some(s))
    ensures NativeValue(Some(s), "timetable").value <= |s.timetable.GetOr([])|
    ensures s.timetable == Some(Week(html)) ==> NativeValue(Some(s), "timetable").value <= 7
  {
    NonEmptyDaysBounds(s.timetable.GetOr([]));
  }

  /** The order-preserving selection of `xs` by `keep`. */
  function Select<T>(xs: seq<T>, keep: T -> bool): (r: seq<T>)
    ensures |r| <= |xs|
    ensures forall i :: 0 <= i < |r| ==> keep(r[i])
    decreases |xs|
  {
    if xs == [] then []
    else Select(xs[..|xs| - 1], keep) + (if keep(xs[|xs| - 1]) then [xs[|xs| - 1]] else [])
  }

  /** Selection keeps exactly the wanted elements and distributes over
      concatenation, so it keeps their order. */
  lemma {:induction false} SelectSpec<T>(xs: seq<T>, ys: seq<T>, keep: T -> bool, x: T)
    ensures x in Select(xs, keep) <==> x in xs && keep(x)
    ensures Select(xs + ys, keep) == Select(xs, keep) + Select(ys, keep)
    decreases |ys|
  {
    if ys == [] {
      assert xs + ys == xs;
      SelectMember(xs, keep, x);
    } else {
      assert (xs + ys)[..|xs + ys| - 1] == xs + ys[..|ys| - 1];
      SelectSpec(xs, ys[..|ys| - 1], keep, x);
    }
  }

  lemma {:induction false} SelectMember<T>(xs: seq<T>, keep: T -> bool, x: T)
    ensures x in Select(xs, keep) <==> x in xs && keep(x)
    decreases |xs|
  {
    if xs != [] {
      var init := xs[..|xs| - 1];
      SelectMember(init, keep, x);
      assert xs == init + [xs[|xs| - 1]];
    }
  }

  /** `[hw for hw in homework if hw.get("date", "") >= today]`. */
  function UpcomingHomework(homework: seq<HomeworkItem>, today: string): (r: seq<HomeworkItem>)
    ensures |r| <= |homework|
    ensures forall i :: 0 <= i < |r| ==> LexAtLeast(r[i].date, today)
  {
    Select(homework, (hw: HomeworkItem) => LexAtLeast(hw.date, today))
  }

  /** `[exam for exam in exams if exam.get("date", "") >= today]`. */
  function UpcomingExams(exams: seq<ExamItem>, today: string): (r: seq<ExamItem>)
    ensures |r| <= |exams|
    ensures forall i :: 0 <= i < |r| ==> LexAtLeast(r[i].date, today)
  {
    Select(exams, (exam: ExamItem) => LexAtLeast(exam.date, today))
  }

  /** An item is upcoming exactly when its date is not before today in string order;
      an item due today is upcoming, and so is everything when today is "". */
  lemma UpcomingHomeworkSpec(homework: seq<HomeworkItem>, today: string, hw: HomeworkItem)
    ensures hw in UpcomingHomework(homework, today) <==> hw in homework && LexAtLeast(hw.date, today)
    ensures hw in homework && hw.date == today ==> hw in UpcomingHomework(homework, today)
  {
    SelectMember(homework, (hw: HomeworkItem) => LexAtLeast(hw.date, today), hw);
    LexLessIrreflexive(today);
  }

  lemma UpcomingExamsSpec(exams: seq<ExamItem>, today: string, exam: ExamItem)
    ensures exam in UpcomingExams(exams, today) <==> exam in exams && LexAtLeast(exam.date, today)
    ensures exam in exams && exam.date == today ==> exam in UpcomingExams(exams, today)
  {
    SelectMember(exams, (exam: ExamItem) => LexAtLeast(exam.date, today), exam);
    LexLessIrreflexive(today);
  }

  /** A later day selects no more: whatever is upcoming tomorrow is upcoming today. */
  lemma UpcomingHomeworkShrinks(homework: seq<HomeworkItem>, today: string, later: string, hw: HomeworkItem)
    requires LexLess(today, later)
    ensures hw in UpcomingHomework(homework, later) ==> hw in UpcomingHomework(homework, today)
  {
    UpcomingHomeworkSpec(homework, today, hw);
    UpcomingHomeworkSpec(homework, later, hw);
    if hw in UpcomingHomework(homework, later) && LexLess(hw.date, today) {
      LexLessTransitive(hw.date, today, later);
    }
  }

  /** One attribute value. `LastUpdate` stands for the coordinator's time of its
      last successful refresh. */
  datatype Attr =
    | LastUpdate
    | LettersAttr(letters: seq<Letter>)
    | CountAttr(count: int)
    | HomeworkAttr(homework: seq<HomeworkItem>)
    | ExamsAttr(exams: seq<ExamItem>)
    | AppointmentsAttr(appointments: seq<Json>)
    | TimetableAttr(timetable: seq<seq<Cell>>)
    | DayAttr(cells: seq<Cell>)

  /** The day names given to a timetable of `n` days. */
  function DayKeys(n: int): (r: set<string>)
    ensures forall i :: 0 <= i < Min(7, n) ==> DayNames[i] in r
  {
    set i | 0 <= i < Min(7, n) :: DayNames[i]
  }

  /** Counting one more day adds that day's name while there are names left. */
  lemma DayKeysStep(n: nat)
    ensures DayKeys(n + 1) == DayKeys(n) + (if n < 7 then {DayNames[n]} else {})
  {
    if n < 7 {
      assert DayKeys(n + 1) == DayKeys(n) + {DayNames[n]};
    } else {
      assert DayKeys(n + 1) == DayKeys(n);
    }
  }

  /** One pass of the day loop keeps its three invariants: the keys are the base
      keys and the names of the days seen, the base entries are untouched, and each
      named day holds its cells. */
  lemma AddDayStep(base: map<string, Attr>, timetable: seq<seq<Cell>>, i: nat,
                   before: map<string, Attr>, after: map<string, Attr>)
    requires i < |timetable|
    requires forall k :: k in base ==> k !in DayNames
    requires before.Keys == base.Keys + DayKeys(i)
    requires forall k :: k in base ==> before[k] == base[k]
    requires forall k :: 0 <= k < Min(7, i) ==> before[DayNames[k]] == DayAttr(timetable[k])
    requires after == if i < 7 then before[DayNames[i] := DayAttr(timetable[i])] else before
    ensures after.Keys == base.Keys + DayKeys(i + 1)
    ensures forall k :: k in base ==> after[k] == base[k]
    ensures forall k :: 0 <= k < Min(7, i + 1) ==> after[DayNames[k]] == DayAttr(timetable[k])
  {
    DayKeysStep(i);
    if i < 7 {
      DayNamesDistinct();
      var name := DayNames[i];
      assert name !in base;
      assert forall k :: 0 <= k < i ==> DayNames[k] != name;
    }
  }

  /** `extra_state_attributes` with today's `YYYY-MM-DD` string as a parameter. */
  method ExtraStateAttributes(data: Option<Snapshot>, sensorType: string, today: string)
    returns (attributes: map<string, Attr>)
    ensures NoData(data) ==> attributes == map[]
    ensures !NoData(data) ==> "last_update" in attributes && attributes["last_update"] == LastUpdate
    ensures !NoData(data) && sensorType !in {"letters", "homework", "exams", "appointments", "timetable"} ==>
              attributes.Keys == {"last_update"}
    ensures !NoData(data) && sensorType == "letters" ==>
              && attributes.Keys == {"last_update", "letters", "total_count", "unread_count"}
              && attributes["letters"] == LettersAttr(data.value.letters.GetOr([]))
              && attributes["total_count"] == CountAttr(data.value.totalCount.GetOr(0))
              && attributes["unread_count"] == CountAttr(data.value.unreadCount.GetOr(0))
    ensures !NoData(data) && sensorType == "homework" ==>
              var homework := data.value.homework.GetOr([]);
              && attributes.Keys == {"last_update", "homework", "upcoming_homework"}
              && attributes["homework"] == HomeworkAttr(homework)
              && attributes["upcoming_homework"] == HomeworkAttr(UpcomingHomework(homework, today))
    ensures !NoData(data) && sensorType == "exams" ==>
              var exams := data.value.exams.GetOr([]);
              && attributes.Keys == {"last_update", "exams", "upcoming_exams"}
              && attributes["exams"] == ExamsAttr(exams)
              && attributes["upcoming_exams"] == ExamsAttr(UpcomingExams(exams, today))
    ensures !NoData(data) && sensorType == "appointments" ==>
              && attributes.Keys == {"last_update", "appointments"}
              && attributes["appointments"] == AppointmentsAttr(data.value.appointments.GetOr([]))
    ensures !NoData(data) && sensorType == "timetable" ==>
              var timetable := data.value.timetable.GetOr([]);
              && attributes.Keys == {"last_update", "timetable"} + DayKeys(|timetable|)
              && attributes["timetable"] == TimetableAttr(timetable)
              && forall i :: 0 <= i < Min(7, |timetable|) ==> attributes[DayNames[i]] == DayAttr(timetable[i])
  {
    if NoData(data) {
      return map[];
    }
    var s := data.value;
    attributes := map["last_update" := LastUpdate];
    if sensorType == "letters" {
      attributes := attributes["letters" := LettersAttr(s.letters.GetOr([]))];
      attributes := attributes["total_count" := CountAttr(s.totalCount.GetOr(0))];
      attributes := attributes["unread_count" := CountAttr(s.unreadCount.GetOr(0))];
    } else if sensorType == "homework" {
      var homework := s.homework.GetOr([]);
      attributes := attributes["homework" := HomeworkAttr(homework)];
      attributes := attributes["upcoming_homework" := HomeworkAttr(UpcomingHomework(homework, today))];
    } else if sensorType == "exams" {
      var exams := s.exams.GetOr([]);
      attributes := attributes["exams" := ExamsAttr(exams)];
      attributes := attributes["upcoming_exams" := ExamsAttr(UpcomingExams(exams, today))];
    } else if sensorType == "appointments" {
      attributes := attributes["appointments" := AppointmentsAttr(s.appointments.GetOr([]))];
    } else if sensorType == "timetable" {
      var timetable := s.timetable.GetOr([]);
      attributes := attributes["timetable" := TimetableAttr(timetable)];
      if timetable != [] {
        attributes := AddDayAttributes(attributes, timetable);
      }
    }
  }

  /** The day loop of `extra_state_attributes` (sensor.py:136-140): day i of the
      timetable is stored under the name of the i-th weekday, for the first seven. */
  method AddDayAttributes(base: map<string, Attr>, timetable: seq<seq<Cell>>) returns (attributes: map<string, Attr>)
    requires forall k :: k in base ==> k !in DayNames
    ensures attributes.Keys == base.Keys + DayKeys(|timetable|)
    ensures forall k :: k in base ==> attributes[k] == base[k]
    ensures forall i :: 0 <= i < Min(7, |timetable|) ==> attributes[DayNames[i]] == DayAttr(timetable[i])
  {
    attributes := base;
    var i := 0;
    while i < |timetable|
      invariant 0 <= i <= |timetable|
      invariant attributes.Keys == base.Keys + DayKeys(i)
      invariant forall k :: k in base ==> attributes[k] == base[k]
      invariant forall k :: 0 <= k < Min(7, i) ==> attributes[DayNames[k]] == DayAttr(timetable[k])
    {
      ghost var before := attributes;
      if i < |DayNames| {
        attributes := attributes[DayNames[i] := DayAttr(timetable[i])];
      }
      AddDayStep(base, timetable, i, before, attributes);
      i := i + 1;
    }
  }

  /** `async_setup_entry`: the sensor types for which entities are created. */
  method SetupEntities(scrapingEnabled: bool) returns (entities: seq<string>)
    ensures "letters" in entities && "unread_letters" in entities
    ensures forall t :: t in entities ==> t in SensorTypes
    ensures forall t :: t in SensorTypes && t != "letters" && t != "unread_letters" ==> (t in entities <==> scrapingEnabled)
    ensures forall i, j :: 0 <= i < j < |entities| ==> entities[i] != entities[j]
  {
    entities := [];
    entities := entities + ["letters", "unread_letters"];
    if scrapingEnabled {
      entities := entities + ["homework", "exams", "appointments", "timetable"];
    }
  }
}
