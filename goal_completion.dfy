/**
 * `GoalCompletionService`: how well a goal's events have been kept, scored
 * from their feedback against the most points the goal's schedule allows,
 * and whether the goal may now be marked complete.
 *
 * Dates are whole day numbers counted from 1970-01-01 (UTC); timestamps are
 * seconds from the same origin.
 */
module GoalCompletion {
  import opened Wrappers
  import opened Common
  import opened Calendar

  function Abs(a: int): int { if a < 0 then -a else a }

  datatype Feedback = Feedback(status: string, mood: string)

  /**
   * An event's decoded `repeat` column. `durationInWeeks` is 0 when the value
   * is missing or empty.
   */
  datatype Repeat = Repeat(frequency: Option<string>, timesPerWeek: Option<int>, durationInWeeks: nat)

  /** An event; `repeat` is `None` when the column is null or an empty array. */
  datatype Event = Event(scheduledFor: Option<int>, createdAt: int, repeat: Option<Repeat>, feedback: seq<Feedback>)

  datatype Goal = Goal(startDay: int, endDay: int, events: seq<Event>)

  datatype Reason = PointsThreshold | EndDatePassed

  /** The array `compute` returns. */
  datatype Completion = Completion(
    pointsEarned: int,
    maxPossiblePoints: int,
    thresholdPoints: int,
    isCompletable: bool,
    completionReasons: seq<Reason>,
    statusCounts: map<string, int>,
    moodCounts: map<string, int>)

  // ---------------------------------------------------------------------------
  // Scoring feedback
  // ---------------------------------------------------------------------------

  const StatusKeys: seq<string> := ["nailed_it", "completed", "struggled", "partial", "skipped"]
  const MoodKeys: seq<string> := ["happy", "good", "meh", "frustrated"]

  /** `$statusPoints`; a status it does not list adds nothing. */
  function StatusPoints(status: string): (p: int)
    ensures 0 <= p <= 4
    ensures p > 0 ==> status in StatusKeys
  {
    if status == "nailed_it" then 4
    else if status == "completed" then 3
    else if status == "struggled" then 2
    else if status == "partial" then 1
    else 0
  }

  /** The points a run of feedback earns: never more than 4 per entry. */
  function Points(fbs: seq<Feedback>): (p: int)
    ensures 0 <= p <= 4 * |fbs|
  {
    if fbs == [] then 0 else Points(fbs[..|fbs| - 1]) + StatusPoints(fbs[|fbs| - 1].status)
  }

  /** How many entries carry status `k`. */
  function CountStatus(fbs: seq<Feedback>, k: string): (n: nat)
    ensures n <= |fbs|
  {
    if fbs == [] then 0 else CountStatus(fbs[..|fbs| - 1], k) + (if fbs[|fbs| - 1].status == k then 1 else 0)
  }

  /** How many entries carry mood `k`. */
  function CountMood(fbs: seq<Feedback>, k: string): (n: nat)
    ensures n <= |fbs|
  {
    if fbs == [] then 0 else CountMood(fbs[..|fbs| - 1], k) + (if fbs[|fbs| - 1].mood == k then 1 else 0)
  }

  /** The points are the status counts weighted 4, 3, 2, 1 and 0. */
  lemma {:induction false} PointsFromCounts(fbs: seq<Feedback>)
    ensures Points(fbs) == 4 * CountStatus(fbs, "nailed_it") + 3 * CountStatus(fbs, "completed")
                           + 2 * CountStatus(fbs, "struggled") + CountStatus(fbs, "partial")
  {
    if fbs != [] {
      PointsFromCounts(fbs[..|fbs| - 1]);
    }
  }

  lemma PrefixGrows<T>(s: seq<T>, j: int)
    requires 0 <= j < |s|
    ensures s[..j + 1] == s[..j] + [s[j]]
  {
  }

  /** One more to the count of `k`, if `k` is counted at all. */
  function Bump(counts: map<string, int>, k: string): map<string, int>
  {
    if k in counts then counts[k := counts[k] + 1] else counts
  }

  /**
   * The status counts `compute` reports for `fbs`, counted entry by entry:
   * one count per listed status.
   */
  function StatusTally(fbs: seq<Feedback>): (r: map<string, int>)
    ensures r.Keys == ZeroCounts(StatusKeys).Keys
  {
    if fbs == [] then ZeroCounts(StatusKeys) else Bump(StatusTally(fbs[..|fbs| - 1]), fbs[|fbs| - 1].status)
  }

  /**
   * The mood counts `compute` reports for `fbs`, counted entry by entry: one
   * count per listed mood.
   */
  function MoodTally(fbs: seq<Feedback>): (r: map<string, int>)
    ensures r.Keys == ZeroCounts(MoodKeys).Keys
  {
    if fbs == [] then ZeroCounts(MoodKeys) else Bump(MoodTally(fbs[..|fbs| - 1]), fbs[|fbs| - 1].mood)
  }

  /**
   * The tallies hold exactly the listed statuses and moods, each with the
   * number of entries that carry it; unlisted values are dropped.
   */
  lemma {:induction false} TallyCounts(fbs: seq<Feedback>)
    ensures forall k :: k in StatusTally(fbs) <==> k in StatusKeys
    ensures forall k :: k in StatusTally(fbs) ==> StatusTally(fbs)[k] == CountStatus(fbs, k)
    ensures forall k :: k in MoodTally(fbs) <==> k in MoodKeys
    ensures forall k :: k in MoodTally(fbs) ==> MoodTally(fbs)[k] == CountMood(fbs, k)
  {
    if fbs != [] {
      TallyCounts(fbs[..|fbs| - 1]);
    }
  }

  /** One more entry adds its status points, and bumps its status and mood. */
  lemma TallyStep(seen: seq<Feedback>, fb: Feedback)
    ensures Points(seen + [fb]) == Points(seen) + StatusPoints(fb.status)
    ensures StatusTally(seen + [fb]) == Bump(StatusTally(seen), fb.status)
    ensures MoodTally(seen + [fb]) == Bump(MoodTally(seen), fb.mood)
  {
    assert (seen + [fb])[..|seen|] == seen;
  }

  /** `TallyStep` for the entries `seen` followed by the first `j + 1` of `feedback`. */
  lemma TallyPrefixStep(seen: seq<Feedback>, feedback: seq<Feedback>, j: int)
    requires 0 <= j < |feedback|
    ensures Points(seen + feedback[..j + 1]) == Points(seen + feedback[..j]) + StatusPoints(feedback[j].status)
    ensures StatusTally(seen + feedback[..j + 1]) == Bump(StatusTally(seen + feedback[..j]), feedback[j].status)
    ensures MoodTally(seen + feedback[..j + 1]) == Bump(MoodTally(seen + feedback[..j]), feedback[j].mood)
  {
    assert seen + feedback[..j + 1] == (seen + feedback[..j]) + [feedback[j]];
    TallyStep(seen + feedback[..j], feedback[j]);
  }

  /** Every feedback entry of the events, event by event. */
  function AllFeedback(events: seq<Event>): seq<Feedback>
  {
    if events == [] then [] else AllFeedback(events[..|events| - 1]) + events[|events| - 1].feedback
  }

  lemma AllFeedbackStep(events: seq<Event>, i: int)
    requires 0 <= i < |events|
    ensures AllFeedback(events[..i + 1]) == AllFeedback(events[..i]) + events[i].feedback
  {
    assert events[..i + 1][..i] == events[..i];
  }

  /** `array_fill_keys($keys, 0)`. */
  function ZeroCounts(keys: seq<string>): (m: map<string, int>)
    ensures forall k :: k in m <==> k in keys
    ensures forall k :: k in m ==> m[k] == 0
  {
    map k | k in keys :: 0
  }

  // ---------------------------------------------------------------------------
  // Calendar arithmetic
  // ---------------------------------------------------------------------------

  /** `Carbon::parse($t)->startOfDay()`, as a day number: the day that holds `t`. */
  function DayOf(t: int): (d: int)
    ensures SecondsPerDay * d <= t < SecondsPerDay * d + SecondsPerDay
  {
    t / SecondsPerDay
  }

  /** `(int) ceil($a / $b)`: the least whole number of `b`-sized blocks that hold `a`. */
  function CeilDiv(a: int, b: int): (q: int)
    requires b > 0
    ensures b * (q - 1) < a <= b * q
  {
    var f := (-a) / b;
    assert -a == b * f + (-a) % b;
    -f
  }

  // ---------------------------------------------------------------------------
  // Occurrences
  // ---------------------------------------------------------------------------

  /** `scheduled_for ?? created_at`, at the start of its day. */
  function EventStartDay(e: Event): (d: int)
    ensures var t := if e.scheduledFor.Some? then e.scheduledFor.value else e.createdAt;
      SecondsPerDay * d <= t < SecondsPerDay * d + SecondsPerDay
  {
    DayOf(if e.scheduledFor.Some? then e.scheduledFor.value else e.createdAt)
  }

  /**
   * The last day an event runs: the day before its start plus its duration in
   * weeks, or the goal's end when it has no duration.
   */
  function EventEndDay(e: Event, g: Goal): (d: int)
    ensures e.repeat.Some? && e.repeat.value.durationInWeeks != 0 ==>
      |Span(EventStartDay(e), d)| == 7 * e.repeat.value.durationInWeeks
    ensures !(e.repeat.Some? && e.repeat.value.durationInWeeks != 0) ==> d == g.endDay
  {
    if e.repeat.Some? && e.repeat.value.durationInWeeks != 0
    then EventStartDay(e) + 7 * e.repeat.value.durationInWeeks - 1
    else g.endDay
  }

  /** `max(1, (int) (times_per_week ?? 1))`. */
  function TimesPerWeek(r: Repeat): (n: int)
    ensures n >= 1
  {
    Max(1, if r.timesPerWeek.Some? then r.timesPerWeek.value else 1)
  }

  /** `frequency ?? 'weekly'`. */
  function Frequency(r: Repeat): string
  {
    if r.frequency.Some? then r.frequency.value else "weekly"
  }

  /**
   * The `switch` on the frequency, for a repeating event that runs over the
   * days `rangeStart..rangeEnd` of the goal: every such event counts at least
   * once.
   */
  function RepeatOccurrences(r: Repeat, rangeStart: int, rangeEnd: int): (n: int)
    requires rangeStart <= rangeEnd
    ensures n >= 1
  {
    var days := rangeEnd - rangeStart + 1;
    var months := Abs(MonthIndex(rangeEnd) - MonthIndex(rangeStart)) + 1;
    var frequency := Frequency(r);
    if frequency == "daily" then days
    else if frequency == "weekly" then CeilDiv(days, 7) * TimesPerWeek(r)
    else if frequency == "bi-monthly" then CeilDiv(months, 2)
    else if frequency == "monthly" then months
    else CeilDiv(days, 7) * TimesPerWeek(r)
  }

  /** An event that ends before the goal starts or starts after it ends is skipped. */
  predicate OutsideGoal(e: Event, g: Goal)
  {
    EventEndDay(e, g) < g.startDay || EventStartDay(e) > g.endDay
  }

  /** The occurrences one event adds to the goal's total. */
  function Occurrences(e: Event, g: Goal): (n: int)
    requires g.startDay <= g.endDay
    ensures n >= 0
  {
    var eventStart := EventStartDay(e);
    var eventEnd := EventEndDay(e, g);
    if OutsideGoal(e, g) then 0
    else if e.repeat.None? then (if g.startDay <= eventStart <= g.endDay then 1 else 0)
    else RepeatOccurrences(e.repeat.value, Max(eventStart, g.startDay), Min(eventEnd, g.endDay))
  }

  function TotalOccurrences(events: seq<Event>, g: Goal): (n: int)
    requires g.startDay <= g.endDay
    ensures n >= 0
  {
    if events == [] then 0 else TotalOccurrences(events[..|events| - 1], g) + Occurrences(events[|events| - 1], g)
  }

  lemma TotalOccurrencesStep(events: seq<Event>, i: int, g: Goal)
    requires 0 <= i < |events| && g.startDay <= g.endDay
    ensures TotalOccurrences(events[..i + 1], g) == TotalOccurrences(events[..i], g) + Occurrences(events[i], g)
  {
    assert events[..i + 1][..i] == events[..i];
  }

  /** The days on which both the event and the goal run. */
  function OverlapDays(e: Event, g: Goal): set<int>
  {
    Span(EventStartDay(e), EventEndDay(e, g)) * Span(g.startDay, g.endDay)
  }

  /** The overlap is the run from the later start to the earlier end. */
  lemma OverlapIsRange(e: Event, g: Goal)
    requires g.startDay <= g.endDay && !OutsideGoal(e, g)
    ensures Max(EventStartDay(e), g.startDay) <= Min(EventEndDay(e, g), g.endDay)
    ensures OverlapDays(e, g) == Span(Max(EventStartDay(e), g.startDay), Min(EventEndDay(e, g), g.endDay))
    ensures |OverlapDays(e, g)| == Min(EventEndDay(e, g), g.endDay) - Max(EventStartDay(e), g.startDay) + 1
  {
    SpansIntersect(EventStartDay(e), EventEndDay(e, g), g.startDay, g.endDay);
  }

  /** A skipped event shares no day with the goal and adds nothing. */
  lemma OutsideGoalAddsNothing(e: Event, g: Goal)
    requires g.startDay <= g.endDay && OutsideGoal(e, g)
    ensures Occurrences(e, g) == 0
    ensures OverlapDays(e, g) == {}
  {
  }

  /** A repeating event counts exactly when it shares a day with the goal. */
  lemma RepeatingCountsIffOverlap(e: Event, g: Goal)
    requires g.startDay <= g.endDay && e.repeat.Some?
    ensures Occurrences(e, g) > 0 <==> OverlapDays(e, g) != {}
  {
    if !OutsideGoal(e, g) {
      OverlapIsRange(e, g);
      assert Max(EventStartDay(e), g.startDay) in OverlapDays(e, g);
    }
  }

  /** A one-off event counts once when it starts within the goal, and not otherwise. */
  lemma OneOffCountsOnceInWindow(e: Event, g: Goal)
    requires g.startDay <= g.endDay && e.repeat.None?
    ensures Occurrences(e, g) == if g.startDay <= EventStartDay(e) <= g.endDay then 1 else 0
  {
  }

  /** A daily event counts once per day it shares with the goal. */
  lemma DailyCountsEachOverlapDay(e: Event, g: Goal)
    requires g.startDay <= g.endDay && e.repeat.Some? && Frequency(e.repeat.value) == "daily"
    ensures Occurrences(e, g) == |OverlapDays(e, g)|
  {
    if !OutsideGoal(e, g) {
      OverlapIsRange(e, g);
    }
  }

  /** Whole weeks needed to hold `days` days, by repeated subtraction. */
  function WeeksToCover(days: int): (w: nat)
    decreases days
  {
    if days <= 0 then 0 else 1 + WeeksToCover(days - 7)
  }

  lemma {:induction false} CeilDivIsWeeksToCover(days: int)
    requires days >= 0
    ensures CeilDiv(days, 7) == WeeksToCover(days)
    decreases days
  {
    if days > 0 {
      CeilDivIsWeeksToCover(Max(0, days - 7));
      if days - 7 < 0 {
        assert WeeksToCover(days - 7) == 0;
      }
    }
  }

  /**
   * A weekly event, or one whose frequency the switch does not know, counts
   * `times_per_week` occurrences for every week, whole or begun, of its
   * overlap with the goal.
   */
  lemma WeeklyCountsPerWeekBegun(e: Event, g: Goal)
    requires g.startDay <= g.endDay && e.repeat.Some? && !OutsideGoal(e, g)
    requires Frequency(e.repeat.value) !in {"daily", "bi-monthly", "monthly"}
    ensures Occurrences(e, g) == WeeksToCover(|OverlapDays(e, g)|) * TimesPerWeek(e.repeat.value)
  {
    OverlapIsRange(e, g);
    CeilDivIsWeeksToCover(|OverlapDays(e, g)|);
  }

  /**
   * For the same event and goal, the bi-monthly count is half the monthly
   * count, rounded up.
   */
  lemma BiMonthlyIsHalfOfMonthly(e: Event, g: Goal, r: Repeat)
    requires g.startDay <= g.endDay && e.repeat.Some? && !OutsideGoal(e, g)
    requires Frequency(e.repeat.value) == "bi-monthly"
    requires r == e.repeat.value.(frequency := Some("monthly"))
    ensures Occurrences(e, g) == CeilDiv(Occurrences(e.(repeat := Some(r)), g), 2)
  {
  }

  /** A monthly event counts once for every calendar month its overlap with the goal touches. */
  lemma MonthlyCountsEachMonthTouched(e: Event, g: Goal)
    requires g.startDay <= g.endDay && e.repeat.Some? && Frequency(e.repeat.value) == "monthly"
    ensures Occurrences(e, g) == |MonthsTouched(OverlapDays(e, g))|
  {
    OverlapMonthCount(e, g);
  }

  /** A bi-monthly event counts once for every two months its overlap touches, rounded up. */
  lemma BiMonthlyCountsEveryOtherMonthTouched(e: Event, g: Goal)
    requires g.startDay <= g.endDay && e.repeat.Some? && Frequency(e.repeat.value) == "bi-monthly"
    ensures Occurrences(e, g) == CeilDiv(|MonthsTouched(OverlapDays(e, g))|, 2)
  {
    OverlapMonthCount(e, g);
  }

  /**
   * The month count of the switch, `startOfMonth()->diffInMonths(...) + 1`
   * over the overlap, is the number of months the overlap touches.
   */
  lemma OverlapMonthCount(e: Event, g: Goal)
    requires g.startDay <= g.endDay
    ensures OutsideGoal(e, g) ==> MonthsTouched(OverlapDays(e, g)) == {}
    ensures !OutsideGoal(e, g) ==>
      var lo, hi := Max(EventStartDay(e), g.startDay), Min(EventEndDay(e, g), g.endDay);
      |MonthsTouched(OverlapDays(e, g))| == Abs(MonthIndex(hi) - MonthIndex(lo)) + 1
  {
    if OutsideGoal(e, g) {
      OutsideGoalAddsNothing(e, g);
      assert MonthsTouched({}) == {};
    } else {
      OverlapIsRange(e, g);
      var lo, hi := Max(EventStartDay(e), g.startDay), Min(EventEndDay(e, g), g.endDay);
      MonthsOfSpan(lo, hi);
      MonthIndexMonotone(lo, hi);
    }
  }

  // ---------------------------------------------------------------------------
  // Threshold and completion
  // ---------------------------------------------------------------------------

  /** `(int) ceil($maxPossiblePoints * 0.75)`. */
  function ThresholdPoints(maxPoints: int): (t: int)
    ensures 4 * (t - 1) < 3 * maxPoints <= 4 * t
  {
    CeilDiv(3 * maxPoints, 4)
  }

  /** With 4 points per occurrence the threshold is exactly 3 points per occurrence. */
  lemma ThresholdOfMaxPoints(occurrences: nat)
    ensures ThresholdPoints(4 * occurrences) == 3 * occurrences
    ensures occurrences == 0 ==> ThresholdPoints(0) == 0
  {
  }

  /** `Carbon::now()` is on or after the day after the goal's end date. */
  predicate EndDatePassedAt(g: Goal, now: int)
  {
    now >= (g.endDay + 1) * SecondsPerDay
  }

  /** The reasons, points first. */
  function Reasons(pointsEarned: int, thresholdPoints: int, endDatePassed: bool): (rs: seq<Reason>)
    ensures PointsThreshold in rs <==> pointsEarned >= thresholdPoints
    ensures EndDatePassed in rs <==> endDatePassed
    ensures |rs| <= 2 && (|rs| == 2 ==> rs == [PointsThreshold, EndDatePassed])
  {
    (if pointsEarned >= thresholdPoints then [PointsThreshold] else [])
    + (if endDatePassed then [EndDatePassed] else [])
  }

  /**
   * A goal is completable once its feedback earns three points per scheduled
   * occurrence, or once its end date is over.
   */
  lemma CompletableWhenThreeQuartersOrOver(g: Goal, now: int)
    requires g.startDay <= g.endDay
    ensures var points := Points(AllFeedback(g.events));
      var threshold := ThresholdPoints(4 * TotalOccurrences(g.events, g));
      (Reasons(points, threshold, EndDatePassedAt(g, now)) != []
       <==> points >= 3 * TotalOccurrences(g.events, g) || EndDatePassedAt(g, now))
  {
    ThresholdOfMaxPoints(TotalOccurrences(g.events, g));
  }

  // ---------------------------------------------------------------------------
  // The service
  // ---------------------------------------------------------------------------

  /**
   * `calculateMaxPossiblePoints`: 4 points for every occurrence of every
   * event within the goal's dates.
   */
  method CalculateMaxPossiblePoints(goal: Goal) returns (maxPoints: int)
    requires goal.startDay <= goal.endDay
    ensures maxPoints == 4 * TotalOccurrences(goal.events, goal)
    ensures maxPoints >= 0 && maxPoints % 4 == 0
  {
    var totalOccurrences := 0;
    for i := 0 to |goal.events|
      invariant totalOccurrences == TotalOccurrences(goal.events[..i], goal)
    {
      var occurrences := EventOccurrences(goal.events[i], goal);
      TotalOccurrencesStep(goal.events, i, goal);
      totalOccurrences := totalOccurrences + occurrences;
    }
    assert goal.events[..|goal.events|] == goal.events;
    maxPoints := totalOccurrences * 4;
  }

  /** One pass of the loop of `calculateMaxPossiblePoints`: the occurrences one event adds. */
  method EventOccurrences(event: Event, goal: Goal) returns (n: int)
    requires goal.startDay <= goal.endDay
    ensures n == Occurrences(event, goal)
  {
    var eventStart := EventStartDay(event);
    var eventEnd := goal.endDay;
    if event.repeat.Some? && event.repeat.value.durationInWeeks != 0 {
      eventEnd := eventStart + 7 * event.repeat.value.durationInWeeks - 1;
    }
    assert eventEnd == EventEndDay(event, goal);
    if eventEnd < goal.startDay || eventStart > goal.endDay {
      return 0;
    }
    var rangeStart := if eventStart < goal.startDay then goal.startDay else eventStart;
    var rangeEnd := if eventEnd > goal.endDay then goal.endDay else eventEnd;
    assert rangeStart == Max(eventStart, goal.startDay) && rangeEnd == Min(eventEnd, goal.endDay);
    if event.repeat.None? {
      n := if goal.startDay <= eventStart <= goal.endDay then 1 else 0;
      return;
    }
    n := RepeatOccurrences(event.repeat.value, rangeStart, rangeEnd);
  }

  /**
   * The two nested loops of `compute` over every event's feedback: the points
   * earned, and the count of every listed status and mood (others are not
   * counted).
   */
  method Tally(events: seq<Event>) returns (pointsEarned: int, statusCounts: map<string, int>, moodCounts: map<string, int>)
    ensures pointsEarned == Points(AllFeedback(events))
    ensures statusCounts == StatusTally(AllFeedback(events))
    ensures moodCounts == MoodTally(AllFeedback(events))
  {
    statusCounts := ZeroCounts(StatusKeys);
    moodCounts := ZeroCounts(MoodKeys);
    pointsEarned := 0;
    for i := 0 to |events|
      invariant pointsEarned == Points(AllFeedback(events[..i]))
      invariant statusCounts == StatusTally(AllFeedback(events[..i]))
      invariant moodCounts == MoodTally(AllFeedback(events[..i]))
    {
      AllFeedbackStep(events, i);
      pointsEarned, statusCounts, moodCounts :=
        TallyFeedback(events[i].feedback, AllFeedback(events[..i]), pointsEarned, statusCounts, moodCounts);
    }
    assert events[..|events|] == events;
  }

  /** The inner loop: one event's feedback added to the counts of everything `seen` before it. */
  method TallyFeedback(feedback: seq<Feedback>, ghost seen: seq<Feedback>,
                       points0: int, statusCounts0: map<string, int>, moodCounts0: map<string, int>)
    returns (pointsEarned: int, statusCounts: map<string, int>, moodCounts: map<string, int>)
    requires points0 == Points(seen) && statusCounts0 == StatusTally(seen) && moodCounts0 == MoodTally(seen)
    ensures pointsEarned == Points(seen + feedback)
    ensures statusCounts == StatusTally(seen + feedback)
    ensures moodCounts == MoodTally(seen + feedback)
  {
    pointsEarned, statusCounts, moodCounts := points0, statusCounts0, moodCounts0;
    assert seen + feedback[..0] == seen;
    for j := 0 to |feedback|
      invariant pointsEarned == Points(seen + feedback[..j])
      invariant statusCounts == StatusTally(seen + feedback[..j])
      invariant moodCounts == MoodTally(seen + feedback[..j])
    {
      TallyPrefixStep(seen, feedback, j);
      var status := feedback[j].status;
      pointsEarned := pointsEarned + StatusPoints(status);
      statusCounts := Bump(statusCounts, status);
      moodCounts := Bump(moodCounts, feedback[j].mood);
    }
    assert feedback[..|feedback|] == feedback;
  }

  /**
   * `compute`: the points the feedback earns, the counts of each listed
   * status and mood, the maximum and the threshold, and the reasons the goal
   * may be completed, points first.
   */
  method Compute(goal: Goal, now: int) returns (r: Completion)
    requires goal.startDay <= goal.endDay
    ensures r.pointsEarned == Points(AllFeedback(goal.events))
    ensures forall k :: k in r.statusCounts <==> k in StatusKeys
    ensures forall k :: k in r.statusCounts ==> r.statusCounts[k] == CountStatus(AllFeedback(goal.events), k)
    ensures forall k :: k in r.moodCounts <==> k in MoodKeys
    ensures forall k :: k in r.moodCounts ==> r.moodCounts[k] == CountMood(AllFeedback(goal.events), k)
    ensures r.maxPossiblePoints == 4 * TotalOccurrences(goal.events, goal)
    ensures r.thresholdPoints == 3 * TotalOccurrences(goal.events, goal)
    ensures r.completionReasons == Reasons(r.pointsEarned, r.thresholdPoints, EndDatePassedAt(goal, now))
    ensures r.isCompletable <==> r.pointsEarned >= r.thresholdPoints || EndDatePassedAt(goal, now)
  {
    var pointsEarned, statusCounts, moodCounts := Tally(goal.events);
    TallyCounts(AllFeedback(goal.events));

    var maxPossiblePoints := CalculateMaxPossiblePoints(goal);
    var thresholdPoints := ThresholdPoints(maxPossiblePoints);
    ThresholdOfMaxPoints(TotalOccurrences(goal.events, goal));

    var completionReasons: seq<Reason> := [];
    if pointsEarned >= thresholdPoints {
      completionReasons := completionReasons + [PointsThreshold];
    }
    var endDatePassed := now >= (goal.endDay + 1) * SecondsPerDay;
    if endDatePassed {
      completionReasons := completionReasons + [EndDatePassed];
    }

    r := Completion(pointsEarned, maxPossiblePoints, thresholdPoints, |completionReasons| > 0,
                    completionReasons, statusCounts, moodCounts);
  }
}
