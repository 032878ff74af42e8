/**
 * The "study now" recommendation: the time-of-day bucket, the candidate tasks of the
 * structured schedule, the choice of the best one by urgency, priority and hours, the
 * suggested duration and the reason text; and the fallback to the generative model's reply.
 */
module Ranker {
  import opened Wrappers
  import opened Text
  import opened Dates
  import opened Interpret
  import opened Timetables

  datatype TimeOfDay = Morning | Afternoon | Evening | Night

  /** The bucket of an hour: [6,12) morning, [12,17) afternoon, [17,22) evening, otherwise night. */
  function TimeOfDayOf(hour: int): (t: TimeOfDay)
    ensures t == Morning <==> 6 <= hour < 12
    ensures t == Afternoon <==> 12 <= hour < 17
    ensures t == Evening <==> 17 <= hour < 22
    ensures t == Night <==> hour < 6 || 22 <= hour
  {
    if 6 <= hour < 12 then Morning
    else if 12 <= hour < 17 then Afternoon
    else if 17 <= hour < 22 then Evening
    else Night
  }

  /** The most hours suggested for one sitting in each bucket. */
  function Cap(t: TimeOfDay): real {
    match t
    case Morning => 2.0
    case Afternoon => 1.5
    case Evening => 1.0
    case Night => 1.0
  }

  /** A suggested duration: `low-high hours`, or `low hour` at night. */
  datatype Duration = Duration(low: real, high: Option<real>)

  /** `min(hours, cap)` and the upper end the bucket shows: 3, 2, 1.5, or none at night. */
  function SuggestedDuration(t: TimeOfDay, hours: real): (d: Duration)
    ensures d.low <= Cap(t) && d.low <= hours
    ensures d.low == hours || d.low == Cap(t)
    ensures hours <= Cap(t) ==> d.low == hours
    ensures d.high.None? <==> t == Night
    ensures d.high.Some? ==> d.low < d.high.value
    ensures t == Morning ==> d.high == Some(3.0)
    ensures t == Afternoon ==> d.high == Some(2.0)
    ensures t == Evening ==> d.high == Some(1.5)
  {
    var low := if hours <= Cap(t) then hours else Cap(t);
    match t
    case Morning => Duration(low, Some(3.0))
    case Afternoon => Duration(low, Some(2.0))
    case Evening => Duration(low, Some(1.5))
    case Night => Duration(low, None)
  }

  function ReasonExtra(t: TimeOfDay): string {
    match t
    case Morning => "morning study pattern for optimal focus"
    case Afternoon => "afternoon session with good energy levels"
    case Evening => "evening review session"
    case Night => "late night focused work"
  }

  // ---------------------------------------------------------------------------
  // Candidates

  /** A task of a day on or after today, with the fields the ranking reads. */
  datatype Candidate = Candidate(task: string, date: string, hours: real, priority: string, isToday: bool, isTomorrow: bool)

  /** Python's `<` on strings: code point by code point, a proper prefix first. */
  predicate LexLess(a: string, b: string) {
    if a == [] then b != []
    else if b == [] then false
    else if a[0] != b[0] then a[0] < b[0]
    else LexLess(a[1..], b[1..])
  }

  /** `day.get('priority', 'medium')` */
  function PriorityOf(day: Day): string {
    match day.priority
    case Some(p) => p
    case None => "medium"
  }

  /** The candidates one day contributes, in task order. */
  function TasksOf(day: Day, today: string, tomorrow: string): (cs: seq<Candidate>)
    ensures |cs| == |day.tasks|
    ensures forall i :: 0 <= i < |cs| ==>
      cs[i] == Candidate(day.tasks[i], day.date, day.hours, PriorityOf(day), day.date == today, day.date == tomorrow)
  {
    seq(|day.tasks|, i requires 0 <= i < |day.tasks| =>
      Candidate(day.tasks[i], day.date, day.hours, PriorityOf(day), day.date == today, day.date == tomorrow))
  }

  /** A day is kept when its date string is `>= today`. */
  predicate Kept(day: Day, today: string) {
    !LexLess(day.date, today)
  }

  /** The tasks of the kept days, in schedule order. */
  function Candidates(days: seq<Day>, today: string, tomorrow: string): seq<Candidate> {
    if days == [] then []
    else
      var last := days[|days| - 1];
      Candidates(days[..|days| - 1], today, tomorrow) + (if Kept(last, today) then TasksOf(last, today, tomorrow) else [])
  }

  /** The number of tasks of the kept days. */
  function KeptTaskCount(days: seq<Day>, today: string): nat {
    if days == [] then 0
    else
      var last := days[|days| - 1];
      KeptTaskCount(days[..|days| - 1], today) + (if Kept(last, today) then |last.tasks| else 0)
  }

  /**
   * Every candidate comes from a kept day (its date is not before today), is flagged today
   * exactly when its date is today's and tomorrow exactly when it is tomorrow's, and there is
   * one candidate per task of a kept day.
   */
  lemma {:induction false} CandidatesWellFormed(days: seq<Day>, today: string, tomorrow: string)
    ensures |Candidates(days, today, tomorrow)| == KeptTaskCount(days, today)
    ensures forall k :: 0 <= k < |Candidates(days, today, tomorrow)| ==>
      var c := Candidates(days, today, tomorrow)[k];
      !LexLess(c.date, today) && (c.isToday <==> c.date == today) && (c.isTomorrow <==> c.date == tomorrow)
  {
    if days != [] {
      CandidatesWellFormed(days[..|days| - 1], today, tomorrow);
    }
  }

  /**
   * The nested loops that collect `relevant_tasks`: for each day whose date is not before
   * today, each of its tasks in order.
   */
  method CollectCandidates(days: seq<Day>, today: string, tomorrow: string) returns (cs: seq<Candidate>)
    ensures cs == Candidates(days, today, tomorrow)
  {
    cs := [];
    var i := 0;
    while i < |days|
      invariant 0 <= i <= |days|
      invariant cs == Candidates(days[..i], today, tomorrow)
    {
      var day := days[i];
      assert days[..i + 1][..i] == days[..i];
      if !LexLess(day.date, today) {
        var j := 0;
        ghost var before := cs;
        while j < |day.tasks|
          invariant 0 <= j <= |day.tasks|
          invariant cs == before + TasksOf(day, today, tomorrow)[..j]
        {
          cs := cs + [Candidate(day.tasks[j], day.date, day.hours, PriorityOf(day), day.date == today, day.date == tomorrow)];
          assert TasksOf(day, today, tomorrow)[..j + 1] == TasksOf(day, today, tomorrow)[..j] + [TasksOf(day, today, tomorrow)[j]];
          j := j + 1;
        }
        assert TasksOf(day, today, tomorrow)[..j] == TasksOf(day, today, tomorrow);
      }
      i := i + 1;
    }
    assert days[..i] == days;
  }

  // ---------------------------------------------------------------------------
  // Ranking

  /** Today 1, tomorrow 0.5, later 0. */
  function Urgency(c: Candidate): (u: real)
    ensures u == 1.0 <==> c.isToday
    ensures u == 0.5 <==> !c.isToday && c.isTomorrow
    ensures u == 0.0 <==> !c.isToday && !c.isTomorrow
  {
    if c.isToday then 1.0 else if c.isTomorrow then 0.5 else 0.0
  }

  /** `priority_order.get(priority, 2)`: high 3, medium 2, low 1, anything else 2. */
  function Rank(priority: string): (n: int)
    ensures n == 3 <==> priority == "high"
    ensures n == 1 <==> priority == "low"
    ensures n == 2 <==> priority != "high" && priority != "low"
  {
    if priority == "high" then 3 else if priority == "medium" then 2 else if priority == "low" then 1 else 2
  }

  /** The sort key `(urgency, rank, -hours)` of `a` is smaller than that of `b`, compared as tuples. */
  predicate KeyLess(a: Candidate, b: Candidate) {
    Urgency(a) < Urgency(b)
    || (Urgency(a) == Urgency(b) && (Rank(a.priority) < Rank(b.priority)
        || (Rank(a.priority) == Rank(b.priority) && -a.hours < -b.hours)))
  }

  /**
   * The key order is a strict order, and two candidates neither of which is less than the
   * other have the same urgency, the same rank and the same hours.
   */
  lemma KeyLessIsStrictOrder(a: Candidate, b: Candidate, c: Candidate)
    ensures !KeyLess(a, a)
    ensures KeyLess(a, b) ==> !KeyLess(b, a)
    ensures KeyLess(a, b) && KeyLess(b, c) ==> KeyLess(a, c)
    ensures !KeyLess(a, b) && !KeyLess(b, a) ==>
      Urgency(a) == Urgency(b) && Rank(a.priority) == Rank(b.priority) && a.hours == b.hours
  {
  }

  /**
   * The head of the list after a stable sort with `reverse=True`: a candidate with the
   * largest key, and the first one of those, since equal keys keep their order.
   */
  ghost predicate IsBest(cs: seq<Candidate>, k: int) {
    0 <= k < |cs|
    && (forall j :: 0 <= j < |cs| ==> !KeyLess(cs[k], cs[j]))
    && (forall j :: 0 <= j < k ==> KeyLess(cs[j], cs[k]))
  }

  /** Every candidate before the best one has a smaller key. */
  lemma BeforeBestIsLess(cs: seq<Candidate>, i: int, k: int)
    requires IsBest(cs, k) && 0 <= i < k
    ensures KeyLess(cs[i], cs[k])
  {
  }

  /** The candidate chosen is determined: two candidates that both pass as best are the same one. */
  lemma {:induction false} BestIsUnique(cs: seq<Candidate>, k1: int, k2: int)
    requires IsBest(cs, k1) && IsBest(cs, k2)
    ensures k1 == k2
  {
    if k1 < k2 {
      BeforeBestIsLess(cs, k1, k2);
      assert false;
    } else if k2 < k1 {
      BeforeBestIsLess(cs, k2, k1);
      assert false;
    }
  }

  /**
   * The index of `relevant_tasks[0]` after the sort. The chosen task is at least as urgent as
   * every other one, and at equal urgency and priority it has no more hours than any other:
   * with `-hours` in the key and `reverse=True`, fewer hours come first.
   */
  method PickBest(cs: seq<Candidate>) returns (k: int)
    requires |cs| > 0
    ensures IsBest(cs, k)
    ensures forall j :: 0 <= j < |cs| ==> Urgency(cs[j]) <= Urgency(cs[k])
    ensures forall j :: (0 <= j < |cs| && Urgency(cs[j]) == Urgency(cs[k]) && Rank(cs[j].priority) == Rank(cs[k].priority)
                         ==> cs[k].hours <= cs[j].hours)
  {
    k := 0;
    var i := 1;
    while i < |cs|
      invariant 0 <= k < i <= |cs|
      invariant forall j :: 0 <= j < i ==> !KeyLess(cs[k], cs[j])
      invariant forall j :: 0 <= j < k ==> KeyLess(cs[j], cs[k])
    {
      if KeyLess(cs[k], cs[i]) {
        k := i;
      }
      i := i + 1;
    }
  }

  // ---------------------------------------------------------------------------
  // The recommendation

  /** `priority.title() + " priority task"`, the day it is scheduled for, and the bucket's rationale. */
  function ReasonText(c: Candidate, t: TimeOfDay): (r: string)
    ensures |Lead(c.priority)| <= |r| && r[..|Lead(c.priority)|] == Lead(c.priority)
    ensures c.isToday ==> r[|Lead(c.priority)|..] == ", scheduled for today" + Fits(t)
    ensures !c.isToday && c.isTomorrow ==> r[|Lead(c.priority)|..] == ", scheduled for tomorrow" + Fits(t)
    ensures !c.isToday && !c.isTomorrow ==> r[|Lead(c.priority)|..] == Fits(t)
    ensures |Fits(t)| <= |r| && r[|r| - |Fits(t)|..] == Fits(t)
  {
    Pieces(Lead(c.priority), When(c), Fits(t));
    Lead(c.priority) + (When(c) + Fits(t))
  }

  /** The day the task is scheduled for, when it is today or tomorrow. */
  function When(c: Candidate): string {
    if c.isToday then ", scheduled for today" else if c.isTomorrow then ", scheduled for tomorrow" else ""
  }

  /** Where the three pieces of a concatenation sit in it. */
  lemma Pieces(a: string, b: string, c: string)
    ensures (a + (b + c))[..|a|] == a && (a + (b + c))[|a|..] == b + c
    ensures (a + (b + c))[|a + (b + c)| - |c|..] == c
  {
    assert (a + (b + c))[|a + (b + c)| - |c|..] == (b + c)[|b|..];
  }

  /** The opening of every reason: the title-cased priority and " priority task". */
  function Lead(priority: string): (r: string)
    ensures |r| == |priority| + 14 && r[..|priority|] == Title(priority)
  {
    Title(priority) + " priority task"
  }

  /** The closing clause of every reason: the bucket's rationale and a full stop. */
  function Fits(t: TimeOfDay): (r: string)
    ensures |r| > 0 && r[|r| - 1] == '.'
  {
    ", and fits your current " + ReasonExtra(t) + "."
  }

  datatype Recommendation = Recommendation(task: string, reason: string, duration: Duration, subject: string, deadline: string)

  /** A recommendation ranked from the schedule, or read from the generative model's reply. */
  datatype Advice<J> = Ranked(rec: Recommendation) | FromReply(reply: Reply<J>)

  datatype RecommendError = NoTimetable | DateOverflow

  /** The recommendation built from the chosen candidate. */
  function Recommend(c: Candidate, t: TimeOfDay, tt: Timetable): Recommendation {
    Recommendation(c.task, ReasonText(c, t), SuggestedDuration(t, c.hours), tt.subject, tt.deadline)
  }

  /**
   * `get_study_recommendation`, with the clock given as a date and an hour and the model's
   * reply given as text. Without a timetable it fails. With a structured schedule that has
   * candidates, the best one is recommended. Otherwise the reply is interpreted.
   */
  method StudyRecommendation<J>(latest: Option<Timetable>, now: Date, hour: int, reply: string, parse: string -> Option<J>)
    returns (r: Result<Advice<J>, RecommendError>)
    requires ValidDate(now)
    ensures r == Err(NoTimetable) <==> latest.None?
    ensures r == Err(DateOverflow) <==> latest.Some? && latest.value.structured.Some? && NextDay(now).None?
    ensures r.Ok? && r.value.Ranked? ==>
      latest.Some? && latest.value.structured.Some? && NextDay(now).Some?
      && var cs := Candidates(latest.value.structured.value.days, FormatIso(now), FormatIso(NextDay(now).value));
         exists k :: IsBest(cs, k) && r.value.rec == Recommend(cs[k], TimeOfDayOf(hour), latest.value)
    ensures r.Ok? && r.value.FromReply? ==> r.value.reply == ReadReply(reply, parse)
    ensures r.Ok? && r.value.FromReply? ==>
      latest.Some? && (latest.value.structured.Some? ==>
                         (NextDay(now).Some?
                          && Candidates(latest.value.structured.value.days, FormatIso(now), FormatIso(NextDay(now).value)) == []))
  {
    if latest.None? {
      return Err(NoTimetable);
    }
    var tt := latest.value;
    var t := TimeOfDayOf(hour);
    if tt.structured.Some? {
      var next := NextDay(now);
      if next.None? {
        return Err(DateOverflow);
      }
      var cs := CollectCandidates(tt.structured.value.days, FormatIso(now), FormatIso(next.value));
      if |cs| > 0 {
        var k := PickBest(cs);
        return Ok(Ranked(Recommend(cs[k], t, tt)));
      }
    }
    var advice := InterpretReply(reply, parse);
    r := Ok(FromReply(advice));
  }

  /** A task scheduled for today is chosen over one scheduled for tomorrow, whatever their hours. */
  lemma {:induction false} TodayBeatsTomorrow(cs: seq<Candidate>, k: int, j: int)
    requires IsBest(cs, k) && 0 <= j < |cs| && cs[j].isToday
    ensures cs[k].isToday
  {
    assert !KeyLess(cs[k], cs[j]);
  }
}
