/**
 * The current timetable: the checks made before a schedule is asked for, the split of the
 * reply into prose and structured schedule, and the store that keeps only the latest one.
 */
module Timetables {
  import opened Wrappers
  import opened Text
  import opened Dates
  import opened Interpret

  /** One day of the structured schedule. A missing `priority` is `None`; missing `tasks` are `[]`. */
  datatype Day = Day(date: string, hours: real, tasks: seq<string>, priority: Option<string>)

  /** The structured schedule: its `daily_schedule` list (empty when the key is missing). */
  datatype Plan = Plan(days: seq<Day>)

  datatype Timetable = Timetable(
    subject: string,
    deadline: string,
    deadlineDate: Date,
    totalHours: real,
    scheduleText: string,
    structured: Option<Plan>,
    createdAt: string)

  datatype CreateError = MissingFields | InvalidDeadline | DeadlineNotInFuture

  /**
   * The checks made before the generative model is asked: all three fields present (an empty
   * string or a zero target counts as missing), a deadline that parses, and a deadline after today.
   */
  function CheckRequest(deadline: string, subject: string, target: real, later: seq<Parser>, today: Date): (r: Result<Date, CreateError>)
    ensures r == Err(MissingFields) <==> deadline == "" || subject == "" || target == 0.0
    ensures r == Err(InvalidDeadline) <==>
      deadline != "" && subject != "" && target != 0.0 && ParseDeadline(deadline, later).None?
    ensures r.Ok? <==>
      deadline != "" && subject != "" && target != 0.0 && ParseDeadline(deadline, later).Some?
      && Before(today, ParseDeadline(deadline, later).value)
    ensures r.Ok? ==> r.value == ParseDeadline(deadline, later).value
  {
    if deadline == "" || subject == "" || target == 0.0 then Err(MissingFields)
    else
      match ParseDeadline(deadline, later)
      case None => Err(InvalidDeadline)
      case Some(d) => if Before(today, d) then Ok(d) else Err(DeadlineNotInFuture)
  }

  /** The text shown to the user: `*`, then `--`, then `#` removed from the prose. */
  function CleanDisplay(s: string): (r: string)
    ensures '*' !in r && '#' !in r
    ensures forall c :: c in r ==> c in s
    ensures Without(r, {'-'}) == Without(s, {'*', '#', '-'})
  {
    var a := Remove(s, "*");
    var b := Remove(a, "--");
    var r := Remove(b, "#");
    RemoveCharGone(s, '*');
    RemoveCharGone(b, '#');
    RemoveCharKeeps(b, '#', '*');
    RemoveOnlyDeletes(a, "--", '*');
    forall c | c in r ensures c in s {
      RemoveOnlyDeletes(b, "#", c);
      RemoveOnlyDeletes(a, "--", c);
      RemoveOnlyDeletes(s, "*", c);
    }
    RemoveCharIsWithout(s, '*');
    RemoveWithin(a, "--", {'#', '-'});
    RemoveCharIsWithout(b, '#');
    WithoutTwice(b, {'#'}, {'-'});
    WithoutTwice(s, {'*'}, {'#', '-'});
    assert {'#'} + {'-'} == {'#', '-'} && {'*'} + {'#', '-'} == {'*', '#', '-'};
    r
  }

  /** Removing `#` after `--` can bring two dashes together: the shown text may still hold `--`. */
  lemma CleanDisplayKeepsJoinedDashes()
    ensures CleanDisplay("-#-") == "--"
  {
    StartsWithChar("-#-", '*');
    StartsWithChar("#-", '*');
    StartsWithChar("-", '*');
    assert Remove("-#-", "*") == "-#-";
    assert "-#-"[0..2] == "-#" && "#-"[0..2] == "#-";
    assert Remove("-#-", "--") == "-#-";
    StartsWithChar("-#-", '#');
    StartsWithChar("#-", '#');
    StartsWithChar("-", '#');
  }

  /** The latest timetable; creating one replaces it wholesale. */
  class TimetableStore {
    var latest: Option<Timetable>

    constructor ()
      ensures latest == None
    {
      latest := None;
    }

    /**
     * `create_timetable`: on a rejected request nothing changes; otherwise the reply of the
     * generative model (`reply`) is split into prose and structured schedule, the timetable
     * replaces the previous one, and the prose is returned cleaned for display.
     */
    method Create(deadline: string, subject: string, target: real, later: seq<Parser>, today: Date,
                  reply: string, parse: string -> Option<Plan>, createdAt: string)
      returns (r: Result<string, CreateError>)
      modifies this
      ensures var check := CheckRequest(deadline, subject, target, later, today);
        check.Err? ==> r == Err(check.error) && latest == old(latest)
      ensures var check := CheckRequest(deadline, subject, target, later, today);
        var split := SplitMarkers(reply, parse);
        check.Ok? ==>
          r == Ok(CleanDisplay(split.prose))
          && latest == Some(Timetable(subject, deadline, check.value, target, split.prose, split.structured, createdAt))
    {
      var check := CheckRequest(deadline, subject, target, later, today);
      if check.Err? {
        r := Err(check.error);
        return;
      }
      var split := SplitMarkers(reply, parse);
      latest := Some(Timetable(subject, deadline, check.value, target, split.prose, split.structured, createdAt));
      r := Ok(CleanDisplay(split.prose));
    }
  }
}
