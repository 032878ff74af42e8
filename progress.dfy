/**
 * The progress store: a global record of studied hours, covered topics and, per subject,
 * the hours studied against the timetable's target. It is updated in place.
 */
module Progress {
  import opened Wrappers
  import opened Dates
  import opened Timetables

  datatype SubjectProgress = SubjectProgress(hoursStudied: real, totalHours: real, lastUpdated: string)

  /** What a subject starts with: nothing studied, the timetable's target when it is this subject's. */
  function FreshEntry(subject: string, latest: Option<Timetable>): (e: SubjectProgress)
    ensures e.hoursStudied == 0.0 && e.lastUpdated == ""
    ensures latest.Some? && latest.value.subject == subject ==> e.totalHours == latest.value.totalHours
    ensures !(latest.Some? && latest.value.subject == subject) ==> e.totalHours == 0.0
  {
    SubjectProgress(0.0, if latest.Some? && latest.value.subject == subject then latest.value.totalHours else 0.0, "")
  }

  /** The subject map with `subject` added (as a fresh entry) when it is not there yet. */
  function Tracked(subjects: map<string, SubjectProgress>, subject: string, latest: Option<Timetable>): (m: map<string, SubjectProgress>)
    ensures m.Keys == subjects.Keys + {subject}
    ensures forall s :: s in subjects ==> m[s] == subjects[s]
    ensures subject !in subjects ==> m[subject] == FreshEntry(subject, latest)
  {
    if subject in subjects then subjects else subjects[subject := FreshEntry(subject, latest)]
  }

  /** The subject map after `hours` are added to `subject` at time `now`. */
  function Studied(subjects: map<string, SubjectProgress>, subject: string, hours: real, latest: Option<Timetable>, now: string): (m: map<string, SubjectProgress>)
    ensures m.Keys == subjects.Keys + {subject}
    ensures m[subject].hoursStudied == Tracked(subjects, subject, latest)[subject].hoursStudied + hours
    ensures m[subject].totalHours == Tracked(subjects, subject, latest)[subject].totalHours
    ensures m[subject].lastUpdated == now
    ensures forall s :: s in subjects && s != subject ==> m[s] == subjects[s]
  {
    var m := Tracked(subjects, subject, latest);
    m[subject := SubjectProgress(m[subject].hoursStudied + hours, m[subject].totalHours, now)]
  }

  /** 1 when the subject's total after the update equals the hours of this update, else 0. */
  function TopicIncrement(subjects: map<string, SubjectProgress>, subject: string, hours: real, latest: Option<Timetable>, now: string): (n: nat)
    ensures n == 1 <==> (subject !in subjects || subjects[subject].hoursStudied == 0.0)
    ensures n <= 1
  {
    if Studied(subjects, subject, hours, latest, now)[subject].hoursStudied == hours then 1 else 0
  }

  /** No subject has a negative total or more hours than the global total. */
  ghost predicate Bounded(subjects: map<string, SubjectProgress>, total: real) {
    forall s :: s in subjects ==> 0.0 <= subjects[s].hoursStudied <= total
  }

  /** A non-negative update keeps every subject within the new global total. */
  lemma StudiedStaysBounded(subjects: map<string, SubjectProgress>, total: real, subject: string, hours: real, latest: Option<Timetable>, now: string)
    requires Bounded(subjects, total) && 0.0 <= total && 0.0 <= hours
    ensures Bounded(Studied(subjects, subject, hours, latest, now), total + hours)
  {
  }

  /** Once a subject has positive hours, a further update does not count it as a new topic. */
  lemma {:induction false} StudiedOnceCountsOnce(subjects: map<string, SubjectProgress>, subject: string, h1: real, h2: real, latest: Option<Timetable>, t1: string, t2: string)
    requires subject in subjects ==> subjects[subject].hoursStudied >= 0.0
    requires h1 > 0.0
    ensures TopicIncrement(Studied(subjects, subject, h1, latest, t1), subject, h2, latest, t2) == 0
  {
    var m := Studied(subjects, subject, h1, latest, t1);
    assert m[subject].hoursStudied > 0.0;
  }

  /**
   * As written, a 0-hour update does not move the subject off zero, so a 0-hour first update
   * followed by a positive one counts the topic twice.
   */
  lemma {:induction false} ZeroHoursCountTwice(subjects: map<string, SubjectProgress>, subject: string, h: real, latest: Option<Timetable>, t1: string, t2: string)
    requires subject !in subjects
    ensures TopicIncrement(subjects, subject, 0.0, latest, t1) == 1
    ensures TopicIncrement(Studied(subjects, subject, 0.0, latest, t1), subject, h, latest, t2) == 1
  {
    var m := Studied(subjects, subject, 0.0, latest, t1);
    assert m[subject].hoursStudied == 0.0;
  }

  datatype UpdateError = SubjectRequired | NegativeHours

  /** The reply to a successful update: the subject, its new hours and the new global total. */
  datatype Updated = Updated(subject: string, hoursStudied: real, totalHours: real)

  class ProgressStore {
    var totalHours: real
    var topicsCovered: nat
    var dayStreak: nat
    var averageFocus: real
    var subjects: map<string, SubjectProgress>

    /** Totals never go negative and no subject has more hours than the global total. */
    ghost predicate Valid()
      reads this
    {
      0.0 <= totalHours && Bounded(subjects, totalHours)
    }

    /** All counters zero and no subjects. */
    constructor()
      ensures Valid()
      ensures totalHours == 0.0 && topicsCovered == 0 && dayStreak == 0 && averageFocus == 0.0
      ensures subjects == map[]
    {
      totalHours := 0.0;
      topicsCovered := 0;
      dayStreak := 0;
      averageFocus := 0.0;
      subjects := map[];
    }

    /**
     * `get_progress`: the current timetable's subject, if there is a timetable; the subject is
     * added to the map (as a fresh entry) when it is non-empty and not tracked yet. Nothing else changes.
     */
    method GetProgress(latest: Option<Timetable>) returns (current: Option<string>)
      requires Valid()
      modifies this
      ensures Valid()
      ensures current == (if latest.Some? then Some(latest.value.subject) else None)
      ensures subjects == (if latest.Some? && latest.value.subject != "" then Tracked(old(subjects), latest.value.subject, latest) else old(subjects))
      ensures totalHours == old(totalHours) && topicsCovered == old(topicsCovered)
      ensures dayStreak == old(dayStreak) && averageFocus == old(averageFocus)
    {
      current := None;
      if latest.Some? {
        current := Some(latest.value.subject);
        var subject := latest.value.subject;
        if subject != "" && subject !in subjects {
          subjects := subjects[subject := FreshEntry(subject, latest)];
        }
      }
    }

    /**
     * `update_progress` with the clock reading `now`. An empty subject or negative hours are
     * rejected with nothing changed. Otherwise the subject's hours and the global total rise by
     * exactly `hours`, the subject's timestamp becomes `now`, other subjects are unchanged, and
     * the topic count rises by one exactly when the subject had no hours before.
     */
    method UpdateProgress(subject: string, hours: real, latest: Option<Timetable>, now: string) returns (r: Result<Updated, UpdateError>)
      requires Valid()
      modifies this
      ensures Valid()
      ensures subject == "" ==> r == Err(SubjectRequired)
      ensures subject != "" && hours < 0.0 ==> r == Err(NegativeHours)
      ensures r.Err? ==> unchanged(this)
      ensures r.Ok? <==> subject != "" && 0.0 <= hours
      ensures r.Ok? ==>
        subjects == Studied(old(subjects), subject, hours, latest, now)
        && totalHours == old(totalHours) + hours
        && topicsCovered == old(topicsCovered) + TopicIncrement(old(subjects), subject, hours, latest, now)
        && r.value == Updated(subject, subjects[subject].hoursStudied, totalHours)
      ensures r.Ok? ==> subject in old(subjects) ==> subjects[subject].hoursStudied == old(subjects)[subject].hoursStudied + hours
      ensures dayStreak == old(dayStreak) && averageFocus == old(averageFocus)
    {
      if subject == "" {
        return Err(SubjectRequired);
      }
      if hours < 0.0 {
        return Err(NegativeHours);
      }
      StudiedStaysBounded(subjects, totalHours, subject, hours, latest, now);
      if subject !in subjects {
        subjects := subjects[subject := FreshEntry(subject, latest)];
      }
      var entry := subjects[subject];
      subjects := subjects[subject := SubjectProgress(entry.hoursStudied + hours, entry.totalHours, now)];
      totalHours := totalHours + hours;
      if subjects[subject].hoursStudied == hours {
        topicsCovered := topicsCovered + 1;
      }
      r := Ok(Updated(subject, subjects[subject].hoursStudied, totalHours));
    }
  }

  /** Two updates of a new subject, 2 hours then 1.5: 3.5 hours, counted as one topic. */
  method TwoSessions(latest: Option<Timetable>) returns (hours: real, total: real, topics: nat)
    ensures hours == 3.5 && total == 3.5 && topics == 1
  {
    var store := new ProgressStore();
    var a := store.UpdateProgress("Physics", 2.0, latest, "t1");
    var b := store.UpdateProgress("Physics", 1.5, latest, "t2");
    hours := store.subjects["Physics"].hoursStudied;
    total := store.totalHours;
    topics := store.topicsCovered;
  }
}
