/**
 * Scoring a submitted quiz: answers are compared position by position, ignoring case;
 * correct and total answers are tallied per topic and per difficulty in first-seen order;
 * topics are classified as strong or weak; and the feedback lines are built.
 */
module Scoring {
  import opened Wrappers
  import opened Text

  /** A question as the generative model returned it; a missing key is `None`. */
  datatype Question = Question(
    text: Option<string>,
    options: Option<seq<string>>,
    correctAnswer: Option<string>,
    topic: Option<string>,
    difficulty: Option<string>)

  /** Every question has a `correct_answer`. */
  predicate AllAnswered(qs: seq<Question>) {
    forall i :: 0 <= i < |qs| ==> qs[i].correctAnswer.Some?
  }

  /** The answer matches the correct one once both are upper-cased. */
  predicate Hit(q: Question, answer: string)
    requires q.correctAnswer.Some?
  {
    Upper(answer) == Upper(q.correctAnswer.value)
  }

  /** The number of positions whose answer is a hit. */
  function CountCorrect(qs: seq<Question>, answers: seq<string>): (n: nat)
    requires |qs| == |answers| && AllAnswered(qs)
    ensures n <= |qs|
  {
    if qs == [] then 0
    else
      var k := |qs| - 1;
      CountCorrect(qs[..k], answers[..k]) + (if Hit(qs[k], answers[k]) then 1 else 0)
  }

  /** The positions whose answer is a hit. */
  ghost function HitPositions(qs: seq<Question>, answers: seq<string>): set<int>
    requires |qs| == |answers| && AllAnswered(qs)
  {
    set i | 0 <= i < |qs| && Hit(qs[i], answers[i])
  }

  /** `correct_answers` is the number of positions where the upper-cased answers agree. */
  lemma {:induction false} CountCorrectCountsHits(qs: seq<Question>, answers: seq<string>)
    requires |qs| == |answers| && AllAnswered(qs)
    ensures CountCorrect(qs, answers) == |HitPositions(qs, answers)|
  {
    if qs != [] {
      var k := |qs| - 1;
      CountCorrectCountsHits(qs[..k], answers[..k]);
      var front := HitPositions(qs[..k], answers[..k]);
      assert HitPositions(qs, answers) == front + (if Hit(qs[k], answers[k]) then {k} else {});
    }
  }

  // ---------------------------------------------------------------------------
  // Tallies

  /** One row of `topic_performance` or `difficulty_performance`. */
  datatype Entry = Entry(key: string, correct: nat, total: nat)

  /** Which key a question is tallied under. */
  datatype Facet = ByTopic | ByDifficulty

  /** `question.get('topic', 'General')` or `question.get('difficulty', 'medium')`. */
  function KeyOf(q: Question, facet: Facet): string {
    match facet
    case ByTopic => (match q.topic case Some(t) => t case None => "General")
    case ByDifficulty => (match q.difficulty case Some(d) => d case None => "medium")
  }

  /** One more question under `key`: its row's total rises by one and its correct count on a hit. */
  function Bump(t: seq<Entry>, key: string, hit: bool): seq<Entry> {
    if t == [] then [Entry(key, if hit then 1 else 0, 1)]
    else if t[0].key == key then [Entry(key, t[0].correct + (if hit then 1 else 0), t[0].total + 1)] + t[1..]
    else [t[0]] + Bump(t[1..], key, hit)
  }

  function SumTotal(t: seq<Entry>): nat {
    if t == [] then 0 else t[0].total + SumTotal(t[1..])
  }

  function SumCorrect(t: seq<Entry>): nat {
    if t == [] then 0 else t[0].correct + SumCorrect(t[1..])
  }

  function KeySet(t: seq<Entry>): set<string> {
    if t == [] then {} else {t[0].key} + KeySet(t[1..])
  }

  /** Each row has at least one question and no more correct answers than questions. */
  predicate WellCounted(t: seq<Entry>) {
    forall i :: 0 <= i < |t| ==> 1 <= t[i].total && t[i].correct <= t[i].total
  }

  /** No key has two rows. */
  predicate DistinctKeys(t: seq<Entry>) {
    t == [] || (t[0].key !in KeySet(t[1..]) && DistinctKeys(t[1..]))
  }

  lemma {:induction false} BumpCounts(t: seq<Entry>, key: string, hit: bool)
    ensures SumTotal(Bump(t, key, hit)) == SumTotal(t) + 1
    ensures SumCorrect(Bump(t, key, hit)) == SumCorrect(t) + (if hit then 1 else 0)
    ensures KeySet(Bump(t, key, hit)) == KeySet(t) + {key}
    ensures WellCounted(t) ==> WellCounted(Bump(t, key, hit))
    ensures DistinctKeys(t) ==> DistinctKeys(Bump(t, key, hit))
  {
    if t != [] && t[0].key != key {
      BumpCounts(t[1..], key, hit);
      var b := Bump(t, key, hit);
      assert b[1..] == Bump(t[1..], key, hit);
      if WellCounted(t) {
        assert WellCounted(t[1..]) by {
          forall i | 0 <= i < |t[1..]| ensures 1 <= t[1..][i].total && t[1..][i].correct <= t[1..][i].total {
            assert t[1..][i] == t[i + 1];
          }
        }
        forall i | 0 <= i < |b| ensures 1 <= b[i].total && b[i].correct <= b[i].total {
          if i > 0 { assert b[i] == b[1..][i - 1]; }
        }
      }
    } else if t != [] {
      var b := Bump(t, key, hit);
      assert b[1..] == t[1..];
      if WellCounted(t) {
        forall i | 0 <= i < |b| ensures 1 <= b[i].total && b[i].correct <= b[i].total {
          if i > 0 { assert b[i] == t[i]; }
        }
      }
    }
  }

  /** The rows after tallying the questions in order under `facet`. */
  function Tally(qs: seq<Question>, answers: seq<string>, facet: Facet): seq<Entry>
    requires |qs| == |answers| && AllAnswered(qs)
  {
    if qs == [] then []
    else
      var k := |qs| - 1;
      Bump(Tally(qs[..k], answers[..k], facet), KeyOf(qs[k], facet), Hit(qs[k], answers[k]))
  }

  /** The keys the questions are tallied under. */
  function KeysOf(qs: seq<Question>, facet: Facet): set<string> {
    if qs == [] then {} else KeysOf(qs[..|qs| - 1], facet) + {KeyOf(qs[|qs| - 1], facet)}
  }

  /**
   * The totals of a tally add up to the number of questions and its correct counts to the
   * number of correct answers; each row has correct <= total; there is one row per key used.
   */
  lemma {:induction false} TallyCounts(qs: seq<Question>, answers: seq<string>, facet: Facet)
    requires |qs| == |answers| && AllAnswered(qs)
    ensures SumTotal(Tally(qs, answers, facet)) == |qs|
    ensures SumCorrect(Tally(qs, answers, facet)) == CountCorrect(qs, answers)
    ensures WellCounted(Tally(qs, answers, facet))
    ensures DistinctKeys(Tally(qs, answers, facet))
    ensures KeySet(Tally(qs, answers, facet)) == KeysOf(qs, facet)
  {
    if qs != [] {
      var k := |qs| - 1;
      TallyCounts(qs[..k], answers[..k], facet);
      BumpCounts(Tally(qs[..k], answers[..k], facet), KeyOf(qs[k], facet), Hit(qs[k], answers[k]));
    }
  }

  /** The questions tallied under `key`. */
  function CountKey(qs: seq<Question>, facet: Facet, key: string): nat {
    if qs == [] then 0
    else CountKey(qs[..|qs| - 1], facet, key) + (if KeyOf(qs[|qs| - 1], facet) == key then 1 else 0)
  }

  /** The correctly answered questions tallied under `key`. */
  function CorrectKey(qs: seq<Question>, answers: seq<string>, facet: Facet, key: string): nat
    requires |qs| == |answers| && AllAnswered(qs)
  {
    if qs == [] then 0
    else
      var k := |qs| - 1;
      CorrectKey(qs[..k], answers[..k], facet, key) + (if KeyOf(qs[k], facet) == key && Hit(qs[k], answers[k]) then 1 else 0)
  }

  /** The total of the rows for `key`; with one row per key, that row's total. */
  function TotalFor(t: seq<Entry>, key: string): nat {
    if t == [] then 0 else (if t[0].key == key then t[0].total else 0) + TotalFor(t[1..], key)
  }

  /** The correct count of the rows for `key`; with one row per key, that row's count. */
  function CorrectFor(t: seq<Entry>, key: string): nat {
    if t == [] then 0 else (if t[0].key == key then t[0].correct else 0) + CorrectFor(t[1..], key)
  }

  /** A bump adds one question, and one hit when it is one, to the row of its key and to no other. */
  lemma {:induction false} BumpPerKey(t: seq<Entry>, key: string, hit: bool, other: string)
    ensures TotalFor(Bump(t, key, hit), other) == TotalFor(t, other) + (if other == key then 1 else 0)
    ensures CorrectFor(Bump(t, key, hit), other) == CorrectFor(t, other) + (if other == key && hit then 1 else 0)
  {
    if t != [] && t[0].key != key {
      BumpPerKey(t[1..], key, hit, other);
      assert Bump(t, key, hit)[1..] == Bump(t[1..], key, hit);
    } else if t != [] {
      assert Bump(t, key, hit)[1..] == t[1..];
    }
  }

  /** For every key, the tally's rows for it count its questions and its correct answers. */
  lemma {:induction false} TallyPerKey(qs: seq<Question>, answers: seq<string>, facet: Facet, key: string)
    requires |qs| == |answers| && AllAnswered(qs)
    ensures TotalFor(Tally(qs, answers, facet), key) == CountKey(qs, facet, key)
    ensures CorrectFor(Tally(qs, answers, facet), key) == CorrectKey(qs, answers, facet, key)
  {
    if qs != [] {
      var k := |qs| - 1;
      TallyPerKey(qs[..k], answers[..k], facet, key);
      BumpPerKey(Tally(qs[..k], answers[..k], facet), KeyOf(qs[k], facet), Hit(qs[k], answers[k]), key);
    }
  }

  /** With one row per key, a row's counts are the counts for its key. */
  lemma {:induction false} RowIsItsKey(t: seq<Entry>, i: int)
    requires DistinctKeys(t) && 0 <= i < |t|
    ensures t[i].total == TotalFor(t, t[i].key) && t[i].correct == CorrectFor(t, t[i].key)
  {
    if i == 0 {
      AbsentKey(t[1..], t[0].key);
    } else {
      RowIsItsKey(t[1..], i - 1);
      assert t[1..][i - 1] == t[i];
      assert t[i].key in KeySet(t[1..]) by { KeyInSet(t[1..], i - 1); }
    }
  }

  /** A key with no row counts nothing. */
  lemma {:induction false} AbsentKey(t: seq<Entry>, key: string)
    requires key !in KeySet(t)
    ensures TotalFor(t, key) == 0 && CorrectFor(t, key) == 0
  {
    if t != [] {
      AbsentKey(t[1..], key);
    }
  }

  /**
   * Each row of a tally holds exactly the number of questions tallied under its key and
   * the number of those answered correctly.
   */
  lemma TallyRows(qs: seq<Question>, answers: seq<string>, facet: Facet, i: int)
    requires |qs| == |answers| && AllAnswered(qs)
    requires 0 <= i < |Tally(qs, answers, facet)|
    ensures Tally(qs, answers, facet)[i].total == CountKey(qs, facet, Tally(qs, answers, facet)[i].key)
    ensures Tally(qs, answers, facet)[i].correct == CorrectKey(qs, answers, facet, Tally(qs, answers, facet)[i].key)
  {
    var t := Tally(qs, answers, facet);
    TallyCounts(qs, answers, facet);
    RowIsItsKey(t, i);
    TallyPerKey(qs, answers, facet, t[i].key);
  }

  // ---------------------------------------------------------------------------
  // Classification

  /** At least 80 per cent correct. */
  predicate IsStrong(e: Entry) {
    e.correct * 100 >= 80 * e.total
  }

  /** At most 50 per cent correct. */
  predicate IsWeak(e: Entry) {
    e.correct * 100 <= 50 * e.total
  }

  /** The strong topics, in row order. */
  function Strong(t: seq<Entry>): seq<string> {
    if t == [] then [] else (if IsStrong(t[0]) then [t[0].key] else []) + Strong(t[1..])
  }

  /** The weak topics, in row order: at most 50 per cent and not strong (the `elif`). */
  function Weak(t: seq<Entry>): seq<string> {
    if t == [] then [] else (if !IsStrong(t[0]) && IsWeak(t[0]) then [t[0].key] else []) + Weak(t[1..])
  }

  /**
   * In a tally with one row per key, a key is strong exactly when its row reaches 80 per cent,
   * weak exactly when its row is at most 50 per cent, and the two lists only name rows' keys.
   */
  lemma {:induction false} Classified(t: seq<Entry>)
    requires WellCounted(t) && DistinctKeys(t)
    ensures forall k :: k in Strong(t) ==> k in KeySet(t)
    ensures forall k :: k in Weak(t) ==> k in KeySet(t)
    ensures forall i :: 0 <= i < |t| ==> (t[i].key in Strong(t) <==> IsStrong(t[i]))
    ensures forall i :: 0 <= i < |t| ==> (t[i].key in Weak(t) <==> IsWeak(t[i]))
  {
    if t != [] {
      var rest := t[1..];
      assert WellCounted(rest) by {
        forall i | 0 <= i < |rest| ensures 1 <= rest[i].total && rest[i].correct <= rest[i].total {
          assert rest[i] == t[i + 1];
        }
      }
      Classified(rest);
      forall i | 0 <= i < |t|
        ensures (t[i].key in Strong(t) <==> IsStrong(t[i]))
        ensures (t[i].key in Weak(t) <==> IsWeak(t[i]))
      {
        if i > 0 {
          assert t[i] == rest[i - 1];
          assert t[i].key in KeySet(rest) by { KeyInSet(rest, i - 1); }
        }
      }
    }
  }

  lemma {:induction false} KeyInSet(t: seq<Entry>, i: int)
    requires 0 <= i < |t|
    ensures t[i].key in KeySet(t)
  {
    if i > 0 {
      KeyInSet(t[1..], i - 1);
    }
  }

  /** No topic is both strong and weak. */
  lemma NeverBoth(t: seq<Entry>)
    requires WellCounted(t) && DistinctKeys(t)
    ensures forall k :: !(k in Strong(t) && k in Weak(t))
  {
    Classified(t);
    forall k | k in Strong(t) ensures k !in Weak(t) {
      var i := KeyIndex(t, k);
      assert IsStrong(t[i]);
    }
  }

  /** The row of a key in the tally. */
  lemma {:induction false} KeyIndexExists(t: seq<Entry>, k: string)
    requires k in KeySet(t)
    ensures exists i :: 0 <= i < |t| && t[i].key == k
  {
    if t[0].key != k {
      KeyIndexExists(t[1..], k);
      var i :| 0 <= i < |t[1..]| && t[1..][i].key == k;
      assert t[i + 1].key == k;
    }
  }

  ghost function KeyIndex(t: seq<Entry>, k: string): (i: int)
    requires k in KeySet(t)
    ensures 0 <= i < |t| && t[i].key == k
  {
    KeyIndexExists(t, k);
    var i :| 0 <= i < |t| && t[i].key == k; i
  }

  // ---------------------------------------------------------------------------
  // Feedback

  function WeakLine(weak: seq<string>): string {
    "Focus on improving your understanding of: " + Join(weak, ", ")
  }

  const ReviewLine: string := "Consider reviewing fundamental concepts and practicing more problems in these areas."

  function StrongLine(strong: seq<string>): string {
    "You're performing well in: " + Join(strong, ", ")
  }

  const KeepUpLine: string := "Keep up the good work in these areas and use them as a foundation for more advanced topics."

  // Written as two literals so that the verifier can see the first four characters, which
  // tell this line apart from the others in BalancedOnlyWhenNeither.
  const BalancedLine: string := "Your" + " performance is balanced across all topics. Continue with regular practice."

  function RetakeLine(subject: string): string {
    "Consider taking another quiz on " + subject + " in a few days to track your improvement."
  }

  /**
   * `generate_recommendations`: two lines about the weak areas when there are any, then two
   * about the strong areas when there are any, the balanced line only when there are neither,
   * and always last the suggestion to retake a quiz on the subject.
   */
  function Recommendations(weak: seq<string>, strong: seq<string>, subject: string): (r: seq<string>)
    ensures |r| == (if weak != [] then 2 else 0) + (if strong != [] then 2 else 0) + (if weak == [] && strong == [] then 1 else 0) + 1
    ensures weak != [] ==> r[0] == WeakLine(weak) && r[1] == ReviewLine
    ensures strong != [] ==> var s := if weak != [] then 2 else 0; r[s] == StrongLine(strong) && r[s + 1] == KeepUpLine
    ensures weak == [] && strong == [] ==> r[0] == BalancedLine
    ensures r[|r| - 1] == RetakeLine(subject)
  {
    (if weak != [] then [WeakLine(weak), ReviewLine] else [])
    + (if strong != [] then [StrongLine(strong), KeepUpLine] else [])
    + (if weak == [] && strong == [] then [BalancedLine] else [])
    + [RetakeLine(subject)]
  }

  /** The balanced line appears exactly when there are neither weak nor strong areas. */
  lemma BalancedOnlyWhenNeither(weak: seq<string>, strong: seq<string>, subject: string)
    ensures BalancedLine in Recommendations(weak, strong, subject) <==> weak == [] && strong == []
  {
    var r := Recommendations(weak, strong, subject);
    if !(weak == [] && strong == []) {
      forall i | 0 <= i < |r| ensures r[i] != BalancedLine {
        assert BalancedLine[0] == 'Y' && BalancedLine[3] == 'r';
        if i == |r| - 1 {
          assert r[i][0] == 'C';
        } else if weak != [] && i == 0 {
          assert r[i] == WeakLine(weak) && WeakLine(weak)[0] == 'F';
        } else if weak != [] && i == 1 {
          assert |r[i]| != |BalancedLine|;
        } else if r[i] != KeepUpLine {
          assert r[i][3] == '\'';
        } else {
          assert |KeepUpLine| != |BalancedLine|;
        }
      }
    }
  }

  // ---------------------------------------------------------------------------
  // The report

  /** The stored `results` of a scored quiz; areas are named by topic. */
  datatype Report = Report(
    totalQuestions: nat,
    correctAnswers: nat,
    scorePercentage: real,
    topics: seq<Entry>,
    difficulties: seq<Entry>,
    weakAreas: seq<string>,
    strongAreas: seq<string>,
    recommendations: seq<string>)

  datatype SubmitError = NoActiveQuiz | AnswerCountMismatch | MissingCorrectAnswer | EmptyQuiz

  /** The report of a quiz whose every question has a correct answer. */
  function ReportOf(subject: string, qs: seq<Question>, answers: seq<string>): Report
    requires |qs| == |answers| > 0 && AllAnswered(qs)
  {
    var topics := Tally(qs, answers, ByTopic);
    Report(|qs|, CountCorrect(qs, answers), (CountCorrect(qs, answers) as real / |qs| as real) * 100.0,
           topics, Tally(qs, answers, ByDifficulty), Weak(topics), Strong(topics),
           Recommendations(Weak(topics), Strong(topics), subject))
  }

  /** The score is a percentage: between 0 and 100. */
  lemma ScoreIsPercentage(subject: string, qs: seq<Question>, answers: seq<string>)
    requires |qs| == |answers| > 0 && AllAnswered(qs)
    ensures 0.0 <= ReportOf(subject, qs, answers).scorePercentage <= 100.0
  {
    RatioBounded(CountCorrect(qs, answers) as real, |qs| as real);
  }

  /** A part over a positive whole is between 0 and 1. */
  lemma RatioBounded(c: real, n: real)
    requires 0.0 <= c <= n && 0.0 < n
    ensures 0.0 <= c / n <= 1.0
  {
  }

  /**
   * The per-topic and per-difficulty totals each sum to the number of questions and their
   * correct counts to the number of correct answers, every row has correct <= total, and no
   * topic is both weak and strong.
   */
  lemma ReportTallies(subject: string, qs: seq<Question>, answers: seq<string>)
    requires |qs| == |answers| > 0 && AllAnswered(qs)
    ensures SumTotal(ReportOf(subject, qs, answers).topics) == |qs|
    ensures SumTotal(ReportOf(subject, qs, answers).difficulties) == |qs|
    ensures SumCorrect(ReportOf(subject, qs, answers).topics) == ReportOf(subject, qs, answers).correctAnswers
    ensures SumCorrect(ReportOf(subject, qs, answers).difficulties) == ReportOf(subject, qs, answers).correctAnswers
    ensures WellCounted(ReportOf(subject, qs, answers).topics) && WellCounted(ReportOf(subject, qs, answers).difficulties)
    ensures forall k :: !(k in ReportOf(subject, qs, answers).weakAreas && k in ReportOf(subject, qs, answers).strongAreas)
  {
    TallyCounts(qs, answers, ByTopic);
    TallyCounts(qs, answers, ByDifficulty);
    NeverBoth(Tally(qs, answers, ByTopic));
  }

  /**
   * The scoring loop of `submit_quiz`, over the stored questions and the submitted answers.
   * A count mismatch is rejected first, then a question without `correct_answer`, then an
   * empty quiz (whose percentage would divide by zero); otherwise the report.
   */
  method Score(subject: string, qs: seq<Question>, answers: seq<string>) returns (r: Result<Report, SubmitError>)
    ensures r == Err(AnswerCountMismatch) <==> |answers| != |qs|
    ensures r == Err(MissingCorrectAnswer) <==> |answers| == |qs| && !AllAnswered(qs)
    ensures r == Err(EmptyQuiz) <==> |answers| == |qs| == 0
    ensures r != Err(NoActiveQuiz)
    ensures r.Ok? ==> |qs| == |answers| > 0 && AllAnswered(qs) && r.value == ReportOf(subject, qs, answers)
  {
    if |answers| != |qs| {
      return Err(AnswerCountMismatch);
    }
    var correct := 0;
    var topics: seq<Entry> := [];
    var difficulties: seq<Entry> := [];
    var i := 0;
    while i < |qs|
      invariant 0 <= i <= |qs|
      invariant AllAnswered(qs[..i])
      invariant correct == CountCorrect(qs[..i], answers[..i])
      invariant topics == Tally(qs[..i], answers[..i], ByTopic)
      invariant difficulties == Tally(qs[..i], answers[..i], ByDifficulty)
    {
      var q := qs[i];
      if q.correctAnswer.None? {
        assert !AllAnswered(qs);
        return Err(MissingCorrectAnswer);
      }
      var isCorrect := Upper(answers[i]) == Upper(q.correctAnswer.value);
      if isCorrect {
        correct := correct + 1;
      }
      topics := Bump(topics, KeyOf(q, ByTopic), isCorrect);
      difficulties := Bump(difficulties, KeyOf(q, ByDifficulty), isCorrect);
      assert qs[..i + 1][..i] == qs[..i];
      assert answers[..i + 1][..i] == answers[..i];
      i := i + 1;
    }
    assert qs[..i] == qs && answers[..i] == answers;
    assert AllAnswered(qs);
    if |qs| == 0 {
      return Err(EmptyQuiz);
    }
    var weak := Weak(topics);
    var strong := Strong(topics);
    r := Ok(Report(|qs|, correct, (correct as real / |qs| as real) * 100.0, topics, difficulties,
                   weak, strong, Recommendations(weak, strong, subject)));
  }
}
