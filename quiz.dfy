/**
 * The quiz store: generating a quiz from the generative model's reply, normalising its
 * questions in place, scoring a submission, keeping the results and an append-only history.
 */
module Quizzes {
  import opened Wrappers
  import opened Interpret
  import opened Timetables
  import opened Scoring

  /** A question with all of `question`, `options`, `correct_answer` and `topic`. */
  predicate Complete(q: Question) {
    q.text.Some? && q.options.Some? && q.correctAnswer.Some? && q.topic.Some?
  }

  /**
   * The check made on each generated question: an incomplete one gets topic `General` and
   * difficulty `medium`, even when it had a topic; a complete one is left as it is.
   */
  function Normalise(q: Question): (r: Question)
    ensures r.text == q.text && r.options == q.options && r.correctAnswer == q.correctAnswer
    ensures Complete(q) ==> r == q
    ensures !Complete(q) ==> KeyOf(r, ByTopic) == "General" && KeyOf(r, ByDifficulty) == "medium"
  {
    if Complete(q) then q else q.(topic := Some("General"), difficulty := Some("medium"))
  }

  /** Normalising twice is normalising once, and it keeps or drops `correct_answer` alike. */
  lemma NormaliseIdempotent(q: Question)
    ensures Normalise(Normalise(q)) == Normalise(q)
    ensures Normalise(q).correctAnswer.Some? <==> q.correctAnswer.Some?
  {
  }

  /** The questions after normalisation. */
  function NormalisedAll(qs: seq<Question>): (r: seq<Question>)
    ensures |r| == |qs|
    ensures forall i :: 0 <= i < |qs| ==> r[i] == Normalise(qs[i])
  {
    seq(|qs|, i requires 0 <= i < |qs| => Normalise(qs[i]))
  }

  /** The loop that rewrites each question in place. */
  method NormaliseInPlace(a: array<Question>)
    modifies a
    ensures a[..] == NormalisedAll(old(a[..]))
  {
    var i := 0;
    while i < a.Length
      invariant 0 <= i <= a.Length
      invariant forall k :: 0 <= k < i ==> a[k] == Normalise(old(a[k]))
      invariant forall k :: i <= k < a.Length ==> a[k] == old(a[k])
    {
      a[i] := Normalise(a[i]);
      i := i + 1;
    }
  }

  /** The text parsed as the question list: from the first `[` to the last `]`, or the whole reply. */
  function QuizText(reply: string): (t: string)
    ensures BracketSpan(reply, '[', ']').None? ==> t == reply
    ensures BracketSpan(reply, '[', ']').Some? ==>
      var span := BracketSpan(reply, '[', ']').value;
      t == reply[span.start..span.end] && 2 <= |t| && t[0] == '[' && t[|t| - 1] == ']'
  {
    match BracketSpan(reply, '[', ']')
    case None => reply
    case Some(Span(a, b)) => reply[a..b]
  }

  /** A generated quiz; `results` is `None` until it has been submitted. */
  datatype Quiz = Quiz(subject: string, questions: seq<Question>, answers: seq<string>, results: Option<Report>, createdAt: string)

  /** One line of the quiz history. */
  datatype HistoryEntry = HistoryEntry(subject: string, date: string, score: real, weakAreas: seq<string>, strongAreas: seq<string>)

  datatype GenerateError = NoTimetable | NoSubject | UnreadableQuiz

  datatype ResultsError = NoResults

  class QuizStore {
    var current: Option<Quiz>
    var history: seq<HistoryEntry>

    /** No quiz and no history. */
    constructor()
      ensures current.None? && history == []
    {
      current := None;
      history := [];
    }

    /** `get_quiz_results`: the results of the current quiz, once it has been submitted. */
    function Results(): (r: Result<Report, ResultsError>)
      reads this
      ensures r.Ok? <==> current.Some? && current.value.results.Some?
      ensures r.Ok? ==> r.value == current.value.results.value
    {
      if current.Some? && current.value.results.Some? then Ok(current.value.results.value) else Err(NoResults)
    }

    /**
     * `generate_quiz`, with the model's reply and `json.loads` given. It fails without a
     * timetable, with an empty subject, or when the text does not parse; otherwise the
     * normalised questions become the current quiz, with no answers and no results.
     */
    method Generate(latest: Option<Timetable>, reply: string, parse: string -> Option<seq<Question>>, createdAt: string)
      returns (r: Result<seq<Question>, GenerateError>)
      modifies this
      ensures r == Err(NoTimetable) <==> latest.None?
      ensures r == Err(NoSubject) <==> latest.Some? && latest.value.subject == ""
      ensures r == Err(UnreadableQuiz) <==> latest.Some? && latest.value.subject != "" && parse(QuizText(reply)).None?
      ensures r.Err? ==> unchanged(this)
      ensures r.Ok? ==>
        latest.Some? && parse(QuizText(reply)).Some?
        && r.value == NormalisedAll(parse(QuizText(reply)).value)
        && current == Some(Quiz(latest.value.subject, r.value, [], None, createdAt))
        && Results().Err?
      ensures history == old(history)
    {
      if latest.None? {
        return Err(NoTimetable);
      }
      var subject := latest.value.subject;
      if subject == "" {
        return Err(NoSubject);
      }
      var parsed := parse(QuizText(reply));
      if parsed.None? {
        return Err(UnreadableQuiz);
      }
      var qs := parsed.value;
      var a := new Question[|qs|](i requires 0 <= i < |qs| => qs[i]);
      assert a[..] == qs;
      NormaliseInPlace(a);
      current := Some(Quiz(subject, a[..], [], None, createdAt));
      r := Ok(a[..]);
    }

    /**
     * `submit_quiz` at time `now`. Without a current quiz, or when scoring fails, nothing
     * changes. Otherwise the quiz keeps the answers and its report, and exactly one entry is
     * appended to the history.
     */
    method Submit(answers: seq<string>, now: string) returns (r: Result<Report, SubmitError>)
      modifies this
      ensures r == Err(NoActiveQuiz) <==> old(current).None?
      ensures old(current).Some? ==> var qs := old(current).value.questions;
        (r == Err(AnswerCountMismatch) <==> |answers| != |qs|)
        && (r == Err(MissingCorrectAnswer) <==> |answers| == |qs| && !AllAnswered(qs))
        && (r == Err(EmptyQuiz) <==> |answers| == |qs| == 0)
      ensures r.Err? ==> unchanged(this)
      ensures r.Ok? ==>
        old(current).Some?
        && var quiz := old(current).value;
           |quiz.questions| == |answers| > 0 && AllAnswered(quiz.questions)
           && r.value == ReportOf(quiz.subject, quiz.questions, answers)
           && current == Some(quiz.(answers := answers, results := Some(r.value)))
           && history == old(history) + [HistoryEntry(quiz.subject, now, r.value.scorePercentage, r.value.weakAreas, r.value.strongAreas)]
           && Results() == Ok(r.value)
    {
      if current.None? {
        return Err(NoActiveQuiz);
      }
      var quiz := current.value;
      r := Score(quiz.subject, quiz.questions, answers);
      if r.Ok? {
        current := Some(quiz.(answers := answers, results := Some(r.value)));
        history := history + [HistoryEntry(quiz.subject, now, r.value.scorePercentage, r.value.weakAreas, r.value.strongAreas)];
      }
    }
  }
}
