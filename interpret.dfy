/**
 * Reading the generative model's replies: the `JSON_START:` / `:JSON_END` split used for
 * timetables, the first-bracket / last-bracket span used for recommendations and quizzes,
 * and the line-by-line fallback that reads `Task:`, `Reason:` and `Duration:` lines.
 * `json.loads` is a parameter: a partial function that gives `None` where it would raise.
 */
module Interpret {
  import opened Wrappers
  import opened Text

  const StartMarker: string := "JSON_START:"
  const EndMarker: string := ":JSON_END"

  // ---------------------------------------------------------------------------
  // The marker split

  /** The readable text of a reply and the structured data found in it, if any. */
  datatype Interpreted<J> = Interpreted(prose: string, structured: Option<J>)

  /**
   * The split of a timetable reply. Only when both markers occur: the prose is the stripped
   * text before the first `JSON_START:`, and the JSON is read from the stripped text after
   * it, up to the next `JSON_START:` and then to the first `:JSON_END`. Otherwise the whole
   * reply is prose. A reply whose JSON does not parse keeps its prose.
   */
  function SplitMarkers<J>(response: string, parse: string -> Option<J>): (r: Interpreted<J>)
    ensures !(Contains(response, StartMarker) && Contains(response, EndMarker)) ==> r == Interpreted(response, None)
    ensures Contains(response, StartMarker) && Contains(response, EndMarker) ==>
      r.prose == Strip(response[..Find(response, StartMarker)]) && !Contains(response[..Find(response, StartMarker)], StartMarker)
  {
    var i := Find(response, StartMarker);
    if i != -1 && Find(response, EndMarker) != -1 then
      assert !Contains(response[..i], StartMarker) by {
        forall q | 0 <= q <= i ensures !OccursAt(response[..i], StartMarker, q) {
          OccursInPrefix(response, StartMarker, i, q);
        }
      }
      var section := Head(response[i + |StartMarker|..], StartMarker);
      var jsonPart := Strip(Head(section, EndMarker));
      Interpreted(Strip(response[..i]), parse(jsonPart))
    else
      Interpreted(response, None)
  }

  /** No proper suffix of `:JSON_END` is a prefix of `JSON_START:`. */
  lemma EndSuffixNotStartPrefix(d: int)
    requires 1 <= d < |EndMarker|
    ensures EndMarker[d..] != StartMarker[..|EndMarker| - d]
  {
    if d == 1 {
      assert EndMarker[1..][5] != StartMarker[..8][5];
    } else {
      assert EndMarker[d..][0] != StartMarker[..|EndMarker| - d][0];
    }
  }

  /** Two overlapping occurrences agree on the characters they share. */
  lemma OverlapAgrees(s: string, p: int, n: int)
    requires OccursAt(s, EndMarker, p) && OccursAt(s, StartMarker, n) && p < n < p + |EndMarker|
    ensures EndMarker[n - p..] == StartMarker[..|EndMarker| - (n - p)]
  {
    assert s[p..p + |EndMarker|][n - p..] == s[n..p + |EndMarker|];
    assert s[n..n + |StartMarker|][..|EndMarker| - (n - p)] == s[n..p + |EndMarker|];
  }

  /** A `:JSON_END` that starts before a `JSON_START:` ends before it: the two markers cannot overlap. */
  lemma MarkersDoNotOverlap(s: string, p: int, n: int)
    requires OccursAt(s, EndMarker, p) && OccursAt(s, StartMarker, n) && p < n
    ensures p + |EndMarker| <= n
  {
    if p + |EndMarker| > n {
      EndSuffixNotStartPrefix(n - p);
      OverlapAgrees(s, p, n);
      assert false;
    }
  }

  /** Where the structured part starts: right after the first `JSON_START:`. */
  ghost function SectionStart(response: string): (b: int)
    requires Contains(response, StartMarker)
    ensures |StartMarker| <= b <= |response|
  {
    Find(response, StartMarker) + |StartMarker|
  }

  /** The text up to the next `JSON_START:` (`parts[1]` of the split on the start marker). */
  ghost function Section(response: string): (t: string)
    requires Contains(response, StartMarker)
  {
    Head(response[SectionStart(response)..], StartMarker)
  }

  /** Where the structured part ends, as the code computes it. */
  ghost function SectionEnd(response: string): (e: int)
    requires Contains(response, StartMarker)
    ensures SectionStart(response) <= e <= |response|
    ensures response[SectionStart(response)..e] == Head(Section(response), EndMarker)
  {
    var b := SectionStart(response);
    var jp := Head(Section(response), EndMarker);
    assert jp == response[b..][..|jp|];
    b + |jp|
  }

  /** No marker starts in `response[b..e]`, and `e` is the end of the text or the start of a marker. */
  ghost predicate IsSectionEnd(response: string, e: int)
    requires Contains(response, StartMarker)
  {
    var b := SectionStart(response);
    b <= e <= |response|
    && (forall q :: b <= q < e ==> !OccursAt(response, StartMarker, q) && !OccursAt(response, EndMarker, q))
    && (e == |response| || OccursAt(response, StartMarker, e) || OccursAt(response, EndMarker, e))
  }

  lemma NoStartInSection(response: string, q: int)
    requires Contains(response, StartMarker)
    requires SectionStart(response) <= q < SectionStart(response) + |Section(response)|
    ensures !OccursAt(response, StartMarker, q)
  {
    var b := SectionStart(response);
    OccursInSuffix(response, StartMarker, b, q - b);
  }

  lemma NoEndInSection(response: string, q: int)
    requires Contains(response, StartMarker)
    requires SectionStart(response) <= q < SectionEnd(response)
    ensures !OccursAt(response, EndMarker, q)
  {
    var b := SectionStart(response);
    var tail := response[b..];
    var section := Section(response);
    OccursInSuffix(response, EndMarker, b, q - b);
    OccursInPrefix(tail, EndMarker, |section|, q - b);
    if OccursAt(response, EndMarker, q) && |section| < |tail| {
      OccursInSuffix(response, StartMarker, b, |section|);
      MarkersDoNotOverlap(response, q, b + |section|);
    }
  }

  lemma SectionStopsAtMarker(response: string)
    requires Contains(response, StartMarker)
    ensures var e := SectionEnd(response);
      e == |response| || OccursAt(response, StartMarker, e) || OccursAt(response, EndMarker, e)
  {
    var b := SectionStart(response);
    var tail := response[b..];
    var section := Section(response);
    var jp := Head(section, EndMarker);
    if |jp| < |section| {
      OccursInPrefix(tail, EndMarker, |section|, |jp|);
      OccursInSuffix(response, EndMarker, b, |jp|);
    } else if |section| < |tail| {
      OccursInSuffix(response, StartMarker, b, |section|);
    }
  }

  /**
   * What the structured part is read from: the stripped text that starts right after the
   * first `JSON_START:` and stops at the first later marker of either kind, or at the end.
   */
  lemma MarkerSection<J>(response: string, parse: string -> Option<J>)
    requires Contains(response, StartMarker) && Contains(response, EndMarker)
    ensures exists e ::
      (IsSectionEnd(response, e)
       && SplitMarkers(response, parse).structured == parse(Strip(response[SectionStart(response)..e])))
  {
    var e := SectionEnd(response);
    forall q | SectionStart(response) <= q < e
      ensures !OccursAt(response, StartMarker, q) && !OccursAt(response, EndMarker, q)
    {
      NoStartInSection(response, q);
      NoEndInSection(response, q);
    }
    SectionStopsAtMarker(response);
    assert IsSectionEnd(response, e);
  }

  // ---------------------------------------------------------------------------
  // The bracket span

  /** A half-open span of positions. */
  datatype Span = Span(start: nat, end: nat)

  /**
   * `json_start = s.find(open)`, `json_end = s.rfind(close) + 1`, kept when `json_start != -1`
   * and `json_end > json_start`: the span from the first opening bracket to the last closing one.
   */
  function BracketSpan(s: string, open: char, close: char): (r: Option<Span>)
    requires open != close
    ensures r.None? <==> open !in s || close !in s || (forall k :: 0 <= k < |s| && s[k] == close ==> forall j :: 0 <= j < |s| && s[j] == open ==> k < j)
    ensures r.Some? ==>
      (r.value.start < r.value.end <= |s|
       && s[r.value.start] == open && s[r.value.end - 1] == close
       && open !in s[..r.value.start] && close !in s[r.value.end..])
  {
    var i := IndexOf(s, open);
    var j := LastIndexOf(s, close) + 1;
    if i != -1 && j > i then
      Some(Span(i, j))
    else
      assert i != -1 && j - 1 != -1 ==> s[j - 1] == close && s[i] == open;
      assert forall k :: 0 <= k < i ==> s[k] != open by {
        forall k | 0 <= k < i ensures s[k] != open { assert s[k] == s[..i][k]; }
      }
      assert forall k :: j <= k < |s| ==> s[k] != close by {
        forall k | j <= k < |s| ensures s[k] != close { if j > 0 { assert s[k] == s[j..][k - j]; } }
      }
      None
  }

  /** The text a bracket span selects, or none. */
  function SpanText(s: string, span: Option<Span>): (r: Option<string>)
    requires span.Some? ==> span.value.start <= span.value.end <= |s|
  {
    match span
    case None => None
    case Some(Span(a, b)) => Some(s[a..b])
  }

  // ---------------------------------------------------------------------------
  // The line-by-line fallback

  const DefaultTask: string := "Recommended study task"
  const DefaultReason: string := "Based on your current schedule and time"
  const DefaultDuration: string := "1-2 hours"

  /** The three fields of a recommendation read from text. */
  datatype Fields = Fields(task: string, reason: string, duration: string)

  /** A field's line lab and its quoted JSON key. */
  datatype Label = Label(word: string, key: string)

  const TaskLabel: Label := Label("Task:", "\"task\":")
  const ReasonLabel: Label := Label("Reason:", "\"reason\":")
  const DurationLabel: Label := Label("Duration:", "\"duration\":")

  /** A stripped line carries the lab when it starts with the word or with the quoted key. */
  predicate Labelled(line: string, lab: Label) {
    StartsWith(line, lab.word) || StartsWith(line, lab.key)
  }

  /** `line.split(':', 1)[1].strip().strip('"')`: what follows the first colon, unquoted. */
  function ValueAfterColon(line: string): (v: string)
    requires ':' in line
  {
    StripQuotes(Strip(line[IndexOf(line, ':') + 1..]))
  }

  /** The lines of a reply: `reply.strip().split('\n')`. */
  function Lines(reply: string): (ls: seq<string>)
    ensures |ls| >= 1
  {
    Split(Strip(reply), '\n')
  }

  lemma LabelledHasColon(line: string, lab: Label)
    requires lab == TaskLabel || lab == ReasonLabel || lab == DurationLabel
    requires Labelled(line, lab)
    ensures ':' in line
  {
    if StartsWith(line, lab.word) {
      assert line[|lab.word| - 1] == lab.word[|lab.word| - 1] == ':';
    } else {
      assert line[|lab.key| - 1] == lab.key[|lab.key| - 1] == ':';
    }
  }

  /** Each line stripped, as the loop reads them. */
  function StripAll(lines: seq<string>): (r: seq<string>)
    ensures |r| == |lines|
    ensures forall i :: 0 <= i < |lines| ==> r[i] == Strip(lines[i])
  {
    seq(|lines|, i requires 0 <= i < |lines| => Strip(lines[i]))
  }

  /** The index of the last line that carries the label, or -1. */
  function LastLabelled(lines: seq<string>, lab: Label): (k: int)
    ensures -1 <= k < |lines|
    ensures k == -1 <==> forall j :: 0 <= j < |lines| ==> !Labelled(lines[j], lab)
    ensures k != -1 ==> Labelled(lines[k], lab) && forall j :: k < j < |lines| ==> !Labelled(lines[j], lab)
  {
    if lines == [] then -1
    else if Labelled(lines[|lines| - 1], lab) then |lines| - 1
    else
      var k := LastLabelled(lines[..|lines| - 1], lab);
      assert forall j :: 0 <= j < |lines| - 1 ==> lines[..|lines| - 1][j] == lines[j];
      k
  }

  /** A field's value: read from the last labelled line, or the field's placeholder when there is none. */
  function FieldOr(lines: seq<string>, lab: Label, default: string): string
    requires lab == TaskLabel || lab == ReasonLabel || lab == DurationLabel
  {
    var k := LastLabelled(lines, lab);
    if k == -1 then default
    else
      LabelledHasColon(lines[k], lab);
      ValueAfterColon(lines[k])
  }

  /** A stripped line carries at most one of the three labels. */
  lemma LabelsExclusive(line: string)
    ensures !(Labelled(line, TaskLabel) && Labelled(line, ReasonLabel))
    ensures !(Labelled(line, TaskLabel) && Labelled(line, DurationLabel))
    ensures !(Labelled(line, ReasonLabel) && Labelled(line, DurationLabel))
  {
    if |line| >= 2 {
      assert StartsWith(line, TaskLabel.word) ==> line[0] == 'T';
      assert StartsWith(line, ReasonLabel.word) ==> line[0] == 'R';
      assert StartsWith(line, DurationLabel.word) ==> line[0] == 'D';
      assert StartsWith(line, TaskLabel.key) ==> line[1] == 't';
      assert StartsWith(line, ReasonLabel.key) ==> line[1] == 'r';
      assert StartsWith(line, DurationLabel.key) ==> line[1] == 'd';
    }
  }

  /** Extending the lines by one: the new line decides if it carries the label. */
  lemma LastLabelledSnoc(lines: seq<string>, i: nat, lab: Label)
    requires i < |lines|
    ensures LastLabelled(lines[..i + 1], lab) ==
      if Labelled(lines[i], lab) then i else LastLabelled(lines[..i], lab)
  {
    assert lines[..i + 1][..i] == lines[..i];
  }

  /** Reading one more line: it sets the field if it carries the label, and changes nothing otherwise. */
  lemma FieldOrSnoc(lines: seq<string>, i: nat, lab: Label, default: string)
    requires i < |lines|
    requires lab == TaskLabel || lab == ReasonLabel || lab == DurationLabel
    ensures Labelled(lines[i], lab) ==> ':' in lines[i] && FieldOr(lines[..i + 1], lab, default) == ValueAfterColon(lines[i])
    ensures !Labelled(lines[i], lab) ==> FieldOr(lines[..i + 1], lab, default) == FieldOr(lines[..i], lab, default)
  {
    LastLabelledSnoc(lines, i, lab);
    var k := LastLabelled(lines[..i], lab);
    if Labelled(lines[i], lab) {
      LabelledHasColon(lines[i], lab);
    } else if k != -1 {
      assert lines[..i + 1][k] == lines[..i][k];
    }
  }

  /** The three fields read from a list of stripped lines, each from the last line that carries its label. */
  function FieldsOf(lines: seq<string>): Fields {
    Fields(FieldOr(lines, TaskLabel, DefaultTask),
           FieldOr(lines, ReasonLabel, DefaultReason),
           FieldOr(lines, DurationLabel, DefaultDuration))
  }

  /** One step of the loop: a line carrying a label sets that field to the text after its first colon. */
  function ReadLine(f: Fields, line: string): Fields {
    if Labelled(line, TaskLabel) then
      LabelledHasColon(line, TaskLabel);
      f.(task := ValueAfterColon(line))
    else if Labelled(line, ReasonLabel) then
      LabelledHasColon(line, ReasonLabel);
      f.(reason := ValueAfterColon(line))
    else if Labelled(line, DurationLabel) then
      LabelledHasColon(line, DurationLabel);
      f.(duration := ValueAfterColon(line))
    else f
  }

  /** Reading the lines one by one computes the fields of the last labelled lines. */
  lemma FieldsOfSnoc(lines: seq<string>, i: nat)
    requires i < |lines|
    ensures FieldsOf(lines[..i + 1]) == ReadLine(FieldsOf(lines[..i]), lines[i])
  {
    LabelsExclusive(lines[i]);
    FieldOrSnoc(lines, i, TaskLabel, DefaultTask);
    FieldOrSnoc(lines, i, ReasonLabel, DefaultReason);
    FieldOrSnoc(lines, i, DurationLabel, DefaultDuration);
  }

  /**
   * The fallback loop of the recommendation reply: each stripped line that carries a label
   * sets its field; the fields no line sets keep their placeholders.
   */
  method LineFallback(reply: string) returns (f: Fields)
    ensures f == FieldsOf(StripAll(Lines(reply)))
  {
    var lines := Lines(reply);
    ghost var stripped := StripAll(lines);
    var task, reason, duration := DefaultTask, DefaultReason, DefaultDuration;
    var i := 0;
    while i < |lines|
      invariant 0 <= i <= |lines|
      invariant Fields(task, reason, duration) == FieldsOf(stripped[..i])
    {
      var line := Strip(lines[i]);
      assert line == stripped[i];
      FieldsOfSnoc(stripped, i);
      if Labelled(line, TaskLabel) {
        LabelledHasColon(line, TaskLabel);
        task := ValueAfterColon(line);
      } else if Labelled(line, ReasonLabel) {
        LabelledHasColon(line, ReasonLabel);
        reason := ValueAfterColon(line);
      } else if Labelled(line, DurationLabel) {
        LabelledHasColon(line, DurationLabel);
        duration := ValueAfterColon(line);
      }
      i := i + 1;
    }
    assert stripped[..i] == stripped;
    f := Fields(task, reason, duration);
  }

  // ---------------------------------------------------------------------------
  // The recommendation reply

  /** A recommendation reply: the JSON object found in it, or the fields read line by line. */
  datatype Reply<J> = Parsed(json: J) | ReadLines(fields: Fields)

  /**
   * The AI branch of the recommendation: the text between the first `{` and the last `}` is
   * parsed as JSON; when there is no such span or it does not parse, the lines are read.
   */
  method InterpretReply<J>(reply: string, parse: string -> Option<J>) returns (r: Reply<J>)
    ensures r == ReadReply(reply, parse)
  {
    var text := SpanText(reply, BracketSpan(reply, '{', '}'));
    if text.Some? && parse(text.value).Some? {
      r := Parsed(parse(text.value).value);
    } else {
      var fields := LineFallback(reply);
      r := ReadLines(fields);
    }
  }

  /**
   * What the AI branch makes of a reply: the value of the braced span when there is one
   * and it parses, otherwise the fields read from the stripped lines.
   */
  function ReadReply<J>(reply: string, parse: string -> Option<J>): Reply<J> {
    var text := SpanText(reply, BracketSpan(reply, '{', '}'));
    if text.Some? && parse(text.value).Some? then Parsed(parse(text.value).value)
    else ReadLines(FieldsOf(StripAll(Lines(reply))))
  }
}
