/** system.py: the parser methods named by the patterns are placeholders or
    missing, the query text is looked up by the upper-case question type, and
    the formatted query is computed but not used. */
module System {
  import opened Python
  import opened Tokens
  import opened Normaliser
  import opened Resolve
  import opened Bindings
  import opened Controller
  import opened Format
  import opened Queries

  /** The patterns registered with the matcher. */
  datatype Pattern = WhenWhere | XOfY | WhoDidX | WhatIsTheLast

  function Name(p: Pattern): string {
    match p
    case WhenWhere => "WHEN_WHERE"
    case XOfY => "X_OF_Y"
    case WhoDidX => "WHO_DID_X"
    case WhatIsTheLast => "WHAT_IS_THE_LAST"
  }

  type Annotator = string -> Doc

  type Matcher = Doc -> seq<Match<Pattern>>

  datatype Question = Question(qtype: string, prop: string, entity: string, extra: string)

  const NoAnswer: string := "Could not find an answer to this question."

  /** `getattr(self, name)(question)` on the lower-cased name of the matched
      pattern, which is the only name the parser looks up. Of the parser's
      methods, `pattern_one`, `pattern_two` and `what_is_the_last` are
      placeholders that return three empty strings; its other attributes
      (`translate_query`, `init_matcher`, `nlp`, `matcher`, `stop_words`,
      `trans_dict`) are never a pattern's name. Only WHAT_IS_THE_LAST
      names a method; the other patterns raise AttributeError. */
  function Method(p: Pattern, question: string): (r: Result<(string, string, string)>)
    ensures r.Ok? <==> p == WhatIsTheLast
    ensures r.Ok? ==> r.value == ("", "", "")
    ensures r.Raise? ==> r.error == AttributeError
  {
    var name := Lower(Name(p));
    LowerPatternName(p);
    if name in {"pattern_one", "pattern_two", "what_is_the_last"} then Ok(("", "", ""))
    else Raise(AttributeError)
  }

  /** Iterating over a string gives its characters as one-character strings. */
  function Chars(s: string): (r: seq<string>)
    ensures |r| == |s|
    ensures forall k :: 0 <= k < |s| ==> r[k] == [s[k]]
  {
    seq(|s|, k requires 0 <= k < |s| => [s[k]])
  }

  /** The parser. `match_id, start, end = self.matcher(result)` unpacks the
      list of matches, which raises ValueError unless there are exactly
      three of them; `lookup` is what the vocabulary lookup of the first
      unpacked value gives. The method's entity and relation are translated
      as in the other scripts, iterating them character by character. */
  function Parse(question: string, matches: seq<Match<Pattern>>, lookup: Result<Pattern>): (r: Result<Question>)
    ensures |matches| != 3 ==> r == Raise(ValueError)
    ensures r.Ok? ==> lookup.Ok? && r.value.qtype == Name(lookup.value)
    ensures r.Raise? ==> r.error in {ValueError, AttributeError} || lookup == Raise(r.error)
  {
    if |matches| != 3 then Raise(ValueError)
    else
      var p :- lookup;
      var parts :- Method(p, question);
      Ok(Question(Name(p), TranslateQuery(StopWordsApostrophe, Chars(parts.1)),
        JoinSpace(RemoveStopWords(StopWordsApostrophe, Chars(parts.0))), parts.2))
  }

  lemma LowerName(upper: string, lower: string)
    requires |upper| == |lower|
    requires forall k :: 0 <= k < |upper| ==>
      lower[k] == if 'A' <= upper[k] <= 'Z' then (upper[k] as int + 32) as char else upper[k]
    ensures Lower(upper) == lower
  {
    var r := Lower(upper);
    assert forall k :: 0 <= k < |r| ==> r[k] == lower[k];
  }

  /** The pattern names lower-cased, as `getattr` receives them. */
  function MethodName(p: Pattern): string {
    match p
    case WhenWhere => "when_where"
    case XOfY => "x_of_y"
    case WhoDidX => "who_did_x"
    case WhatIsTheLast => "what_is_the_last"
  }

  lemma LowerPatternName(p: Pattern)
    ensures Lower(Name(p)) == MethodName(p)
  {
    match p
    case WhenWhere => LowerName("WHEN_WHERE", "when_where");
    case XOfY => LowerName("X_OF_Y", "x_of_y");
    case WhoDidX => LowerName("WHO_DID_X", "who_did_x");
    case WhatIsTheLast => LowerName("WHAT_IS_THE_LAST", "what_is_the_last");
  }

  /** Only WHAT_IS_THE_LAST names a parser method; the other patterns raise
      AttributeError. */
  lemma ParseMissingMethod(question: string, matches: seq<Match<Pattern>>, p: Pattern)
    requires |matches| == 3 && p != WhatIsTheLast
    ensures Parse(question, matches, Ok(p)) == Raise(AttributeError)
  {
  }

  /** A WHAT_IS_THE_LAST question parses to the pattern name with an empty
      relation, entity and extra. */
  lemma ParseWhatIsTheLast(question: string, matches: seq<Match<Pattern>>)
    requires |matches| == 3
    ensures Parse(question, matches, Ok(WhatIsTheLast)) == Ok(Question("WHAT_IS_THE_LAST", "", "", ""))
  {
    EmptyPhrases();
  }

  lemma EmptyPhrases()
    ensures TranslateQuery(StopWordsApostrophe, Chars("")) == ""
    ensures JoinSpace(RemoveStopWords(StopWordsApostrophe, Chars(""))) == ""
  {
    assert Chars("") == [];
    assert RemoveStopWords(StopWordsApostrophe, []) == [];
  }

  /** `query_dict`: only `pattern_one` has a query text. */
  function QueryText(key: string): (r: Option<string>)
    ensures r.Some? <==> key == "pattern_one"
  {
    if key == "pattern_one" then Some(Render(AnswerLabelQuery)) else None
  }

  /** One pair: the query text is looked up by the question type as it is
      (KeyError when missing) and formatted, but the formatted string is
      dropped and the raw text is sent. */
  function RunPair(exec: Executor, qtype: string, pair: Pair): (r: Result<seq<Row>>)
    ensures QueryText(qtype).None? ==> r == Raise(KeyError)
  {
    match QueryText(qtype)
    case None => Raise(KeyError)
    case Some(text) =>
      var _ :- FormatString(text, [pair.entity, pair.prop, "None"]);
      Ok(exec(text))
  }

  /** The query sent does not depend on the pair: every pair sends the same
      unformatted text, with its doubled braces and empty `{}` fields. */
  lemma SameQueryEveryPair(exec: Executor, qtype: string, a: Pair, b: Pair)
    ensures RunPair(exec, qtype, a) == RunPair(exec, qtype, b)
    ensures qtype == "pattern_one" ==> RunPair(exec, qtype, a) == Ok(exec(Render(AnswerLabelQuery)))
  {
    AnswerLabelFormat(a.entity, a.prop, ["None"]);
    AnswerLabelFormat(b.entity, b.prop, ["None"]);
    assert [a.entity, a.prop] + ["None"] == [a.entity, a.prop, "None"];
    assert [b.entity, b.prop] + ["None"] == [b.entity, b.prop, "None"];
  }

  /** `query_answer`: the rows of the first pair whose query has bindings. */
  function QueryAnswer(search: Search, exec: Executor, q: Question): (r: Result<seq<Row>>)
    ensures SearchTitles(search, q.prop, true).None? || SearchTitles(search, q.entity, false).None?
      ==> r == Raise(NoAnswerError(NoAnswer))
    ensures r.Ok? ==> r.value != []
  {
    var props := SearchTitles(search, q.prop, true);
    var ents := SearchTitles(search, q.entity, false);
    if props.None? || ents.None? then Raise(NoAnswerError(NoAnswer))
    else match FirstAnswer(Cross(ents.value, props.value), p => RunPair(exec, q.qtype, p))
      case Answered(rows, _) => Ok(rows)
      case Exhausted(_) => Raise(NoAnswerError(NoAnswer))
      case Failed(e, _) => Raise(e)
  }

  /** When both searches find titles but every pair's query comes back
      without bindings, the loops run out and NoAnswerError is raised. */
  lemma QueryAnswerExhausted(search: Search, exec: Executor, q: Question)
    requires SearchTitles(search, q.prop, true).Some? && SearchTitles(search, q.entity, false).Some?
    requires var e, p := SearchTitles(search, q.entity, false).value, SearchTitles(search, q.prop, true).value;
      forall pair :: pair in Cross(e, p) ==> RunPair(exec, q.qtype, pair) == Ok([])
    ensures QueryAnswer(search, exec, q) == Raise(NoAnswerError(NoAnswer))
  {
    var e, p := SearchTitles(search, q.entity, false).value, SearchTitles(search, q.prop, true).value;
    ExhaustedIffAllEmpty(Cross(e, p), pr => RunPair(exec, q.qtype, pr));
  }

  /** A question type without query text never answers: either a search
      finds nothing and NoAnswerError is raised, or the first pair raises
      KeyError. */
  lemma QueryAnswerMissingText(search: Search, exec: Executor, q: Question)
    requires QueryText(q.qtype).None?
    ensures QueryAnswer(search, exec, q) == Raise(NoAnswerError(NoAnswer))
      || QueryAnswer(search, exec, q) == Raise(KeyError)
  {
    var props := SearchTitles(search, q.prop, true);
    var ents := SearchTitles(search, q.entity, false);
    if props.Some? && ents.Some? {
      var pairs := Cross(ents.value, props.value);
      CrossIndex(ents.value, props.value, 0, 0);
      FirstAnswerAt(pairs, p => RunPair(exec, q.qtype, p), 0);
    }
  }

  /** `__call__`: NoAnswerError prints its message; other exceptions escape;
      otherwise the `answerLabel` values are printed as the lazy map yields
      them. */
  function Respond(question: string, annotate: Annotator, matcher: Matcher, lookup: Result<Pattern>,
                   search: Search, exec: Executor): Printed
  {
    var q := StripQuestion(question);
    Reply(Parse(q, matcher(annotate(q)), lookup), search, exec)
  }

  /** What is printed for a parse result. */
  function Reply(parsed: Result<Question>, search: Search, exec: Executor): Printed {
    match parsed
    case Raise(e) => Caught(e)
    case Ok(q) =>
      match QueryAnswer(search, exec, q)
      case Raise(e) => Caught(e)
      case Ok(rows) => PrintLabels(rows)
  }

  function Caught(e: PyError): Printed {
    match e
    case NoAnswerError(msg) => Printed([msg], None)
    case _ => Printed([], Some(e))
  }

  /** Only the no-answer message is printed, or nothing before an exception
      escapes. */
  predicate Unanswered(out: Printed) {
    out == Printed([NoAnswer], None) || (out.lines == [] && out.escaped.Some?)
  }

  /** The script answers no question: it prints the no-answer message, or an
      exception escapes before anything is printed. */
  lemma NeverAnswers(question: string, annotate: Annotator, matcher: Matcher, lookup: Result<Pattern>,
                     search: Search, exec: Executor)
    requires lookup.Raise? ==> !lookup.error.NoAnswerError?
    ensures Unanswered(Respond(question, annotate, matcher, lookup, search, exec))
  {
    var q := StripQuestion(question);
    var parsed := Parse(q, matcher(annotate(q)), lookup);
    ParsedTypeHasNoQuery(q, matcher(annotate(q)), lookup);
    ReplyNeverAnswers(parsed, search, exec);
  }

  /** A parsed question type is an upper-case pattern name, never the one key
      of `query_dict`. */
  lemma ParsedTypeHasNoQuery(q: string, matches: seq<Match<Pattern>>, lookup: Result<Pattern>)
    ensures Parse(q, matches, lookup).Ok? ==> QueryText(Parse(q, matches, lookup).value.qtype).None?
  {
    if lookup.Ok? {
      var p := lookup.value;
      assert Name(p) != "pattern_one" by { match p case _ => }
    }
  }

  lemma ReplyNeverAnswers(parsed: Result<Question>, search: Search, exec: Executor)
    requires parsed.Raise? ==> !parsed.error.NoAnswerError?
    requires parsed.Ok? ==> QueryText(parsed.value.qtype).None?
    ensures Unanswered(Reply(parsed, search, exec))
  {
    if parsed.Ok? {
      QueryAnswerMissingText(search, exec, parsed.value);
    }
  }
}
