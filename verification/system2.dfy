/** system2.py: the last matcher hit names an extractor, the question type
    picks the query text, every value of the first non-empty result is the
    answer, and any exception on the way means "no answer". */
module System2 {
  import opened Python
  import opened Tokens
  import Extract
  import opened Normaliser
  import opened Resolve
  import opened Bindings
  import opened Controller
  import opened Format
  import opened Queries

  /** The patterns registered with the matcher (WHEN_WHERE is commented out). */
  datatype Pattern = XOfY | WhoDidX | WhatDidX

  /** The pattern's name in the matcher's vocabulary. */
  function Name(p: Pattern): string {
    match p
    case XOfY => "X_OF_Y"
    case WhoDidX => "WHO_DID_X"
    case WhatDidX => "WHAT_DID_X"
  }

  type Annotator = string -> Doc

  type Matcher = Doc -> seq<Match<Pattern>>

  /** What the parser returns: question type, relation phrase, entity phrase,
      extra constraint. */
  datatype Question = Question(qtype: string, prop: string, entity: string, extra: string)

  const NoAnswer: string := "Could not find an answer to this question."

  /** `who_did_x` of this script reads `result[end:]`, and `end` is not a name
      in its scope: after finding the ROOT token it raises NameError. */
  function ParseWhoDidX(doc: Doc): (r: Result<Extract.Parsed>)
    ensures r.Raise?
    ensures r.error == StopIteration <==> forall k :: 0 <= k < |doc| ==> !Extract.IsRoot(doc[k])
    ensures r.error == StopIteration || r.error == NameError
  {
    match First(doc, Extract.IsRoot)
    case None => Raise(StopIteration)
    case Some(_) => Raise(NameError)
  }

  predicate IsNounArgument(t: Token) {
    t.pos == "NOUN" && (t.dep == "nsubj" || t.dep == "dobj")
  }

  /** `what_did_x`: the entity is the first named entity split on whitespace,
      the relation the text of the first noun that is a subject or a direct
      object, split on whitespace. Without entities, `entity[0]` raises
      IndexError; without such a noun, `prop` is never bound. */
  function ParseWhatDidX(doc: Doc): (r: Result<Extract.Parsed>)
    ensures r == Raise(IndexError) <==> EntityTexts(doc) == []
    ensures r == Raise(UnboundLocalError) <==>
      EntityTexts(doc) != [] && forall k :: 0 <= k < |doc| ==> !IsNounArgument(doc[k])
    ensures r.Raise? ==> r.error == IndexError || r.error == UnboundLocalError
    ensures r.Ok? ==> r.value.entity == Split(EntityTexts(doc)[0]) && r.value.extra == ""
  {
    var ents := EntityTexts(doc);
    if |ents| == 0 then Raise(IndexError)
    else match First(doc, IsNounArgument)
      case None => Raise(UnboundLocalError)
      case Some(k) => Ok(Extract.Parsed(Split(ents[0]), Split(doc[k].text), ""))
  }

  /** With `k` the first noun subject or object, the relation words are that
      noun's text split on whitespace. */
  lemma WhatDidXNoun(doc: Doc, k: nat)
    requires EntityTexts(doc) != []
    requires k < |doc| && IsNounArgument(doc[k])
    requires forall m :: 0 <= m < k ==> !IsNounArgument(doc[m])
    ensures ParseWhatDidX(doc) == Ok(Extract.Parsed(Split(EntityTexts(doc)[0]), Split(doc[k].text), ""))
  {
    FirstIs(doc, IsNounArgument, k);
  }

  /** `getattr(self, name)` on the lower-cased name of the matched pattern,
      which is the only name the parser ever looks up. The parser's methods
      are `when_where`, `x_of_y`, `who_did_x` and `what_did_x`; every
      registered pattern names one of them, so AttributeError never arises
      and each pattern runs its own extractor. */
  function Method(p: Pattern, doc: Doc): (r: Result<Extract.Parsed>)
    ensures r.Raise? ==> r.error != AttributeError
    ensures p == XOfY ==> r == Extract.XOfY(doc)
    ensures p == WhoDidX ==> r == ParseWhoDidX(doc)
    ensures p == WhatDidX ==> r == ParseWhatDidX(doc)
  {
    var name := Lower(Name(p));
    PatternMethods(p);
    if name == "when_where" then Extract.WhenWhere(doc)
    else if name == "x_of_y" then Extract.XOfY(doc)
    else if name == "who_did_x" then ParseWhoDidX(doc)
    else if name == "what_did_x" then ParseWhatDidX(doc)
    else Raise(AttributeError)
  }

  /** Every registered pattern names a parser method once lower-cased. */
  lemma PatternMethods(p: Pattern)
    ensures Lower(Name(p)) in {"x_of_y", "who_did_x", "what_did_x"}
    ensures Lower(Name(p)) == match p
      case XOfY => "x_of_y"
      case WhoDidX => "who_did_x"
      case WhatDidX => "what_did_x"
  {
    match p
    case XOfY => LowerName("X_OF_Y", "x_of_y");
    case WhoDidX => LowerName("WHO_DID_X", "who_did_x");
    case WhatDidX => LowerName("WHAT_DID_X", "what_did_x");
  }

  lemma LowerName(upper: string, lower: string)
    requires |upper| == |lower|
    requires forall k :: 0 <= k < |upper| ==>
      lower[k] == if 'A' <= upper[k] <= 'Z' then (upper[k] as int + 32) as char else upper[k]
    ensures Lower(upper) == lower
  {
    var r := Lower(upper);
    assert forall k :: 0 <= k < |r| ==> r[k] == lower[k];
  }

  /** The parser: the last match wins; with no match it returns None. */
  function Parse(doc: Doc, matches: seq<Match<Pattern>>): (r: Result<Option<Question>>)
    ensures r == Ok(None) <==> matches == []
    ensures r.Ok? && r.value.Some? ==> r.value.value.qtype == Name(matches[|matches| - 1].id)
  {
    if |matches| == 0 then Ok(None)
    else
      var name := Name(matches[|matches| - 1].id);
      var x :- Method(matches[|matches| - 1].id, doc);
      Ok(Some(Question(name, TranslateQuery(StopWordsApostrophe, x.relation),
        JoinSpace(RemoveStopWords(StopWordsApostrophe, x.entity)), x.extra)))
  }

  /** Only the last match counts. */
  lemma LastMatchUsed(doc: Doc, before: seq<Match<Pattern>>, m: Match<Pattern>)
    ensures Parse(doc, before + [m]) == Parse(doc, [m])
  {
    assert (before + [m])[|before + [m]| - 1] == m;
  }

  /** A WHO_DID_X question never parses. */
  lemma WhoDidXFails(doc: Doc, m: Match<Pattern>)
    requires m.id == WhoDidX
    ensures Parse(doc, [m]).Raise?
  {
  }

  /** `query_dict`: the query text for a lower-cased question type. */
  function QueryText(key: string): (r: Option<string>)
    ensures r.Some? <==> key in {"when_where", "x_of_y", "what_did_x", "4"}
  {
    if key in {"when_where", "x_of_y", "what_did_x"} then Some(Render(AnswerLabelQuery))
    else if key == "4" then Some("nog iets")
    else None
  }

  /** One pair: look the query text up by question type (KeyError when it is
      missing) and format it with the entity id, the property id and `None`. */
  function RunPair(exec: Executor, qtype: string, pair: Pair): (r: Result<seq<Row>>)
    ensures QueryText(Lower(qtype)).None? ==> r == Raise(KeyError)
  {
    match QueryText(Lower(qtype))
    case None => Raise(KeyError)
    case Some(text) =>
      var q :- FormatString(text, [pair.entity, pair.prop, "None"]);
      Ok(exec(q))
  }

  /** For an X_OF_Y or WHAT_DID_X question, every pair's query is the
      answer-label query about that pair. */
  lemma RunPairLabelQuery(exec: Executor, qtype: string, pair: Pair)
    requires qtype == Name(XOfY) || qtype == Name(WhatDidX)
    ensures RunPair(exec, qtype, pair) ==
      Ok(exec(LabelQueryHead + pair.entity + LabelQueryMiddle + pair.prop + LabelQueryTail))
  {
    PatternMethods(XOfY);
    PatternMethods(WhatDidX);
    AnswerLabelFormat(pair.entity, pair.prop, ["None"]);
    assert [pair.entity, pair.prop] + ["None"] == [pair.entity, pair.prop, "None"];
  }

  /** `query_answer`: every value of every row of the first pair, in
      entity-major order, whose query has bindings. */
  function QueryAnswer(search: Search, exec: Executor, q: Question): (r: Result<seq<string>>)
    ensures SearchTitles(search, q.prop, true).None? || SearchTitles(search, q.entity, false).None?
      ==> r == Raise(NoAnswerError(NoAnswer))
  {
    var props := SearchTitles(search, q.prop, true);
    var ents := SearchTitles(search, q.entity, false);
    if props.None? || ents.None? then Raise(NoAnswerError(NoAnswer))
    else match FirstAnswer(Cross(ents.value, props.value), p => RunPair(exec, q.qtype, p))
      case Answered(rows, _) => Ok(Values(rows))
      case Exhausted(_) => Raise(NoAnswerError(NoAnswer))
      case Failed(e, _) => Raise(e)
  }

  /** With entity titles E and property titles P, when (E[i], P[j]) is the
      first pair whose query has bindings, the answer is every value of
      those bindings. */
  lemma QueryAnswerFirstPair(search: Search, exec: Executor, q: Question, i: nat, j: nat)
    requires SearchTitles(search, q.prop, true).Some? && SearchTitles(search, q.entity, false).Some?
    requires var e, p := SearchTitles(search, q.entity, false).value, SearchTitles(search, q.prop, true).value;
      && i < |e| && j < |p|
      && (forall a, b :: 0 <= a < |e| && 0 <= b < |p| && (a < i || (a == i && b < j)) ==>
            RunPair(exec, q.qtype, Pair(e[a], p[b])) == Ok([]))
      && RunPair(exec, q.qtype, Pair(e[i], p[j])).Ok? && RunPair(exec, q.qtype, Pair(e[i], p[j])).value != []
    ensures var e, p := SearchTitles(search, q.entity, false).value, SearchTitles(search, q.prop, true).value;
      QueryAnswer(search, exec, q) == Ok(Values(RunPair(exec, q.qtype, Pair(e[i], p[j])).value))
  {
    var e, p := SearchTitles(search, q.entity, false).value, SearchTitles(search, q.prop, true).value;
    ShortCircuit(e, p, pr => RunPair(exec, q.qtype, pr), i, j);
  }

  /** When both searches find titles but every pair's query comes back
      without bindings, the loops run out and NoAnswerError is raised. */
  lemma QueryAnswerExhausted(search: Search, exec: Executor, q: Question)
    requires SearchTitles(search, q.prop, true).Some? && SearchTitles(search, q.entity, false).Some?
    requires var e, p := SearchTitles(search, q.entity, false).value, SearchTitles(search, q.prop, true).value;
      forall pair :: pair in Cross(e, p) ==> RunPair(exec, q.qtype, pair) == Ok([])
    ensures QueryAnswer(search, exec, q) == Raise(NoAnswerError(NoAnswer))
  {
    var e, p := SearchTitles(search, q.entity, false).value, SearchTitles(search, q.prop, true).value;
    ExhaustedIffAllEmpty(Cross(e, p), pr => RunPair(exec, q.qtype, pr));
  }

  /** The solver: strip the question, parse it, query; any exception, and a
      question no pattern matches, gives None. The timestamp loop after the
      query has no effect on the answers. */
  function Solve(question: string, annotate: Annotator, matcher: Matcher, search: Search, exec: Executor): Option<seq<string>> {
    var doc := annotate(StripQuestion(question));
    match Parse(doc, matcher(doc))
    case Raise(_) => None
    case Ok(None) => None
    case Ok(Some(q)) =>
      match QueryAnswer(search, exec, q)
      case Raise(_) => None
      case Ok(answers) => Some(answers)
  }

  /** A question whose last match is WHO_DID_X is never answered. */
  lemma WhoDidXUnanswered(question: string, annotate: Annotator, matcher: Matcher, search: Search, exec: Executor)
    requires var doc := annotate(StripQuestion(question));
      matcher(doc) != [] && matcher(doc)[|matcher(doc)| - 1].id == WhoDidX
    ensures Solve(question, annotate, matcher, search, exec) == None
  {
    var doc := annotate(StripQuestion(question));
    ParseLastWhoDidX(doc, matcher(doc));
    SolveParseFails(question, annotate, matcher, search, exec);
  }

  lemma ParseLastWhoDidX(doc: Doc, ms: seq<Match<Pattern>>)
    requires ms != [] && ms[|ms| - 1].id == WhoDidX
    ensures Parse(doc, ms).Raise?
  {
    LastMatchUsed(doc, ms[..|ms| - 1], ms[|ms| - 1]);
    assert ms[..|ms| - 1] + [ms[|ms| - 1]] == ms;
    WhoDidXFails(doc, ms[|ms| - 1]);
  }

  /** A question that does not parse gets `None`. */
  lemma SolveParseFails(question: string, annotate: Annotator, matcher: Matcher, search: Search, exec: Executor)
    requires var doc := annotate(StripQuestion(question)); Parse(doc, matcher(doc)).Raise?
    ensures Solve(question, annotate, matcher, search, exec) == None
  {
  }

  /** When the question parses to `q` and, with entity titles E and property
      titles P, (E[i], P[j]) is the first pair whose query has bindings, the
      answer is every value of those bindings, as `query_answer` returns
      them: the timestamp loop does not change the list. */
  lemma SolveAnswers(question: string, annotate: Annotator, matcher: Matcher, search: Search, exec: Executor,
                     q: Question, i: nat, j: nat)
    requires var doc := annotate(StripQuestion(question)); Parse(doc, matcher(doc)) == Ok(Some(q))
    requires SearchTitles(search, q.prop, true).Some? && SearchTitles(search, q.entity, false).Some?
    requires var e, p := SearchTitles(search, q.entity, false).value, SearchTitles(search, q.prop, true).value;
      && i < |e| && j < |p|
      && (forall a, b :: 0 <= a < |e| && 0 <= b < |p| && (a < i || (a == i && b < j)) ==>
            RunPair(exec, q.qtype, Pair(e[a], p[b])) == Ok([]))
      && RunPair(exec, q.qtype, Pair(e[i], p[j])).Ok? && RunPair(exec, q.qtype, Pair(e[i], p[j])).value != []
    ensures var e, p := SearchTitles(search, q.entity, false).value, SearchTitles(search, q.prop, true).value;
      Solve(question, annotate, matcher, search, exec) == Some(Values(RunPair(exec, q.qtype, Pair(e[i], p[j])).value))
  {
    QueryAnswerFirstPair(search, exec, q, i, j);
  }

  /** Any exception from `query_answer` is swallowed by the bare `except`
      and the solver returns None. */
  lemma SolveQueryRaises(question: string, annotate: Annotator, matcher: Matcher, search: Search, exec: Executor, q: Question)
    requires var doc := annotate(StripQuestion(question)); Parse(doc, matcher(doc)) == Ok(Some(q))
    requires QueryAnswer(search, exec, q).Raise?
    ensures Solve(question, annotate, matcher, search, exec) == None
  {
  }
}
