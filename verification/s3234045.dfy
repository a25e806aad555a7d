/** s3234045.py: the first matcher hit picks an extractor, the relation goes
    through the normaliser, the two phrases are searched, entity-property
    pairs are queried until one has bindings, and the answer labels are
    printed (timestamps as month/day/year). */
module S3234045 {
  import opened Python
  import opened Tokens
  import Extract
  import opened Normaliser
  import opened Resolve
  import opened Bindings
  import opened Controller
  import opened Format
  import opened Queries

  /** The patterns registered with the matcher. */
  datatype Pattern = WhenWhere | XOfY | WhoDidX

  type Annotator = string -> Doc

  type Matcher = Doc -> seq<Match<Pattern>>

  const IllFormed: string := "Question is ill-formed, cannot answer this question"

  /** The message of a NoAnswerError raised without arguments. */
  const NoAnswer: string := "Could not find an answer to this question."

  /** `parse_question`: the relation phrase and the entity phrase. */
  function ParseQuestion(doc: Doc, matches: seq<Match<Pattern>>): (r: Result<(string, string)>)
    ensures r == Raise(NoAnswerError(IllFormed)) <==> matches == []
    ensures r.Raise? ==> r.error == NoAnswerError(IllFormed) || r.error == StopIteration
  {
    if |matches| == 0 then Raise(NoAnswerError(IllFormed))
    else
      var m := matches[0];
      var x :- match m.id
        case WhenWhere => Extract.WhenWhere(doc)
        case XOfY => Extract.XOfY(doc)
        case WhoDidX => Extract.WhoDidX(doc, m.end);
      Ok((TranslateQuery(StopWordsPlain, x.relation), JoinSpace(RemoveStopWords(StopWordsPlain, x.entity))))
  }

  /** Only the first match counts: later matches never change the parse. */
  lemma FirstMatchUsed(doc: Doc, m: Match<Pattern>, rest: seq<Match<Pattern>>)
    ensures ParseQuestion(doc, [m] + rest) == ParseQuestion(doc, [m])
  {
    assert ([m] + rest)[0] == m;
  }

  /** A WHEN_WHERE question: the relation is the normalised pair of the first
      and last lemmas, and the entity is the first subject's subtree with stop
      words removed, joined by spaces. */
  lemma WhenWhereQuestion(doc: Doc, s: nat, m: Match<Pattern>, rest: seq<Match<Pattern>>)
    requires m.id == WhenWhere
    requires s < |doc| && Extract.IsSubject(doc[s])
    requires forall k :: 0 <= k < s ==> !Extract.IsSubject(doc[k])
    ensures ParseQuestion(doc, [m] + rest) == Ok((
      TranslateQuery(StopWordsPlain, [doc[0].lemmaForm, doc[|doc| - 1].lemmaForm]),
      JoinSpace(RemoveStopWords(StopWordsPlain, Texts(doc, Subtree(doc, s))))))
  {
    FirstMatchUsed(doc, m, rest);
    Extract.WhenWhereSubject(doc, s);
  }

  /** A WHO_DID_X question: the relation is the normalised pair of "who" and
      the lemma of the first ROOT token, and the entity is the words after the
      match with stop words removed, joined by spaces. */
  lemma WhoDidXQuestion(doc: Doc, root: nat, m: Match<Pattern>, rest: seq<Match<Pattern>>)
    requires m.id == WhoDidX
    requires root < |doc| && Extract.IsRoot(doc[root])
    requires forall k :: 0 <= k < root ==> !Extract.IsRoot(doc[k])
    ensures ParseQuestion(doc, [m] + rest) == Ok((
      TranslateQuery(StopWordsPlain, ["who", doc[root].lemmaForm]),
      JoinSpace(RemoveStopWords(StopWordsPlain, TokenTexts(Slice(doc, m.end, |doc|))))))
  {
    FirstMatchUsed(doc, m, rest);
    Extract.WhoDidXRoot(doc, m.end, root);
  }

  /** "Who directed ...": a ROOT token whose lemma is an agent verb makes the
      relation the `trans_dict` entry, so "direct" gives "director". */
  lemma WhoDirectedQuestion(doc: Doc, root: nat, m: Match<Pattern>, rest: seq<Match<Pattern>>)
    requires m.id == WhoDidX
    requires root < |doc| && Extract.IsRoot(doc[root])
    requires forall k :: 0 <= k < root ==> !Extract.IsRoot(doc[k])
    requires doc[root].lemmaForm in {"direct", "write", "compose", "invent"}
    ensures ParseQuestion(doc, [m] + rest).Ok?
    ensures ParseQuestion(doc, [m] + rest).value.0 == Translation(doc[root].lemmaForm)
    ensures doc[root].lemmaForm == "direct" ==> ParseQuestion(doc, [m] + rest).value.0 == "director"
  {
    WhoDidXQuestion(doc, root, m, rest);
    AgentNotStop(doc[root].lemmaForm);
    WhoAgent(StopWordsPlain, doc[root].lemmaForm);
  }

  /** The query for one pair: the answer-label query formatted with the
      entity id and the property id. */
  function PairQuery(pair: Pair): Result<string> {
    FormatString(Render(AnswerLabelQuery), [pair.entity, pair.prop])
  }

  function RunPair(exec: Executor, pair: Pair): Result<seq<Row>> {
    var q :- PairQuery(pair);
    Ok(exec(q))
  }

  /** `query_answer`: the bindings of the first entity-property pair, in
      entity-major order, whose query returns any. */
  function QueryAnswer(search: Search, exec: Executor, prop: string, entity: string): (r: Result<seq<Row>>)
    ensures SearchTitles(search, prop, true).None? || SearchTitles(search, entity, false).None?
      ==> r == Raise(NoAnswerError(NoAnswer))
    ensures r.Ok? ==> r.value != []
  {
    var props := SearchTitles(search, prop, true);
    var ents := SearchTitles(search, entity, false);
    if props.None? || ents.None? then Raise(NoAnswerError(NoAnswer))
    else match FirstAnswer(Cross(ents.value, props.value), p => RunPair(exec, p))
      case Answered(rows, _) => Ok(rows)
      case Exhausted(_) => Raise(NoAnswerError(NoAnswer))
      case Failed(e, _) => Raise(e)
  }

  /** Every pair's query is well formed: formatting never raises, and the
      ids land in the `wd:` and `wdt:` positions. */
  lemma RunPairOk(exec: Executor, pair: Pair)
    ensures RunPair(exec, pair) ==
      Ok(exec(LabelQueryHead + pair.entity + LabelQueryMiddle + pair.prop + LabelQueryTail))
  {
    AnswerLabelFormat(pair.entity, pair.prop, []);
    assert [pair.entity, pair.prop] + [] == [pair.entity, pair.prop];
  }

  /** With entity titles E and property titles P, when (E[i], P[j]) is the
      first pair in entity-major order whose query has bindings, those
      bindings are the answer, and exactly the i * |P| + j + 1 pairs up to it
      were queried. */
  lemma QueryAnswerFirstPair(search: Search, exec: Executor, prop: string, entity: string, i: nat, j: nat)
    requires SearchTitles(search, prop, true).Some? && SearchTitles(search, entity, false).Some?
    requires var e, p := SearchTitles(search, entity, false).value, SearchTitles(search, prop, true).value;
      && i < |e| && j < |p|
      && (forall a, b :: 0 <= a < |e| && 0 <= b < |p| && (a < i || (a == i && b < j)) ==>
            RunPair(exec, Pair(e[a], p[b])) == Ok([]))
      && RunPair(exec, Pair(e[i], p[j])).Ok? && RunPair(exec, Pair(e[i], p[j])).value != []
    ensures var e, p := SearchTitles(search, entity, false).value, SearchTitles(search, prop, true).value;
      && QueryAnswer(search, exec, prop, entity) == RunPair(exec, Pair(e[i], p[j]))
      && |FirstAnswer(Cross(e, p), pr => RunPair(exec, pr)).trace| == i * |p| + j + 1
  {
    var e, p := SearchTitles(search, entity, false).value, SearchTitles(search, prop, true).value;
    ShortCircuit(e, p, pr => RunPair(exec, pr), i, j);
  }

  /** When every pair's query comes back empty, the answer is NoAnswerError. */
  lemma QueryAnswerExhausted(search: Search, exec: Executor, prop: string, entity: string)
    requires SearchTitles(search, prop, true).Some? && SearchTitles(search, entity, false).Some?
    requires var e, p := SearchTitles(search, entity, false).value, SearchTitles(search, prop, true).value;
      forall pair :: pair in Cross(e, p) ==> RunPair(exec, pair) == Ok([])
    ensures QueryAnswer(search, exec, prop, entity) == Raise(NoAnswerError(NoAnswer))
  {
    var e, p := SearchTitles(search, entity, false).value, SearchTitles(search, prop, true).value;
    ExhaustedIffAllEmpty(Cross(e, p), pr => RunPair(exec, pr));
  }

  /** `answer_question`: the question is stripped of surrounding whitespace
      and then of spaces and question marks; a NoAnswerError prints its
      message; any other exception escapes. */
  function AnswerQuestion(question: string, annotate: Annotator, matcher: Matcher, search: Search, exec: Executor): Printed {
    var q := StripQuestion(question);
    var doc := annotate(q);
    match ParseQuestion(doc, matcher(doc))
    case Raise(e) => Caught(e)
    case Ok(parsed) =>
      match QueryAnswer(search, exec, parsed.0, parsed.1)
      case Raise(e) => Caught(e)
      case Ok(rows) => PrintLabels(rows)
  }

  /** What the handler does with an exception: a NoAnswerError has its
      message printed, and any other exception escapes with nothing printed. */
  function Caught(e: PyError): Printed {
    match e
    case NoAnswerError(msg) => Printed([msg], None)
    case _ => Printed([], Some(e))
  }

  /** Querying raises nothing but NoAnswerError: every pair's query formats. */
  lemma QueryAnswerRaises(search: Search, exec: Executor, prop: string, entity: string)
    ensures QueryAnswer(search, exec, prop, entity).Raise? ==>
      QueryAnswer(search, exec, prop, entity).error == NoAnswerError(NoAnswer)
  {
    var props := SearchTitles(search, prop, true);
    var ents := SearchTitles(search, entity, false);
    if props.Some? && ents.Some? {
      var s := FirstAnswer(Cross(ents.value, props.value), p => RunPair(exec, p));
      if s.Failed? {
        RunPairOk(exec, s.trace[|s.trace| - 1]);
      }
    }
  }

  /** The only exceptions that escape `answer_question` are StopIteration from
      an extractor without its anchor token and KeyError from a row without
      an `answerLabel` value. */
  lemma AnswerQuestionEscapes(question: string, annotate: Annotator, matcher: Matcher, search: Search, exec: Executor)
    ensures var p := AnswerQuestion(question, annotate, matcher, search, exec);
      p.escaped.Some? ==> p.escaped.value == StopIteration || p.escaped.value == KeyError
  {
    var doc := annotate(StripQuestion(question));
    var parsed := ParseQuestion(doc, matcher(doc));
    if parsed.Ok? {
      QueryAnswerRaises(search, exec, parsed.value.0, parsed.value.1);
    }
  }
}
