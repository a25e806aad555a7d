/** s3225143.py: the first named entity loses a trailing "'s" and is searched;
    every matcher span is trimmed and turned into an attribute lemma, the
    first attribute is searched as a property, and the entity-attribute pairs
    are queried until one returns values. */
module S3225143 {
  import opened Python
  import opened Tokens
  import opened Resolve
  import opened Bindings
  import opened Controller
  import opened Format

  // ---------------------------------------------------------------------------
  // get_entities

  /** An entity name without a trailing possessive "'s"; any other name is
      kept as it is. */
  function StripPossessive(ent: string): (r: string)
    ensures r == if EndsWith(ent, "'s") then ent[..|ent| - 2] else ent
  {
    if Slice(ent, -2, |ent|) == "'s" then Slice(ent, 0, -2) else ent
  }

  /** Removing a possessive ending gives the name back; a name without one is
      left as it is. */
  lemma StripPossessiveOf(w: string)
    ensures StripPossessive(w + "'s") == w
    ensures !EndsWith(w, "'s") ==> StripPossessive(w) == w
  {
    assert (w + "'s")[..|w|] == w;
  }

  function BetterEntities(doc: seq<Token>): (r: seq<string>)
    ensures |r| == |EntityTexts(doc)|
    ensures forall k :: 0 <= k < |r| ==> r[k] == StripPossessive(EntityTexts(doc)[k])
  {
    var ents := EntityTexts(doc);
    seq(|ents|, k requires 0 <= k < |ents| => StripPossessive(ents[k]))
  }

  /** `get_entities`: the item ids for the first entity, `None` when the
      question has no entity. An empty search gives an empty list, not `None`. */
  function GetEntities(doc: seq<Token>, search: Search): (r: Option<seq<string>>)
    ensures r.None? <==> EntityTexts(doc) == []
    ensures r.Some? ==> r.value == search(StripPossessive(EntityTexts(doc)[0]), Item)
  {
    var better := BetterEntities(doc);
    if |better| == 0 then None else Some(search(better[0], Item))
  }

  // ---------------------------------------------------------------------------
  // get_attributes

  /** The span of one match after trimming: a leading "'s", "the" or "'" is
      skipped, and a trailing "of" is dropped. Reading the first or last token
      of the reported span raises IndexError when it is outside the question. */
  function TrimSpan(doc: seq<Token>, m: Match<string>): (r: Result<(int, int)>)
    ensures r.Ok? <==> Index(doc, m.start).Ok? && Index(doc, m.end - 1).Ok?
    ensures r.Raise? ==> r.error == IndexError
    ensures r.Ok? ==> r.value.0 == (if doc[m.start].text in {"'s", "the", "'"} then m.start + 1 else m.start)
    ensures r.Ok? ==> r.value.1 == (if Index(doc, m.end - 1).value.text == "of" then m.end - 1 else m.end)
  {
    var first :- Index(doc, m.start);
    var start := if first.text in {"'s", "the", "'"} then m.start + 1 else m.start;
    var last :- Index(doc, m.end - 1);
    var end := if last.text == "of" then m.end - 1 else m.end;
    Ok((start, end))
  }

  predicate NounArgument(t: Token) {
    t.pos == "NOUN" && (t.dep == "nsubj" || t.dep == "dobj")
  }

  function Lemmas(ts: seq<Token>): (r: seq<string>)
    ensures |r| == |ts|
    ensures forall k :: 0 <= k < |ts| ==> r[k] == ts[k].lemmaForm
  {
    seq(|ts|, k requires 0 <= k < |ts| => ts[k].lemmaForm)
  }

  /** `span.lemma_`: the token lemmas joined by spaces, stripped. */
  function SpanLemma(ts: seq<Token>): string {
    Strip(JoinSpace(Lemmas(ts)), Whitespace)
  }

  /** The attribute of one match. When the trimmed span ends in an auxiliary
      or the root, it is the lemma of the span's first noun subject or object;
      without one, `matched_span` still holds the previous match's value
      (`carried`), and on the first match it is unbound. Otherwise it is the
      lemma of the whole trimmed span. */
  function MatchAttribute(doc: seq<Token>, m: Match<string>, carried: Option<string>): (r: Result<string>)
    ensures r.Raise? ==> r.error in {IndexError, UnboundLocalError}
    ensures r == Raise(UnboundLocalError) ==> carried.None?
  {
    var span :- TrimSpan(doc, m);
    var last :- Index(doc, span.1 - 1);
    Select(Slice(doc, span.0, span.1), last, carried)
  }

  /** The choice between the first noun argument and the whole span, given
      the trimmed span's tokens and its last token. */
  function Select(tokens: seq<Token>, last: Token, carried: Option<string>): (r: Result<string>)
    ensures r.Raise? ==> r == Raise(UnboundLocalError) && carried.None?
  {
    if last.dep == "aux" || last.dep == "ROOT" then
      match First(tokens, NounArgument)
      case Some(k) => Ok(tokens[k].lemmaForm)
      case None => if carried.Some? then Ok(carried.value) else Raise(UnboundLocalError)
    else Ok(SpanLemma(tokens))
  }

  /** Inside the question, a trimmed span selects from its own tokens. */
  lemma MatchSelects(doc: seq<Token>, m: Match<string>, carried: Option<string>, s: int, e: int)
    requires TrimSpan(doc, m) == Ok((s, e))
    requires 0 <= s <= e && 0 < e <= |doc|
    ensures MatchAttribute(doc, m, carried) == Select(doc[s..e], doc[e - 1], carried)
  {
    assert Slice(doc, s, e) == doc[s..e];
    assert Index(doc, e - 1) == Ok(doc[e - 1]);
  }

  /** The loop over all matches; `matched_span` survives from one iteration
      to the next. */
  function Attributes(doc: seq<Token>, matches: seq<Match<string>>, carried: Option<string>): (r: Result<seq<string>>)
    ensures r.Ok? ==> |r.value| == |matches|
    ensures r.Ok? && |matches| > 0 ==> MatchAttribute(doc, matches[0], carried) == Ok(r.value[0])
    decreases |matches|
  {
    if |matches| == 0 then Ok([])
    else
      var a :- MatchAttribute(doc, matches[0], carried);
      var rest :- Attributes(doc, matches[1..], Some(a));
      Ok([a] + rest)
  }

  /** `get_attributes`: the property ids for the first attribute, `None` when
      there is no match. Every match is processed first, so a later match can
      still raise. */
  function GetAttributes(doc: seq<Token>, matches: seq<Match<string>>, search: Search): Result<Option<seq<string>>> {
    var atts :- Attributes(doc, matches, None);
    if |atts| == 0 then Ok(None) else Ok(Some(search(atts[0], Property)))
  }

  /** When all matches are processed without an exception, only the first
      one's attribute is searched, and `None` means there was no match. */
  lemma FirstAttributeSearched(doc: seq<Token>, matches: seq<Match<string>>, search: Search)
    requires Attributes(doc, matches, None).Ok?
    ensures GetAttributes(doc, matches, search).Ok?
    ensures GetAttributes(doc, matches, search).value.None? <==> matches == []
    ensures matches != [] ==>
      GetAttributes(doc, matches, search).value
        == Some(search(MatchAttribute(doc, matches[0], None).value, Property))
  {
  }

  /** A span ending in an auxiliary or the root whose trimmed tokens hold a
      noun subject or object: the attribute is the lemma of the first such
      noun. */
  lemma NounAttribute(doc: seq<Token>, m: Match<string>, carried: Option<string>, s: int, e: int, k: nat)
    requires TrimSpan(doc, m) == Ok((s, e))
    requires 0 <= s && s + k < e <= |doc|
    requires doc[e - 1].dep == "aux" || doc[e - 1].dep == "ROOT"
    requires NounArgument(doc[s + k])
    requires forall j :: s <= j < s + k ==> !NounArgument(doc[j])
    ensures MatchAttribute(doc, m, carried) == Ok(doc[s + k].lemmaForm)
  {
    MatchSelects(doc, m, carried, s, e);
    var tokens := doc[s..e];
    assert forall j :: 0 <= j < |tokens| ==> tokens[j] == doc[s + j];
    FirstIs(tokens, NounArgument, k);
  }

  /** On the first match, a span ending in an auxiliary or the root without
      a noun subject or object leaves `matched_span` unbound. */
  lemma FirstMatchUnbound(doc: seq<Token>, m: Match<string>, s: int, e: int)
    requires TrimSpan(doc, m) == Ok((s, e))
    requires 0 <= s <= e && 0 < e <= |doc|
    requires doc[e - 1].dep == "aux" || doc[e - 1].dep == "ROOT"
    requires forall j :: s <= j < e ==> !NounArgument(doc[j])
    ensures MatchAttribute(doc, m, None) == Raise(UnboundLocalError)
  {
    MatchSelects(doc, m, None, s, e);
    var tokens := doc[s..e];
    assert forall j :: 0 <= j < |tokens| ==> tokens[j] == doc[s + j];
  }

  /** On a later match without a noun subject or object, the attribute of
      the match before it is used again. */
  lemma CarriedAttribute(doc: seq<Token>, m: Match<string>, previous: string, s: int, e: int)
    requires TrimSpan(doc, m) == Ok((s, e))
    requires 0 <= s <= e && 0 < e <= |doc|
    requires doc[e - 1].dep == "aux" || doc[e - 1].dep == "ROOT"
    requires forall j :: s <= j < e ==> !NounArgument(doc[j])
    ensures MatchAttribute(doc, m, Some(previous)) == Ok(previous)
  {
    MatchSelects(doc, m, Some(previous), s, e);
    var tokens := doc[s..e];
    assert forall j :: 0 <= j < |tokens| ==> tokens[j] == doc[s + j];
  }

  /** A span that does not end in an auxiliary or the root gives the lemma
      of the whole trimmed span. */
  lemma SpanAttribute(doc: seq<Token>, m: Match<string>, carried: Option<string>, s: int, e: int)
    requires TrimSpan(doc, m) == Ok((s, e))
    requires 0 <= s <= e && 0 < e <= |doc|
    requires doc[e - 1].dep != "aux" && doc[e - 1].dep != "ROOT"
    ensures MatchAttribute(doc, m, carried) == Ok(SpanLemma(doc[s..e]))
  {
    MatchSelects(doc, m, carried, s, e);
  }

  // ---------------------------------------------------------------------------
  // do_query, get_answer, create_and_fire_query

  const QueryHead: string := "SELECT ?answerLabel WHERE {\n    wd:"
  const QueryStatement: string := "    p:"
  const QueryValue: string := "   ?statement .\n    ?statement ps:"
  const QueryTail: string :=
    " ?answer\n\n    SERVICE wikibase:label {\n    bd:serviceParam wikibase:language \"en\" .\n}\n}"

  /** The statement query with numbered fields: the entity id is `{0}`, and
      the property id is both `{1}` and `{2}`. */
  const StatementQuery: Template :=
    [Text(QueryHead), Field(0), Text(QueryStatement), Field(1), Text(QueryValue), Field(2), Text(QueryTail)]

  /** `do_query`: every value of every row, in order. */
  function DoQuery(exec: Executor, ent: string, atr: string): Result<seq<string>> {
    var q :- FormatString(Render(StatementQuery), [ent, atr, atr]);
    Ok(Values(exec(q)))
  }

  /** The property id is substituted twice, after `p:` and after `ps:`. */
  lemma DoQueryOk(exec: Executor, ent: string, atr: string)
    ensures DoQuery(exec, ent, atr)
      == Ok(Values(exec(QueryHead + ent + QueryStatement + atr + QueryValue + atr + QueryTail)))
  {
    StatementQueryFormat(ent, atr);
  }

  lemma StatementQueryFormat(e: string, a: string)
    ensures FormatString(Render(StatementQuery), [e, a, a])
      == Ok(QueryHead + e + QueryStatement + a + QueryValue + a + QueryTail)
  {
    FormatThreeManual(QueryHead, QueryStatement, QueryValue, QueryTail, e, a, a);
  }

  /** `get_answer`: the values of the first entity-attribute pair, entity
      outer, that returns any; `None` when every pair returns nothing. */
  function GetAnswer(attributes: seq<string>, entities: seq<string>, exec: Executor): Result<Option<seq<string>>> {
    match FirstAnswer(Cross(entities, attributes), (p: Pair) => DoQuery(exec, p.entity, p.prop))
    case Answered(vs, _) => Ok(Some(vs))
    case Exhausted(_) => Ok(None)
    case Failed(e, _) => Raise(e)
  }

  /** With entity ids E and property ids A, when (E[i], A[j]) is the first
      pair whose query returns values, those values are the answer and no
      later pair is queried. */
  lemma GetAnswerFirstPair(attributes: seq<string>, entities: seq<string>, exec: Executor, i: nat, j: nat)
    requires i < |entities| && j < |attributes|
    requires forall a, b :: 0 <= a < |entities| && 0 <= b < |attributes| && (a < i || (a == i && b < j)) ==>
      DoQuery(exec, entities[a], attributes[b]) == Ok([])
    requires DoQuery(exec, entities[i], attributes[j]).Ok? && DoQuery(exec, entities[i], attributes[j]).value != []
    ensures GetAnswer(attributes, entities, exec) == Ok(Some(DoQuery(exec, entities[i], attributes[j]).value))
    ensures |FirstAnswer(Cross(entities, attributes), (p: Pair) => DoQuery(exec, p.entity, p.prop)).trace|
      == i * |attributes| + j + 1
  {
    ShortCircuit(entities, attributes, (p: Pair) => DoQuery(exec, p.entity, p.prop), i, j);
  }

  /** `None` exactly when every pair's query returns no value. */
  lemma GetAnswerNone(attributes: seq<string>, entities: seq<string>, exec: Executor)
    ensures GetAnswer(attributes, entities, exec) == Ok(None) <==>
      forall p :: p in Cross(entities, attributes) ==> DoQuery(exec, p.entity, p.prop) == Ok([])
  {
    var pairs := Cross(entities, attributes);
    var run := (p: Pair) => DoQuery(exec, p.entity, p.prop);
    ExhaustedIffAllEmpty(pairs, run);
    var s := FirstAnswer(pairs, run);
    if s.Failed? {
      var p := s.trace[|s.trace| - 1];
      DoQueryOk(exec, p.entity, p.prop);
    }
  }

  /** `create_and_fire_query`: the entities are looked up first, then the
      attributes (whose exceptions escape); `None` from either gives `None`. */
  function CreateAndFireQuery(doc: seq<Token>, matches: seq<Match<string>>, search: Search, exec: Executor): (r: Result<Option<seq<string>>>)
    ensures GetAttributes(doc, matches, search).Raise? ==> r == GetAttributes(doc, matches, search)
    ensures GetAttributes(doc, matches, search) == Ok(None) ==> r == Ok(None)
    ensures GetAttributes(doc, matches, search).Ok? && EntityTexts(doc) == [] ==> r == Ok(None)
    ensures r.Ok? && r.value.Some? ==> r.value.value != []
    ensures (GetAttributes(doc, matches, search).Ok? && GetAttributes(doc, matches, search).value.Some?
             && EntityTexts(doc) != []) ==>
      r == GetAnswer(GetAttributes(doc, matches, search).value.value,
                     search(StripPossessive(EntityTexts(doc)[0]), Item), exec)
  {
    var entityList := GetEntities(doc, search);
    var attributeList :- GetAttributes(doc, matches, search);
    if attributeList.None? then Ok(None)
    else if entityList.None? then Ok(None)
    else GetAnswer(attributeList.value, entityList.value, exec)
  }

  /** With property ids A from the first attribute and item ids E from the
      first entity, the answer is the values of the first pair (E[i], A[j]),
      entity outer, whose query returns any. */
  lemma CreateAndFireQueryFirstPair(doc: seq<Token>, matches: seq<Match<string>>, search: Search, exec: Executor,
                                    attributes: seq<string>, i: nat, j: nat)
    requires GetAttributes(doc, matches, search) == Ok(Some(attributes))
    requires EntityTexts(doc) != []
    requires var entities := search(StripPossessive(EntityTexts(doc)[0]), Item);
      && i < |entities| && j < |attributes|
      && (forall a, b :: 0 <= a < |entities| && 0 <= b < |attributes| && (a < i || (a == i && b < j)) ==>
            DoQuery(exec, entities[a], attributes[b]) == Ok([]))
      && DoQuery(exec, entities[i], attributes[j]).Ok? && DoQuery(exec, entities[i], attributes[j]).value != []
    ensures var entities := search(StripPossessive(EntityTexts(doc)[0]), Item);
      CreateAndFireQuery(doc, matches, search, exec) == Ok(Some(DoQuery(exec, entities[i], attributes[j]).value))
  {
    GetAnswerFirstPair(attributes, search(StripPossessive(EntityTexts(doc)[0]), Item), exec, i, j);
  }

  /** When both lists are found but no pair's query returns a value, the
      answer is `None`. */
  lemma CreateAndFireQueryExhausted(doc: seq<Token>, matches: seq<Match<string>>, search: Search, exec: Executor,
                                    attributes: seq<string>)
    requires GetAttributes(doc, matches, search) == Ok(Some(attributes))
    requires EntityTexts(doc) != []
    requires var entities := search(StripPossessive(EntityTexts(doc)[0]), Item);
      forall p :: p in Cross(entities, attributes) ==> DoQuery(exec, p.entity, p.prop) == Ok([])
    ensures CreateAndFireQuery(doc, matches, search, exec) == Ok(None)
  {
    GetAnswerNone(attributes, search(StripPossessive(EntityTexts(doc)[0]), Item), exec);
  }

  /** Querying raises nothing: every pair's query formats. */
  lemma GetAnswerOk(attributes: seq<string>, entities: seq<string>, exec: Executor)
    ensures GetAnswer(attributes, entities, exec).Ok?
  {
    var s := FirstAnswer(Cross(entities, attributes), (p: Pair) => DoQuery(exec, p.entity, p.prop));
    if s.Failed? {
      var p := s.trace[|s.trace| - 1];
      DoQueryOk(exec, p.entity, p.prop);
    }
  }
}
