/** s3254259.py: each input line is cleaned up; the entity name is the
    B/I-tagged tokens joined by spaces; each matched span, with the entity
    name and "How"/"Was" removed, is tried as a property until the property
    and entity lookups and the query all succeed. */
module S3254259 {
  import opened Python
  import opened Tokens
  import opened Resolve
  import opened Bindings
  import opened Format

  // ---------------------------------------------------------------------------
  // The input loop

  /** The clean-up of each input line, in source order: " ?" and "?" are
      removed, " the " becomes " ", "'s" is removed, and trailing whitespace
      is stripped. */
  function Preprocess(line: string): string {
    var noSpacedMark := Replace(line, " ?", "");
    var noMark := Replace(noSpacedMark, "?", "");
    var noThe := Replace(noMark, " the ", " ");
    var noPossessive := Replace(noThe, "'s", "");
    RStrip(noPossessive, Whitespace)
  }

  /** A replacement whose subject and replacement both lack `c` lacks `c`. */
  lemma ReplaceKeepsAbsent(s: string, pat: string, rep: string, c: char)
    requires c !in s && c !in rep
    ensures c !in Replace(s, pat, rep)
  {
    if c in Replace(s, pat, rep) {
      ReplaceChars(s, pat, rep, c);
    }
  }

  /** A cleaned-up line holds no question mark. */
  lemma PreprocessNoQuestionMark(line: string)
    ensures '?' !in Preprocess(line)
  {
    var noSpacedMark := Replace(line, " ?", "");
    var noMark := Replace(noSpacedMark, "?", "");
    var noThe := Replace(noMark, " the ", " ");
    var noPossessive := Replace(noThe, "'s", "");
    ReplaceRemovesChar(noSpacedMark, '?', "");
    ReplaceKeepsAbsent(noMark, " the ", " ", '?');
    ReplaceKeepsAbsent(noThe, "'s", "", '?');
    var r := RStrip(noPossessive, Whitespace);
    assert forall k :: 0 <= k < |r| ==> r[k] == noPossessive[k];
  }

  /** A line that holds none of the patterns is only right-stripped. */
  lemma PreprocessPlain(line: string)
    requires !Contains(line, " ?") && '?' !in line && !Contains(line, " the ") && !Contains(line, "'s")
    ensures Preprocess(line) == RStrip(line, Whitespace)
  {
    ReplaceAbsent(line, " ?", "");
    ContainsChar(line, '?');
    ReplaceAbsent(line, "?", "");
    ReplaceAbsent(line, " the ", " ");
    ReplaceAbsent(line, "'s", "");
  }

  lemma {:induction false} ContainsChar(s: string, c: char)
    ensures Contains(s, [c]) <==> c in s
    decreases |s|
  {
    if |s| > 0 {
      ContainsChar(s[1..], c);
      assert s == [s[0]] + s[1..];
    }
  }

  /** Replacing a non-empty pattern that does not occur changes nothing. */
  lemma {:induction false} ReplaceAbsent(s: string, pat: string, rep: string)
    requires |pat| > 0 && !Contains(s, pat)
    ensures Replace(s, pat, rep) == s
    decreases |s|
  {
    if |s| >= |pat| {
      ReplaceAbsent(s[1..], pat, rep);
      assert s == [s[0]] + s[1..];
    }
  }

  // ---------------------------------------------------------------------------
  // create_and_fire_query

  /** The entity name: the texts of the tokens inside a named entity, in
      question order, separated by single spaces. */
  function EntityName(doc: seq<Token>): string {
    JoinSpace(TokenTexts(EntityTokens(doc)))
  }

  /** The entity name splits back into the tagged tokens' texts, in order,
      when those are words without whitespace. */
  lemma EntityNameWords(doc: seq<Token>)
    requires forall k :: 0 <= k < |doc| ==> InEntity(doc[k]) ==> |doc[k].text| > 0 && NoSpace(doc[k].text)
    ensures Split(EntityName(doc)) == TokenTexts(EntityTokens(doc))
  {
    var ts := EntityTokens(doc);
    EntityTokensFrom(doc);
    SplitJoinSpace(TokenTexts(ts));
  }

  lemma {:induction false} EntityTokensFrom(doc: seq<Token>)
    ensures forall k :: 0 <= k < |EntityTokens(doc)| ==> EntityTokens(doc)[k] in doc
    decreases |doc|
  {
    if |doc| > 0 {
      EntityTokensFrom(doc[1..]);
      assert forall t :: t in doc[1..] ==> t in doc;
    }
  }

  /** The text of each matched span, in match order. */
  function SpanTexts<P>(doc: seq<Token>, matches: seq<Match<P>>): (r: seq<string>)
    ensures |r| == |matches|
    ensures forall k :: 0 <= k < |r| ==> r[k] == SpanText(Slice(doc, matches[k].start, matches[k].end))
  {
    seq(|matches|, k requires 0 <= k < |matches| => SpanText(Slice(doc, matches[k].start, matches[k].end)))
  }

  /** A span with the entity name removed when it occurs, then "How" and
      "Was" removed. */
  function CleanSpan(span: string, name: string): string {
    var withoutName := if Contains(span, name) then Replace(span, name, "") else span;
    Replace(Replace(withoutName, "How", ""), "Was", "")
  }

  /** A span without the entity name, "How" or "Was" is left as it is. */
  lemma CleanSpanPlain(span: string, name: string)
    requires |name| > 0 && !Contains(span, name)
    requires !Contains(span, "How") && !Contains(span, "Was")
    ensures CleanSpan(span, name) == span
  {
    ReplaceAbsent(span, "How", "");
    ReplaceAbsent(span, "Was", "");
  }

  /** A Python value, as far as the guard `a != 'How'` needs one. */
  datatype Value = Str(s: string) | List(items: seq<string>)

  /** The guard `a != 'How'` compares the list of span texts with a string,
      so it is always true, however the spans read; the loop below therefore
      tries every span. */
  function Guard(spans: seq<string>): (b: bool)
    ensures b
  {
    List(spans) != Str("How")
  }

  /** One span: the property id for its right-stripped text, then the item id
      for the right-stripped entity name, then the answer. Any exception
      (an empty search gives IndexError) moves on to the next span. */
  function TrySpan(span: string, name: string, search: Search, exec: Executor): Result<seq<string>> {
    var prop :- FirstId(search, RStrip(span, Whitespace), Property);
    var ent :- FirstId(search, RStrip(name, Whitespace), Item);
    Answer(exec, prop, ent)
  }

  /** The loop over the span texts from `k` on: the first span that gets
      through every lookup gives the answer; `None` when none does. */
  function TrySpans(spans: seq<string>, k: nat, name: string, search: Search, exec: Executor): Option<seq<string>>
    requires k <= |spans|
    decreases |spans| - k
  {
    if k == |spans| then None
    else
      match TrySpan(CleanSpan(spans[k], name), name, search, exec)
      case Ok(answers) => Some(answers)
      case Raise(_) => TrySpans(spans, k + 1, name, search, exec)
  }

  /** `create_and_fire_query`: the entity name and the matched spans of the
      annotated line, tried span by span until one finds an answer. */
  function CreateAndFireQuery<P>(doc: seq<Token>, matches: seq<Match<P>>, search: Search, exec: Executor): Option<seq<string>> {
    TrySpans(SpanTexts(doc, matches), 0, EntityName(doc), search, exec)
  }

  /** The answer comes from the first span whose property search finds
      something, as long as the entity search does. */
  lemma {:induction false} FirstFoundSpan(spans: seq<string>, k: nat, j: nat, name: string, search: Search, exec: Executor)
    requires k <= j < |spans|
    requires forall m :: k <= m < j ==> search(RStrip(CleanSpan(spans[m], name), Whitespace), Property) == []
    requires search(RStrip(CleanSpan(spans[j], name), Whitespace), Property) != []
    requires search(RStrip(name, Whitespace), Item) != []
    ensures TrySpans(spans, k, name, search, exec) == Some(AnswerFor(exec,
      search(RStrip(CleanSpan(spans[j], name), Whitespace), Property)[0],
      search(RStrip(name, Whitespace), Item)[0]))
    decreases j - k
  {
    var clean := CleanSpan(spans[k], name);
    if k < j {
      FirstFoundSpan(spans, k + 1, j, name, search, exec);
    } else {
      AnswerOk(exec, search(RStrip(clean, Whitespace), Property)[0], search(RStrip(name, Whitespace), Item)[0]);
    }
  }

  /** When the entity name finds no item, every span fails and the result is
      `None`. */
  lemma {:induction false} NoEntityNoAnswer(spans: seq<string>, k: nat, name: string, search: Search, exec: Executor)
    requires k <= |spans|
    requires search(RStrip(name, Whitespace), Item) == []
    ensures TrySpans(spans, k, name, search, exec) == None
    decreases |spans| - k
  {
    if k < |spans| {
      NoEntityNoAnswer(spans, k + 1, name, search, exec);
    }
  }

  /** When the entity is found but no cleaned span's property search finds
      anything, every span fails and the result is `None`. */
  lemma {:induction false} NoSpanFound(spans: seq<string>, k: nat, name: string, search: Search, exec: Executor)
    requires k <= |spans|
    requires forall m :: k <= m < |spans| ==> search(RStrip(CleanSpan(spans[m], name), Whitespace), Property) == []
    ensures TrySpans(spans, k, name, search, exec) == None
    decreases |spans| - k
  {
    if k < |spans| {
      NoSpanFound(spans, k + 1, name, search, exec);
    }
  }

  /** The loop gives `None` exactly when the entity search is empty or no
      span from `k` on has a property hit. */
  lemma {:induction false} TrySpansNone(spans: seq<string>, k: nat, name: string, search: Search, exec: Executor)
    requires k <= |spans|
    ensures TrySpans(spans, k, name, search, exec) == None <==>
      search(RStrip(name, Whitespace), Item) == [] ||
      forall m :: k <= m < |spans| ==> search(RStrip(CleanSpan(spans[m], name), Whitespace), Property) == []
    decreases |spans| - k
  {
    if k < |spans| {
      var clean := CleanSpan(spans[k], name);
      var props := search(RStrip(clean, Whitespace), Property);
      var ents := search(RStrip(name, Whitespace), Item);
      TrySpansNone(spans, k + 1, name, search, exec);
      if props != [] && ents != [] {
        AnswerOk(exec, props[0], ents[0]);
      }
    }
  }

  // ---------------------------------------------------------------------------
  // answer

  const AnswerHead: string := "SELECT ?answerLabel WHERE ( wd:"
  const AnswerStatement: string := "    p:"
  const AnswerValue: string := "   ?statement . ?statement ps:"
  const AnswerTail: string := " ?answer .  SERVICE wikibase:label (bd:serviceParam wikibase:language 'en' .))"

  /** The statement query with three automatic fields; its braces are
      written as parentheses. */
  const StatementQuery: Template :=
    [Text(AnswerHead), Next, Text(AnswerStatement), Next, Text(AnswerValue), Next, Text(AnswerTail)]

  /** Parentheses become braces, everywhere in the query. */
  function Braces(q: string): string {
    Replace(Replace(q, "(", "{"), ")", "}")
  }

  /** `answer`: format with the entity id and the property id twice, turn
      every parenthesis into a brace, and collect every value of every row. */
  function Answer(exec: Executor, prop: string, ent: string): Result<seq<string>> {
    var q :- FormatString(Render(StatementQuery), [ent, prop, prop]);
    Ok(Values(exec(Braces(q))))
  }

  /** The query `answer` sends for a property id and an entity id. */
  function QueryFor(prop: string, ent: string): string {
    Braces(AnswerHead + ent + AnswerStatement + prop + AnswerValue + prop + AnswerTail)
  }

  function AnswerFor(exec: Executor, prop: string, ent: string): seq<string> {
    Values(exec(QueryFor(prop, ent)))
  }

  /** Formatting always succeeds: the entity id lands after `wd:` and the
      property id after both `p:` and `ps:`. */
  lemma AnswerOk(exec: Executor, prop: string, ent: string)
    ensures Answer(exec, prop, ent) == Ok(AnswerFor(exec, prop, ent))
  {
    StatementQueryFormat(ent, prop);
  }

  lemma StatementQueryFormat(e: string, p: string)
    ensures FormatString(Render(StatementQuery), [e, p, p])
      == Ok(AnswerHead + e + AnswerStatement + p + AnswerValue + p + AnswerTail)
  {
    FormatThreeAuto(AnswerHead, AnswerStatement, AnswerValue, AnswerTail, e, p, p);
  }

  /** The query holds no parenthesis: each one, also inside the ids, became
      the matching brace, and every other character is left in place. */
  lemma BracesMap(q: string)
    ensures |Braces(q)| == |q|
    ensures forall k :: 0 <= k < |q| ==>
      Braces(q)[k] == if q[k] == '(' then '{' else if q[k] == ')' then '}' else q[k]
    ensures '(' !in Braces(q) && ')' !in Braces(q)
  {
    var once := Replace(q, "(", "{");
    ReplaceOneChar(q, '(', '{');
    ReplaceOneChar(once, ')', '}');
    assert "(" == ['('] && ")" == [')'] && "{" == ['{'] && "}" == ['}'];
  }

  // ---------------------------------------------------------------------------
  // Printing

  const NoAnswer: string := "No answer was found, please try again"

  /** What the loop prints for one input line: every answer value, or the
      apology when iterating over `None` raises TypeError. */
  function Respond<P>(line: string, annotate: string -> seq<Token>, matcher: seq<Token> -> seq<Match<P>>,
                      search: Search, exec: Executor): seq<string>
  {
    var doc := annotate(Preprocess(line));
    match CreateAndFireQuery(doc, matcher(doc), search, exec)
    case None => [NoAnswer]
    case Some(answers) => answers
  }

  /** A question whose entity name finds no item gets the apology, whatever
      its spans are. */
  lemma RespondNoEntity<P>(line: string, annotate: string -> seq<Token>, matcher: seq<Token> -> seq<Match<P>>,
                           search: Search, exec: Executor)
    requires search(RStrip(EntityName(annotate(Preprocess(line))), Whitespace), Item) == []
    ensures Respond(line, annotate, matcher, search, exec) == [NoAnswer]
  {
    var doc := annotate(Preprocess(line));
    NoEntityNoAnswer(SpanTexts(doc, matcher(doc)), 0, EntityName(doc), search, exec);
  }

  /** A question whose entity is found but none of whose spans finds a
      property gets the apology. */
  lemma RespondNoSpanFound<P>(line: string, annotate: string -> seq<Token>, matcher: seq<Token> -> seq<Match<P>>,
                              search: Search, exec: Executor)
    requires var doc := annotate(Preprocess(line));
      var spans, name := SpanTexts(doc, matcher(doc)), EntityName(doc);
      forall m :: 0 <= m < |spans| ==> search(RStrip(CleanSpan(spans[m], name), Whitespace), Property) == []
    ensures Respond(line, annotate, matcher, search, exec) == [NoAnswer]
  {
    var doc := annotate(Preprocess(line));
    NoSpanFound(SpanTexts(doc, matcher(doc)), 0, EntityName(doc), search, exec);
  }

  /** The answer printed for a question is the answer of the first span
      whose property search finds something, when the entity search does. */
  lemma RespondFirstFoundSpan<P>(line: string, annotate: string -> seq<Token>, matcher: seq<Token> -> seq<Match<P>>,
                                 search: Search, exec: Executor, j: nat)
    requires var doc := annotate(Preprocess(line));
      var spans, name := SpanTexts(doc, matcher(doc)), EntityName(doc);
      && j < |spans|
      && (forall m :: 0 <= m < j ==> search(RStrip(CleanSpan(spans[m], name), Whitespace), Property) == [])
      && search(RStrip(CleanSpan(spans[j], name), Whitespace), Property) != []
      && search(RStrip(name, Whitespace), Item) != []
    ensures var doc := annotate(Preprocess(line));
      var spans, name := SpanTexts(doc, matcher(doc)), EntityName(doc);
      Respond(line, annotate, matcher, search, exec) == AnswerFor(exec,
        search(RStrip(CleanSpan(spans[j], name), Whitespace), Property)[0],
        search(RStrip(name, Whitespace), Item)[0])
  {
    var doc := annotate(Preprocess(line));
    FirstFoundSpan(SpanTexts(doc, matcher(doc)), 0, j, EntityName(doc), search, exec);
  }
}
