/** s3135152.py: hand-written dependency rules collect candidate property and
    entity phrases; the property phrases are searched longest first, the pairs
    are queried over at most ten property ids, and when no property id is
    found at all the search is retried with plural endings trimmed. */
module S3135152 {
  import opened Python
  import opened Tokens
  import opened Resolve
  import opened Bindings
  import opened Controller
  import opened Format

  // ---------------------------------------------------------------------------
  // questionmaker

  /** Candidate property phrases and entity phrases, in list order. */
  datatype Cands = Cands(props: seq<string>, ents: seq<string>)

  /** The first token, and the copulas, contribute nothing. */
  predicate Skipped(parse: seq<Token>, i: nat)
    requires i < |parse|
  {
    i == 0 || parse[i].text in {"is", "are", "was"}
  }

  /** `b` is `a` with elements added at the back, or at the front. */
  predicate Extends(a: seq<string>, b: seq<string>) {
    |a| <= |b| && (b[..|a|] == a || b[|b| - |a|..] == a)
  }

  /** `a` occurs in `b` from index `k` on. */
  predicate InfixAt(a: seq<string>, b: seq<string>, k: int) {
    0 <= k && k + |a| <= |b| && b[k..k + |a|] == a
  }

  /** `a` occurs in `b` as a contiguous run. */
  ghost predicate IsInfix(a: seq<string>, b: seq<string>) {
    exists k :: InfixAt(a, b, k)
  }

  /** A rule only ever appends to or prepends to each list. */
  predicate Grows(c: Cands, d: Cands) {
    Extends(c.props, d.props) && Extends(c.ents, d.ents)
  }

  /** `except IndexError: pass`: the lists keep what the statements before the
      raise added. */
  function Catch(r: Result<Cands>, before: Cands): (r': Result<Cands>)
    ensures r'.Raise? <==> r.Raise? && r.error != IndexError
    ensures r.Raise? && r.error == IndexError ==> r' == Ok(before)
  {
    if r == Raise(IndexError) then Ok(before) else r
  }

  predicate SubjectLike(t: Token) {
    t.dep == "nsubj" || t.dep == "acomp" || (t.dep == "attr" && t.pos == "NOUN")
  }

  /** A subject, then "of", then a prepositional object. */
  predicate OfPhraseAt(parse: seq<Token>, i: nat) {
    i + 2 < |parse| && parse[i].dep == "nsubj" && parse[i + 1].text == "of" && parse[i + 2].dep == "pobj"
  }

  /** The three words of that phrase, "of" in the middle. */
  function OfPhrase(parse: seq<Token>, i: nat): string
    requires OfPhraseAt(parse, i)
  {
    parse[i].text + " " + parse[i + 1].text + " " + parse[i + 2].text
  }

  /** First statement of the subject rule: a subject followed by "of" and a
      prepositional object gives the three-word property phrase. */
  function OfRule(parse: seq<Token>, i: nat, c: Cands): (r: Result<Cands>)
    requires i < |parse|
    ensures r.Raise? ==> r.error == IndexError
    ensures r.Ok? ==> r.value.ents == c.ents && Extends(c.props, r.value.props)
    ensures i + 2 < |parse| ==> r.Ok?
    ensures OfPhraseAt(parse, i) ==>
      r == Ok(c.(props := c.props + [OfPhrase(parse, i)]))
    ensures r.Ok? && !OfPhraseAt(parse, i) ==> r.value == c
  {
    var t := parse[i];
    if t.dep != "nsubj" then Ok(c)
    else
      var n1 :- Index(parse, i + 1);
      if n1.text != "of" then Ok(c)
      else
        var n2 :- Index(parse, i + 2);
        if n2.dep != "pobj" then Ok(c)
        else Ok(c.(props := c.props + [t.text + " " + n1.text + " " + n2.text]))
  }

  /** Second statement of the subject rule: the token and the next one (or
      the next two, through an adjectival complement) form an entity phrase. */
  function FollowerRule(parse: seq<Token>, i: nat, c: Cands): (r: Result<Cands>)
    requires i < |parse|
    ensures r.Raise? ==> r.error == IndexError
    ensures r.Ok? ==> r.value.props == c.props && Extends(c.ents, r.value.ents)
  {
    var t := parse[i];
    var n1 :- Index(parse, i + 1);
    if n1.dep == "ROOT" || n1.pos == "NOUN" then Ok(c.(ents := c.ents + [t.text + " " + n1.text]))
    else if n1.dep == "acomp" then
      var n2 :- Index(parse, i + 2);
      if n2.dep == "ROOT" || n2.pos == "NOUN" then
        Ok(c.(ents := c.ents + [t.text + " " + n1.text + " " + n2.text]))
      else Ok(c)
    else Ok(c)
  }

  /** The subject rule's `try` block: both statements, and an IndexError
      keeps what the first one added. */
  function SubjectRule(parse: seq<Token>, i: nat, c: Cands): (r: Cands)
    requires i < |parse|
    ensures Grows(c, r)
  {
    match OfRule(parse, i, c)
    case Raise(_) => c
    case Ok(c1) =>
      match FollowerRule(parse, i, c1)
      case Raise(_) => c1
      case Ok(c2) => c2
  }

  /** A subject, attribute or direct object is a property phrase; "member"
      and "members" are preceded by "has part". */
  function PropertyRule(t: Token, c: Cands): (r: Cands)
    ensures r.ents == c.ents && |c.props| <= |r.props| && r.props[..|c.props|] == c.props
    ensures t.dep in {"nsubj", "attr", "dobj"} && t.text in {"members", "member"} ==>
      r.props == c.props + ["has part", t.text]
    ensures t.dep in {"nsubj", "attr", "dobj"} && t.text !in {"members", "member"} ==>
      r.props == c.props + [t.text]
    ensures t.dep !in {"nsubj", "attr", "dobj"} ==> r == c
  {
    if t.dep in {"nsubj", "attr", "dobj"} then
      c.(props := c.props + (if t.text in {"members", "member"} then ["has part"] else []) + [t.text])
    else c
  }

  /** The phrase a prepositional object at `i` puts at the front of the
      entities: with the adjective before it, with "the" and the number
      before it, or with "the"; `None` when it is appended alone. */
  function PobjFront(parse: seq<Token>, i: nat): Option<string>
    requires 0 < i < |parse|
  {
    var t, p1 := parse[i], parse[i - 1];
    var p2 := parse[if i >= 2 then i - 2 else |parse| - 1];
    if p1.pos == "ADJ" || p1.dep == "amod" then Some(p1.text + " " + t.text)
    else if p1.dep == "nummod" && p2.text == "the" then Some("the " + p1.text + " " + t.text)
    else if p1.text == "the" then Some("the " + t.text)
    else None
  }

  /** Objects, complements and the root are entity phrases: a prepositional
      object after an adjective, after "the" and a number, or after "the"
      goes to the front together with those words; anything else is
      appended. `parse[i - 2]` is the last token when `i` is 1. */
  function ObjectRule(parse: seq<Token>, i: nat, c: Cands): (r: Cands)
    requires 0 < i < |parse|
    ensures r.props == c.props && Extends(c.ents, r.ents)
    ensures parse[i].dep !in {"pobj", "acomp", "pcomp", "ROOT"} ==> r == c
    ensures parse[i].dep in {"acomp", "pcomp", "ROOT"} ==> r.ents == c.ents + [parse[i].text]
    ensures parse[i].dep == "pobj" ==>
      r.ents == (match PobjFront(parse, i)
                 case Some(phrase) => [phrase] + c.ents
                 case None => c.ents + [parse[i].text])
  {
    var t := parse[i];
    var p1 := parse[i - 1];
    var p2 := parse[if i >= 2 then i - 2 else |parse| - 1];
    if t.dep !in {"pobj", "acomp", "pcomp", "ROOT"} then c
    else if t.dep != "pobj" then c.(ents := c.ents + [t.text])
    else if p1.pos == "ADJ" || p1.dep == "amod" then c.(ents := [p1.text + " " + t.text] + c.ents)
    else if p1.dep == "nummod" && p2.text == "the" then c.(ents := ["the " + p1.text + " " + t.text] + c.ents)
    else if p1.text == "the" then c.(ents := ["the " + t.text] + c.ents)
    else c.(ents := c.ents + [t.text])
  }

  /** A compound followed by a token whose tag starts with "NN". */
  predicate CompoundPairAt(parse: seq<Token>, i: nat) {
    i + 1 < |parse| && parse[i].dep == "compound" && StartsWith(parse[i + 1].tag, "NN")
  }

  /** A compound before a noun-tagged token: the two words go to the front
      of the entities and the back of the properties. This rule is outside
      any `try`: a compound in the last position raises IndexError. */
  function CompoundRule(parse: seq<Token>, i: nat, c: Cands): (r: Result<Cands>)
    requires i < |parse|
    ensures r.Raise? <==> parse[i].dep == "compound" && i == |parse| - 1
    ensures r.Raise? ==> r.error == IndexError
    ensures r.Ok? ==> Extends(c.props, r.value.props) && Extends(c.ents, r.value.ents)
    ensures CompoundPairAt(parse, i) ==>
      r == Ok(Cands(c.props + [parse[i].text + " " + parse[i + 1].text],
                    [parse[i].text + " " + parse[i + 1].text] + c.ents))
    ensures r.Ok? && !CompoundPairAt(parse, i) ==> r.value == c
  {
    var t := parse[i];
    if t.dep != "compound" then Ok(c)
    else
      var n1 :- Index(parse, i + 1);
      if StartsWith(n1.tag, "NN") then
        Ok(Cands(c.props + [t.text + " " + n1.text], [t.text + " " + n1.text] + c.ents))
      else Ok(c)
  }

  /** An adjective before a subject or object (or before another adjective or
      a compound and then one) puts the phrase at the front of the properties. */
  function AmodRule(parse: seq<Token>, i: nat, c: Cands): (r: Result<Cands>)
    requires i < |parse|
    ensures r.Raise? ==> r.error == IndexError
    ensures r.Ok? ==> r.value.ents == c.ents && Extends(c.props, r.value.props)
  {
    var t := parse[i];
    var n1 :- Index(parse, i + 1);
    if n1.dep == "nsubj" || n1.dep == "dobj" then Ok(c.(props := [t.text + " " + n1.text] + c.props))
    else if n1.dep == "amod" || n1.dep == "compound" then
      var n2 :- Index(parse, i + 2);
      if (n1.dep == "amod" && n2.dep == "nsubj") || (n1.dep == "compound" && (n2.dep == "dobj" || n2.dep == "nsubj")) then
        Ok(c.(props := [t.text + " " + n1.text + " " + n2.text] + c.props))
      else Ok(c)
    else Ok(c)
  }

  /** One iteration of the loop: the rules in source order. */
  function TokenStep(parse: seq<Token>, i: nat, c: Cands): (r: Result<Cands>)
    requires i < |parse|
    ensures r.Raise? <==> !Skipped(parse, i) && parse[i].dep == "compound" && i == |parse| - 1
    ensures r.Raise? ==> r.error == IndexError
  {
    if Skipped(parse, i) then Ok(c)
    else FromSubject(parse, i, if SubjectLike(parse[i]) then SubjectRule(parse, i, c) else c)
  }

  /** The rules after the subject rule, in source order. */
  function FromSubject(parse: seq<Token>, i: nat, a: Cands): Result<Cands>
    requires 0 < i < |parse|
  {
    FromObject(parse, i, ObjectRule(parse, i, PropertyRule(parse[i], a)))
  }

  /** The rules after the object rule: the compound rule, then the adjective
      rule inside its `try`. */
  function FromObject(parse: seq<Token>, i: nat, o: Cands): Result<Cands>
    requires i < |parse|
  {
    var d :- CompoundRule(parse, i, o);
    if parse[i].dep == "amod" then Catch(AmodRule(parse, i, d), d) else Ok(d)
  }

  /** The loop from token `i` on; the first uncaught exception ends it. */
  function ScanFrom(parse: seq<Token>, i: nat, c: Cands): Result<Cands>
    requires i <= |parse|
    decreases |parse| - i
  {
    if i == |parse| then Ok(c)
    else
      var next :- TokenStep(parse, i, c);
      ScanFrom(parse, i + 1, next)
  }

  /** `questionmaker`: the candidates appended to the given lists. */
  function Questionmaker(props: seq<string>, ents: seq<string>, parse: seq<Token>): Result<Cands> {
    ScanFrom(parse, 0, Cands(props, ents))
  }

  /** The scan raises exactly when the last token is a compound that is not
      skipped: every other index lookup is caught or in range. */
  lemma {:induction false} ScanFromRaises(parse: seq<Token>, i: nat, c: Cands)
    requires i < |parse|
    ensures ScanFrom(parse, i, c).Raise? <==>
      !Skipped(parse, |parse| - 1) && parse[|parse| - 1].dep == "compound"
    ensures ScanFrom(parse, i, c).Raise? ==> ScanFrom(parse, i, c).error == IndexError
    decreases |parse| - i
  {
    if i + 1 < |parse| {
      ScanFromRaises(parse, i + 1, TokenStep(parse, i, c).value);
    }
  }

  lemma QuestionmakerRaises(props: seq<string>, ents: seq<string>, parse: seq<Token>)
    ensures Questionmaker(props, ents, parse).Raise? <==>
      |parse| >= 2 && parse[|parse| - 1].dep == "compound" && parse[|parse| - 1].text !in {"is", "are", "was"}
    ensures Questionmaker(props, ents, parse).Raise? ==> Questionmaker(props, ents, parse).error == IndexError
  {
    if |parse| > 0 {
      ScanFromRaises(parse, 0, Cands(props, ents));
    }
  }

  /** When every token after the first is a copula, no candidate is added. */
  lemma {:induction false} SkippedTokensAddNothing(parse: seq<Token>, i: nat, c: Cands)
    requires i <= |parse|
    requires forall k :: i <= k < |parse| ==> Skipped(parse, k)
    ensures ScanFrom(parse, i, c) == Ok(c)
    decreases |parse| - i
  {
    if i < |parse| {
      SkippedTokensAddNothing(parse, i + 1, c);
    }
  }

  lemma InfixRefl(a: seq<string>)
    ensures IsInfix(a, a)
  {
    assert InfixAt(a, a, 0);
  }

  lemma InfixExtends(a: seq<string>, b: seq<string>, c: seq<string>)
    requires IsInfix(a, b) && Extends(b, c)
    ensures IsInfix(a, c)
  {
    var k :| InfixAt(a, b, k);
    var d := if c[..|b|] == b then 0 else |c| - |b|;
    assert c[d..d + |b|] == b;
    SliceOfSlice(c, d, d + |b|, k, k + |a|);
    assert InfixAt(a, c, d + k);
  }

  lemma SliceOfSlice(c: seq<string>, lo: nat, hi: nat, i: nat, j: nat)
    requires lo <= hi <= |c| && i <= j <= hi - lo
    ensures c[lo..hi][i..j] == c[lo + i..lo + j]
  {
    var x, y := c[lo..hi][i..j], c[lo + i..lo + j];
    assert |x| == |y|;
    forall m | 0 <= m < |x| ensures x[m] == y[m] {
      assert x[m] == c[lo..hi][i + m];
    }
  }

  /** Each step only adds around what is there: the lists before a token are
      contiguous runs of the lists after it. */
  lemma StepKeepsRuns(parse: seq<Token>, i: nat, c: Cands, pre: Cands)
    requires i < |parse|
    requires IsInfix(pre.props, c.props) && IsInfix(pre.ents, c.ents)
    requires TokenStep(parse, i, c).Ok?
    ensures IsInfix(pre.props, TokenStep(parse, i, c).value.props)
    ensures IsInfix(pre.ents, TokenStep(parse, i, c).value.ents)
  {
    if !Skipped(parse, i) {
      var a := if SubjectLike(parse[i]) then SubjectRule(parse, i, c) else c;
      InfixExtends(pre.props, c.props, a.props);
      InfixExtends(pre.ents, c.ents, a.ents);
      FromSubjectKeepsRuns(parse, i, a, pre);
    }
  }

  lemma FromSubjectKeepsRuns(parse: seq<Token>, i: nat, a: Cands, pre: Cands)
    requires 0 < i < |parse|
    requires IsInfix(pre.props, a.props) && IsInfix(pre.ents, a.ents)
    requires FromSubject(parse, i, a).Ok?
    ensures IsInfix(pre.props, FromSubject(parse, i, a).value.props)
    ensures IsInfix(pre.ents, FromSubject(parse, i, a).value.ents)
  {
    var b := PropertyRule(parse[i], a);
    assert IsInfix(pre.props, b.props) && IsInfix(pre.ents, b.ents) by {
      InfixExtends(pre.props, a.props, b.props);
      InfixExtends(pre.ents, a.ents, b.ents);
    }
    var o := ObjectRule(parse, i, b);
    assert IsInfix(pre.props, o.props) && IsInfix(pre.ents, o.ents) by {
      InfixExtends(pre.props, b.props, o.props);
      InfixExtends(pre.ents, b.ents, o.ents);
    }
    FromObjectKeepsRuns(parse, i, o, pre);
  }

  lemma FromObjectKeepsRuns(parse: seq<Token>, i: nat, o: Cands, pre: Cands)
    requires i < |parse|
    requires IsInfix(pre.props, o.props) && IsInfix(pre.ents, o.ents)
    requires FromObject(parse, i, o).Ok?
    ensures IsInfix(pre.props, FromObject(parse, i, o).value.props)
    ensures IsInfix(pre.ents, FromObject(parse, i, o).value.ents)
  {
    var d := CompoundRule(parse, i, o).value;
    assert IsInfix(pre.props, d.props) && IsInfix(pre.ents, d.ents) by {
      InfixExtends(pre.props, o.props, d.props);
      InfixExtends(pre.ents, o.ents, d.ents);
    }
    if parse[i].dep == "amod" && AmodRule(parse, i, d).Ok? {
      var e := AmodRule(parse, i, d).value;
      InfixExtends(pre.props, d.props, e.props);
      InfixExtends(pre.ents, d.ents, e.ents);
    }
  }

  lemma {:induction false} ScanKeepsRuns(parse: seq<Token>, i: nat, c: Cands, pre: Cands)
    requires i <= |parse|
    requires IsInfix(pre.props, c.props) && IsInfix(pre.ents, c.ents)
    requires ScanFrom(parse, i, c).Ok?
    ensures IsInfix(pre.props, ScanFrom(parse, i, c).value.props)
    ensures IsInfix(pre.ents, ScanFrom(parse, i, c).value.ents)
    decreases |parse| - i
  {
    if i < |parse| {
      StepKeepsRuns(parse, i, c, pre);
      ScanKeepsRuns(parse, i + 1, TokenStep(parse, i, c).value, pre);
    }
  }

  /** A subject, attribute or object "member"/"members" (not the first token)
      leaves "has part" directly before its own text in the final property
      list, whatever the later rules add. */
  lemma MemberHasPart(props: seq<string>, ents: seq<string>, parse: seq<Token>, i: nat)
    requires 0 < i < |parse|
    requires parse[i].dep in {"nsubj", "attr", "dobj"} && parse[i].text in {"members", "member"}
    requires Questionmaker(props, ents, parse).Ok?
    ensures IsInfix(["has part", parse[i].text], Questionmaker(props, ents, parse).value.props)
  {
    var c := PrefixScan(parse, i, Cands(props, ents));
    var t := parse[i];
    var a := if SubjectLike(t) then SubjectRule(parse, i, c) else c;
    var b := PropertyRule(t, a);
    var pair := ["has part", t.text];
    assert b.props[|a.props|..] == pair;
    assert InfixAt(pair, b.props, |a.props|);
    InfixRefl(b.ents);
    var o := ObjectRule(parse, i, b);
    assert o == b;
    var step := TokenStep(parse, i, c).value;
    assert step == b;
    ScanKeepsRuns(parse, i + 1, step, Cands(pair, b.ents));
  }

  lemma InfixEmpty(b: seq<string>)
    ensures IsInfix([], b)
  {
    assert InfixAt([], b, 0);
  }

  lemma InfixSingleIn(x: string, b: seq<string>)
    requires IsInfix([x], b)
    ensures x in b
  {
    var k :| InfixAt([x], b, k);
    assert b[k] == b[k..k + 1][0];
  }

  /** A subject followed by "of" and a prepositional object (not the first
      token) leaves the three-word phrase in the final property list. */
  lemma OfPhraseKept(props: seq<string>, ents: seq<string>, parse: seq<Token>, i: nat)
    requires 0 < i && OfPhraseAt(parse, i)
    requires parse[i].text !in {"is", "are", "was"}
    requires Questionmaker(props, ents, parse).Ok?
    ensures OfPhrase(parse, i) in Questionmaker(props, ents, parse).value.props
  {
    var c := PrefixScan(parse, i, Cands(props, ents));
    var phrase := OfPhrase(parse, i);
    var a := SubjectRule(parse, i, c);
    assert a.props == c.props + [phrase];
    var pre := Cands([phrase], []);
    assert InfixAt(pre.props, a.props, |c.props|);
    InfixEmpty(a.ents);
    var step := TokenStep(parse, i, c).value;
    FromSubjectKeepsRuns(parse, i, a, pre);
    ScanKeepsRuns(parse, i + 1, step, pre);
    InfixSingleIn(phrase, Questionmaker(props, ents, parse).value.props);
  }

  /** A prepositional object after an adjective, after "the" and a number, or
      after "the" (not the first token) leaves that phrase in the final
      entity list. */
  lemma PobjFrontKept(props: seq<string>, ents: seq<string>, parse: seq<Token>, i: nat)
    requires 0 < i < |parse| && parse[i].dep == "pobj"
    requires parse[i].text !in {"is", "are", "was"}
    requires PobjFront(parse, i).Some?
    requires Questionmaker(props, ents, parse).Ok?
    ensures PobjFront(parse, i).value in Questionmaker(props, ents, parse).value.ents
  {
    var c := PrefixScan(parse, i, Cands(props, ents));
    var phrase := PobjFront(parse, i).value;
    var o := ObjectRule(parse, i, PropertyRule(parse[i], c));
    assert o.ents == [phrase] + c.ents;
    var pre := Cands([], [phrase]);
    assert InfixAt(pre.ents, o.ents, 0);
    InfixEmpty(o.props);
    var step := TokenStep(parse, i, c).value;
    assert TokenStep(parse, i, c) == FromObject(parse, i, o);
    FromObjectKeepsRuns(parse, i, o, pre);
    ScanKeepsRuns(parse, i + 1, step, pre);
    InfixSingleIn(phrase, Questionmaker(props, ents, parse).value.ents);
  }

  /** A compound before a noun-tagged token (not the first token) leaves the
      two words in both final lists. */
  lemma CompoundPairKept(props: seq<string>, ents: seq<string>, parse: seq<Token>, i: nat)
    requires 0 < i && CompoundPairAt(parse, i)
    requires parse[i].text !in {"is", "are", "was"}
    requires Questionmaker(props, ents, parse).Ok?
    ensures var pair := parse[i].text + " " + parse[i + 1].text;
      pair in Questionmaker(props, ents, parse).value.props && pair in Questionmaker(props, ents, parse).value.ents
  {
    var c := PrefixScan(parse, i, Cands(props, ents));
    var pair := parse[i].text + " " + parse[i + 1].text;
    var o := ObjectRule(parse, i, PropertyRule(parse[i], c));
    var d := CompoundRule(parse, i, o).value;
    var pre := Cands([pair], [pair]);
    assert InfixAt(pre.props, d.props, |o.props|) && InfixAt(pre.ents, d.ents, 0);
    var step := TokenStep(parse, i, c).value;
    assert step == d;
    ScanKeepsRuns(parse, i + 1, step, pre);
    InfixSingleIn(pair, Questionmaker(props, ents, parse).value.props);
    InfixSingleIn(pair, Questionmaker(props, ents, parse).value.ents);
  }

  /** The candidates after the tokens before `i`, when the scan gets there. */
  function PrefixScan(parse: seq<Token>, i: nat, c: Cands): (r: Cands)
    requires i < |parse|
    requires ScanFrom(parse, 0, c).Ok?
    ensures ScanFrom(parse, 0, c) == ScanFrom(parse, i, r)
  {
    PrefixScanFrom(parse, 0, i, c)
  }

  function PrefixScanFrom(parse: seq<Token>, j: nat, i: nat, c: Cands): (r: Cands)
    requires j <= i < |parse|
    requires ScanFrom(parse, j, c).Ok?
    ensures ScanFrom(parse, j, c) == ScanFrom(parse, i, r)
    decreases i - j
  {
    if j == i then c
    else PrefixScanFrom(parse, j + 1, i, TokenStep(parse, j, c).value)
  }

  // ---------------------------------------------------------------------------
  // Sorting the property phrases

  /** Longest first. */
  predicate SortedByLen(s: seq<string>) {
    forall i, j :: 0 <= i < j < |s| ==> |s[i]| >= |s[j]|
  }

  function TotalLength(s: seq<string>): nat {
    if |s| == 0 then 0 else |s[0]| + TotalLength(s[1..])
  }

  /** The phrases of length `n`, in order. */
  function WithLen(s: seq<string>, n: nat): seq<string> {
    if |s| == 0 then [] else (if |s[0]| == n then [s[0]] else []) + WithLen(s[1..], n)
  }

  lemma SortedCons(h: string, t: seq<string>)
    requires SortedByLen(t)
    requires forall k :: 0 <= k < |t| ==> |t[k]| <= |h|
    ensures SortedByLen([h] + t)
  {
    var r := [h] + t;
    forall i, j | 0 <= i < j < |r| ensures |r[i]| >= |r[j]| {
      assert r[j] == t[j - 1];
      if i > 0 {
        assert r[i] == t[i - 1];
      }
    }
  }

  lemma TotalLengthCons(h: string, t: seq<string>)
    ensures TotalLength([h] + t) == |h| + TotalLength(t)
  {
    assert ([h] + t)[1..] == t;
  }

  /** Puts `x` after every strictly longer phrase and before the rest. */
  function InsertByLen(x: string, s: seq<string>): (r: seq<string>)
    requires SortedByLen(s)
    ensures |r| == |s| + 1
    ensures forall k :: 0 <= k < |r| ==> r[k] == x || r[k] in s
    ensures SortedByLen(r)
    ensures multiset(r) == multiset(s) + multiset{x}
    ensures TotalLength(r) == |x| + TotalLength(s)
  {
    if |s| == 0 || |s[0]| <= |x| then
      SortedCons(x, s);
      TotalLengthCons(x, s);
      [x] + s
    else
      var rest := InsertByLen(x, s[1..]);
      InsertBehind(x, s, rest);
      [s[0]] + rest
  }

  /** `x` goes behind the longer head of `s`. */
  lemma InsertBehind(x: string, s: seq<string>, rest: seq<string>)
    requires SortedByLen(s) && |s| > 0 && |s[0]| > |x|
    requires forall k :: 0 <= k < |rest| ==> rest[k] == x || rest[k] in s[1..]
    requires SortedByLen(rest)
    requires multiset(rest) == multiset(s[1..]) + multiset{x}
    requires TotalLength(rest) == |x| + TotalLength(s[1..])
    ensures forall k :: 0 <= k < |rest| + 1 ==> ([s[0]] + rest)[k] == x || ([s[0]] + rest)[k] in s
    ensures SortedByLen([s[0]] + rest)
    ensures multiset([s[0]] + rest) == multiset(s) + multiset{x}
    ensures TotalLength([s[0]] + rest) == |x| + TotalLength(s)
  {
    assert s == [s[0]] + s[1..];
    forall k | 0 <= k < |rest| ensures |rest[k]| <= |s[0]| {
      if rest[k] != x {
        var m :| 0 <= m < |s[1..]| && s[1..][m] == rest[k];
        assert s[1..][m] == s[m + 1];
      }
    }
    SortedCons(s[0], rest);
    TotalLengthCons(s[0], rest);
    TotalLengthCons(s[0], s[1..]);
  }

  /** `property_list.sort(key=len, reverse=True)`: longest first, and phrases
      of equal length keep their order (Python's sort is stable, also in
      reverse). */
  function SortByLen(s: seq<string>): (r: seq<string>)
    ensures SortedByLen(r)
    ensures multiset(r) == multiset(s)
    ensures |r| == |s|
    ensures TotalLength(r) == TotalLength(s)
  {
    if |s| == 0 then []
    else
      assert s == [s[0]] + s[1..];
      InsertByLen(s[0], SortByLen(s[1..]))
  }

  lemma {:induction false} WithLenCons(h: string, t: seq<string>, n: nat)
    ensures WithLen([h] + t, n) == (if |h| == n then [h] else []) + WithLen(t, n)
  {
    assert ([h] + t)[1..] == t;
  }

  /** The phrases `WithLen` picks are phrases of the sequence, of that length. */
  lemma {:induction false} WithLenMember(s: seq<string>, n: nat, x: string)
    requires x in WithLen(s, n)
    ensures x in s && |x| == n
    decreases |s|
  {
    assert s == [s[0]] + s[1..];
    if x != s[0] || |s[0]| != n {
      WithLenMember(s[1..], n, x);
    }
  }

  lemma {:induction false} InsertWithLen(x: string, s: seq<string>, n: nat)
    requires SortedByLen(s)
    ensures WithLen(InsertByLen(x, s), n) == (if |x| == n then [x] else []) + WithLen(s, n)
    decreases |s|
  {
    if |s| == 0 || |s[0]| <= |x| {
      WithLenCons(x, s, n);
    } else {
      var h, tl := s[0], s[1..];
      var hs: seq<string> := if |h| == n then [h] else [];
      var xs: seq<string> := if |x| == n then [x] else [];
      assert WithLen(InsertByLen(x, s), n) == hs + (xs + WithLen(tl, n)) by {
        SortedTail(s);
        InsertByLenStep(x, s);
        InsertWithLen(x, tl, n);
        WithLenCons(h, InsertByLen(x, tl), n);
      }
      assert WithLen(s, n) == hs + WithLen(tl, n) by {
        assert s == [h] + tl;
        WithLenCons(h, tl, n);
      }
      ConcatSwap(hs, xs, WithLen(tl, n));
    }
  }

  lemma ConcatSwap<T>(a: seq<T>, b: seq<T>, c: seq<T>)
    requires a == [] || b == []
    ensures a + (b + c) == b + (a + c)
  {
    if a == [] {
      assert a + (b + c) == b + c && a + c == c;
    } else {
      assert b + (a + c) == a + c && b + c == c;
    }
  }

  lemma ConcatAssoc<T>(a: seq<T>, b: seq<T>, c: seq<T>)
    ensures a + (b + c) == (a + b) + c
  {
  }

  lemma InsertByLenStep(x: string, s: seq<string>)
    requires SortedByLen(s) && |s| > 0 && |s[0]| > |x|
    ensures InsertByLen(x, s) == [s[0]] + InsertByLen(x, s[1..])
  {
  }

  /** Sorting keeps the order among phrases of each length. */
  lemma {:induction false} SortStable(s: seq<string>, n: nat)
    ensures WithLen(SortByLen(s), n) == WithLen(s, n)
    decreases |s|
  {
    if |s| > 0 {
      SortStable(s[1..], n);
      InsertWithLen(s[0], SortByLen(s[1..]), n);
      WithLenCons(s[0], s[1..], n);
      assert s == [s[0]] + s[1..];
    }
  }

  /** Sorted by length with the same phrases of each length in the same
      order determines the result: any such sequence is the sort. */
  lemma SortUnique(s: seq<string>, r: seq<string>)
    requires SortedByLen(r)
    requires forall n: nat :: WithLen(r, n) == WithLen(s, n)
    ensures r == SortByLen(s)
  {
    var t := SortByLen(s);
    forall n: nat ensures WithLen(r, n) == WithLen(t, n) {
      SortStable(s, n);
    }
    SortedUnique(r, t);
  }

  lemma {:induction false} SortedUnique(r: seq<string>, t: seq<string>)
    requires SortedByLen(r) && SortedByLen(t)
    requires forall n: nat :: WithLen(r, n) == WithLen(t, n)
    ensures r == t
    decreases |r| + |t|
  {
    if |r| > 0 {
      HeadInOther(r, t);
    }
    if |t| > 0 {
      HeadInOther(t, r);
    }
    if |r| > 0 && |t| > 0 {
      MaxHeads(r, t);
      forall n: nat ensures WithLen(r[1..], n) == WithLen(t[1..], n) {
        TailsWithLen(r, t, n);
      }
      SortedTail(r);
      SortedTail(t);
      SortedUnique(r[1..], t[1..]);
      assert r == [r[0]] + r[1..] && t == [t[0]] + t[1..];
    }
  }

  lemma TailsWithLen(r: seq<string>, t: seq<string>, n: nat)
    requires |r| > 0 && |t| > 0 && r[0] == t[0]
    requires WithLen(r, n) == WithLen(t, n)
    ensures WithLen(r[1..], n) == WithLen(t[1..], n)
  {
    WithLenCons(r[0], r[1..], n);
    WithLenCons(t[0], t[1..], n);
    assert r == [r[0]] + r[1..] && t == [t[0]] + t[1..];
    var h := if |r[0]| == n then [r[0]] else [];
    assert WithLen(r[1..], n) == (h + WithLen(r[1..], n))[|h|..];
    assert WithLen(t[1..], n) == (h + WithLen(t[1..], n))[|h|..];
  }

  lemma SortedTail(s: seq<string>)
    requires SortedByLen(s) && |s| > 0
    ensures SortedByLen(s[1..])
  {
    assert forall k :: 0 <= k < |s| - 1 ==> s[1..][k] == s[k + 1];
  }

  /** The head of a sequence appears in any sequence with the same phrases of
      each length. */
  lemma HeadInOther(r: seq<string>, t: seq<string>)
    requires |r| > 0
    requires forall n: nat :: WithLen(r, n) == WithLen(t, n)
    ensures r[0] in t
  {
    WithLenCons(r[0], r[1..], |r[0]|);
    assert r == [r[0]] + r[1..];
    assert r[0] in WithLen(t, |r[0]|);
    WithLenMember(t, |r[0]|, r[0]);
  }

  /** Two sorted sequences with the same phrases of each length start with
      the same phrase. */
  lemma MaxHeads(r: seq<string>, t: seq<string>)
    requires SortedByLen(r) && SortedByLen(t) && |r| > 0 && |t| > 0
    requires forall n: nat :: WithLen(r, n) == WithLen(t, n)
    ensures r[0] == t[0]
  {
    HeadInOther(r, t);
    HeadInOther(t, r);
    assert |r[0]| == |t[0]|;
    var n := |r[0]|;
    WithLenCons(r[0], r[1..], n);
    WithLenCons(t[0], t[1..], n);
    assert r == [r[0]] + r[1..] && t == [t[0]] + t[1..];
    assert WithLen(r, n)[0] == r[0];
    assert WithLen(t, n)[0] == t[0];
  }

  // ---------------------------------------------------------------------------
  // create_and_fire_query

  const WikidataPrefix: string := "http://www.wikidata.org"

  const NotFound: string := "Answer not found"

  /** Only the first ten property ids are tried with each entity. */
  const PropertyCap: nat := 10

  const SelectHead: string := "SELECT ?val ?valLabel\n\t\t\t\t\t\tWHERE {wd:"
  const SelectMiddle: string := " wdt:"
  const SelectTail: string :=
    " ?val.\n\t\t\t\t\t\toptional{?val rdfs:label ?valLabel.\n\t\t\t\t    \t\tFILTER(LANG(?valLabel) =\"en\")\n\t\t\t\t\t\t}}"

  /** The value query with numbered fields: the entity id is `{0}`, the
      property id `{1}`. */
  const SelectQuery: Template := [Text(SelectHead), Field(0), Text(SelectMiddle), Field(1), Text(SelectTail)]

  lemma SelectQueryFormat(e: string, p: string)
    ensures FormatString(Render(SelectQuery), [e, p]) == Ok(SelectHead + e + SelectMiddle + p + SelectTail)
  {
    FormatTwoManual(SelectHead, SelectMiddle, SelectTail, e, p);
  }

  function RunPair(exec: Executor, pair: Pair): Result<seq<Row>> {
    var q :- FormatString(Render(SelectQuery), [pair.entity, pair.prop]);
    Ok(exec(q))
  }

  lemma RunPairOk(exec: Executor, pair: Pair)
    ensures RunPair(exec, pair) == Ok(exec(SelectHead + pair.entity + SelectMiddle + pair.prop + SelectTail))
  {
    SelectQueryFormat(pair.entity, pair.prop);
  }

  /** The values that are not Wikidata URIs, in order. */
  function Kept(vs: seq<string>): (r: seq<string>)
    ensures |r| <= |vs|
    ensures multiset(r) <= multiset(vs)
    ensures forall k :: 0 <= k < |r| ==> !StartsWith(r[k], WikidataPrefix)
    ensures forall k :: 0 <= k < |vs| ==> !StartsWith(vs[k], WikidataPrefix) ==> vs[k] in r
  {
    if |vs| == 0 then []
    else
      var rest := Kept(vs[1..]);
      assert forall k :: 1 <= k < |vs| ==> vs[k] == vs[1..][k - 1];
      assert vs == [vs[0]] + vs[1..];
      (if StartsWith(vs[0], WikidataPrefix) then [] else [vs[0]]) + rest
  }

  /** Filtering a concatenation filters each part: the kept values keep
      their order and multiplicity. */
  lemma {:induction false} KeptAppend(a: seq<string>, b: seq<string>)
    ensures Kept(a + b) == Kept(a) + Kept(b)
    decreases |a|
  {
    if |a| == 0 {
      assert a + b == b;
    } else {
      var h, x := if StartsWith(a[0], WikidataPrefix) then [] else [a[0]], a[1..];
      assert (a + b)[0] == a[0] && (a + b)[1..] == x + b;
      KeptAppend(x, b);
      assert Kept(a + b) == h + (Kept(x) + Kept(b));
      ConcatAssoc(h, Kept(x), Kept(b));
    }
  }

  /** One value is kept exactly when it is not a Wikidata URI. */
  lemma KeptSingle(v: string)
    ensures Kept([v]) == if StartsWith(v, WikidataPrefix) then [] else [v]
  {
    assert [v][1..] == [];
  }

  /** The kept values, each preceded by a newline, in order. */
  function Lines(vs: seq<string>): string {
    if |vs| == 0 then [] else "\n" + vs[0] + Lines(vs[1..])
  }

  /** The answer for the winning pair's rows: the kept values, one per line,
      with the leading whitespace stripped. */
  function AnswerText(rows: seq<Row>): string {
    LStrip(Lines(Kept(Values(rows))), Whitespace)
  }

  lemma {:induction false} LinesJoin(vs: seq<string>)
    requires |vs| > 0
    ensures Lines(vs) == "\n" + Join(vs, "\n")
    decreases |vs|
  {
    if |vs| > 1 {
      LinesJoin(vs[1..]);
    } else {
      assert vs[1..] == [];
    }
  }

  /** When the kept values hold no newline and the first starts with a
      non-whitespace character, the answer's lines are exactly the kept
      values. */
  lemma AnswerLines(rows: seq<Row>)
    requires var vs := Kept(Values(rows));
      && |vs| > 0 && |vs[0]| > 0 && vs[0][0] !in Whitespace
      && forall k :: 0 <= k < |vs| ==> '\n' !in vs[k]
    ensures SplitOn(AnswerText(rows), '\n') == Kept(Values(rows))
  {
    var vs := Kept(Values(rows));
    LinesJoin(vs);
    JoinHead(vs);
    StripLeadingNewline(Join(vs, "\n"));
    SplitOnJoin(vs, '\n');
  }

  /** Stripping the leading newline the first line brings. */
  lemma StripLeadingNewline(j: string)
    requires |j| > 0 && j[0] !in Whitespace
    ensures LStrip("\n" + j, Whitespace) == j
  {
    var s := "\n" + j;
    var r := LStrip(s, Whitespace);
    assert s[0] in Whitespace;
    assert s[1] !in Whitespace;
    assert |s| - |r| == 1;
    assert s[1..] == j;
  }

  lemma JoinHead(vs: seq<string>)
    requires |vs| > 0 && |vs[0]| > 0
    ensures |Join(vs, "\n")| > 0 && Join(vs, "\n")[0] == vs[0][0]
  {
  }

  /** When every value is a Wikidata URI the answer is the empty string. */
  lemma AllUrisEmptyAnswer(rows: seq<Row>)
    requires forall k :: 0 <= k < |Values(rows)| ==> StartsWith(Values(rows)[k], WikidataPrefix)
    ensures AnswerText(rows) == ""
  {
    KeptNone(Values(rows));
  }

  lemma {:induction false} KeptNone(vs: seq<string>)
    requires forall k :: 0 <= k < |vs| ==> StartsWith(vs[k], WikidataPrefix)
    ensures Kept(vs) == []
    decreases |vs|
  {
    if |vs| > 0 {
      assert forall k :: 0 <= k < |vs| - 1 ==> vs[1..][k] == vs[k + 1];
      KeptNone(vs[1..]);
    }
  }

  /** `[prop[:-1] for prop in property_list if prop.endswith('s')]`: each
      phrase ending in "s" without its last letter, in order. */
  function Trimmed(s: seq<string>): (r: seq<string>)
    ensures TotalLength(r) + |r| <= TotalLength(s)
    ensures |r| <= |s|
    ensures forall k :: 0 <= k < |r| ==> r[k] + "s" in s
    ensures forall k :: 0 <= k < |s| && EndsWith(s[k], "s") ==> s[k][..|s[k]| - 1] in r
  {
    if |s| == 0 then []
    else
      var rest := Trimmed(s[1..]);
      var head := if EndsWith(s[0], "s") then [s[0][..|s[0]| - 1]] else [];
      TrimmedLength(s, head, rest);
      TrimmedFrom(s, head, rest);
      TrimmedAll(s, head, rest);
      head + rest
  }

  lemma TrimmedLength(s: seq<string>, head: seq<string>, rest: seq<string>)
    requires |s| > 0
    requires head == if EndsWith(s[0], "s") then [s[0][..|s[0]| - 1]] else []
    requires TotalLength(rest) + |rest| <= TotalLength(s[1..])
    requires |rest| <= |s[1..]|
    ensures TotalLength(head + rest) + |head + rest| <= TotalLength(s)
    ensures |head + rest| <= |s|
  {
    TotalLengthCons(s[0], s[1..]);
    assert s == [s[0]] + s[1..];
    if |head| == 1 {
      TotalLengthCons(head[0], rest);
    } else {
      assert head + rest == rest;
    }
  }

  lemma TrimmedFrom(s: seq<string>, head: seq<string>, rest: seq<string>)
    requires |s| > 0
    requires head == if EndsWith(s[0], "s") then [s[0][..|s[0]| - 1]] else []
    requires forall k :: 0 <= k < |rest| ==> rest[k] + "s" in s[1..]
    ensures forall k :: 0 <= k < |head + rest| ==> (head + rest)[k] + "s" in s
  {
    var r := head + rest;
    forall k | 0 <= k < |r| ensures r[k] + "s" in s {
      if k < |head| {
        assert r[k] + "s" == s[0];
      } else {
        assert r[k] == rest[k - |head|];
        assert r[k] + "s" in s[1..];
      }
    }
  }

  lemma TrimmedAll(s: seq<string>, head: seq<string>, rest: seq<string>)
    requires |s| > 0
    requires head == if EndsWith(s[0], "s") then [s[0][..|s[0]| - 1]] else []
    requires forall k :: 0 <= k < |s[1..]| && EndsWith(s[1..][k], "s") ==> s[1..][k][..|s[1..][k]| - 1] in rest
    ensures forall k :: 0 <= k < |s| && EndsWith(s[k], "s") ==> s[k][..|s[k]| - 1] in head + rest
  {
    var r := head + rest;
    forall k | 0 <= k < |s| && EndsWith(s[k], "s") ensures s[k][..|s[k]| - 1] in r {
      if k == 0 {
        assert r[0] == head[0];
      } else {
        assert s[k] == s[1..][k - 1];
      }
    }
  }

  /** Trimming a concatenation trims each part: the trimmed phrases keep
      their order and multiplicity. */
  lemma {:induction false} TrimmedAppend(a: seq<string>, b: seq<string>)
    ensures Trimmed(a + b) == Trimmed(a) + Trimmed(b)
    decreases |a|
  {
    if |a| == 0 {
      assert a + b == b;
    } else {
      var h, x := if EndsWith(a[0], "s") then [a[0][..|a[0]| - 1]] else [], a[1..];
      assert (a + b)[0] == a[0] && (a + b)[1..] == x + b;
      TrimmedAppend(x, b);
      assert Trimmed(a + b) == h + (Trimmed(x) + Trimmed(b));
      ConcatAssoc(h, Trimmed(x), Trimmed(b));
    }
  }

  /** One phrase yields itself without its last letter exactly when it ends
      in "s", and nothing otherwise. */
  lemma TrimmedSingle(w: string)
    ensures Trimmed([w]) == if EndsWith(w, "s") then [w[..|w| - 1]] else []
  {
    assert [w][1..] == [];
  }

  /** `create_and_fire_query`: search the sorted property phrases and the
      entity phrases; with ids for both, try the pairs over the first ten
      property ids; with no property id, retry with the plural phrases
      trimmed, for as long as that leaves a phrase. The recursion ends
      because the total length of the phrases drops with each retry. */
  function CreateAndFireQuery(propertyList: seq<string>, entityList: seq<string>, search: Search, exec: Executor): Result<string>
    decreases TotalLength(propertyList)
  {
    var sorted := SortByLen(propertyList);
    var properties := AllIds(search, sorted, Property);
    var entities := AllIds(search, entityList, Item);
    if |entities| > 0 && |properties| > 0 then
      match FirstAnswer(Cross(entities, Take(properties, PropertyCap)), p => RunPair(exec, p))
      case Answered(rows, _) => Ok(AnswerText(rows))
      case Exhausted(_) => Ok(NotFound)
      case Failed(e, _) => Raise(e)
    else if |properties| == 0 then
      var next := Trimmed(sorted);
      if |next| > 0 then CreateAndFireQuery(next, entityList, search, exec) else Ok(NotFound)
    else Ok(NotFound)
  }

  /** With entity ids E and the first ten property ids P (of the phrases
      sorted longest first), when (E[i], P[j]) is the first pair in
      entity-major order whose query has bindings, the answer is the text of
      those bindings. */
  lemma AnswerFirstPair(propertyList: seq<string>, entityList: seq<string>, search: Search, exec: Executor, i: nat, j: nat)
    requires var e, p := AllIds(search, entityList, Item), Take(AllIds(search, SortByLen(propertyList), Property), PropertyCap);
      && i < |e| && j < |p|
      && (forall a, b :: 0 <= a < |e| && 0 <= b < |p| && (a < i || (a == i && b < j)) ==>
            RunPair(exec, Pair(e[a], p[b])) == Ok([]))
      && RunPair(exec, Pair(e[i], p[j])).Ok? && RunPair(exec, Pair(e[i], p[j])).value != []
    ensures var e, p := AllIds(search, entityList, Item), Take(AllIds(search, SortByLen(propertyList), Property), PropertyCap);
      CreateAndFireQuery(propertyList, entityList, search, exec) == Ok(AnswerText(RunPair(exec, Pair(e[i], p[j])).value))
  {
    var e, p := AllIds(search, entityList, Item), Take(AllIds(search, SortByLen(propertyList), Property), PropertyCap);
    ShortCircuit(e, p, pr => RunPair(exec, pr), i, j);
  }

  /** With entity ids and property ids, when every pair over the first ten
      property ids comes back without bindings, the answer is
      "Answer not found". */
  lemma ExhaustedNotFound(propertyList: seq<string>, entityList: seq<string>, search: Search, exec: Executor)
    requires var e, p := AllIds(search, entityList, Item), AllIds(search, SortByLen(propertyList), Property);
      && |e| > 0 && |p| > 0
      && forall pair :: pair in Cross(e, Take(p, PropertyCap)) ==> RunPair(exec, pair) == Ok([])
    ensures CreateAndFireQuery(propertyList, entityList, search, exec) == Ok(NotFound)
  {
    var e, p := AllIds(search, entityList, Item), AllIds(search, SortByLen(propertyList), Property);
    ExhaustedIffAllEmpty(Cross(e, Take(p, PropertyCap)), pr => RunPair(exec, pr));
  }

  /** Property ids without any entity id give "Answer not found" at once,
      with no retry. */
  lemma NoEntityIds(propertyList: seq<string>, entityList: seq<string>, search: Search, exec: Executor)
    requires AllIds(search, entityList, Item) == []
    requires AllIds(search, SortByLen(propertyList), Property) != []
    ensures CreateAndFireQuery(propertyList, entityList, search, exec) == Ok(NotFound)
  {
  }

  /** No exception escapes: every pair's query formats. */
  lemma {:induction false} NeverRaises(propertyList: seq<string>, entityList: seq<string>, search: Search, exec: Executor)
    ensures CreateAndFireQuery(propertyList, entityList, search, exec).Ok?
    decreases TotalLength(propertyList)
  {
    var sorted := SortByLen(propertyList);
    var properties := AllIds(search, sorted, Property);
    var entities := AllIds(search, entityList, Item);
    if |entities| > 0 && |properties| > 0 {
      var s := FirstAnswer(Cross(entities, Take(properties, PropertyCap)), p => RunPair(exec, p));
      if s.Failed? {
        RunPairOk(exec, s.trace[|s.trace| - 1]);
      }
    } else if |properties| == 0 && |Trimmed(sorted)| > 0 {
      NeverRaises(Trimmed(sorted), entityList, search, exec);
    }
  }

  /** When the property search never finds anything, every retry fails too
      and the answer is "Answer not found", however many plural endings the
      phrases have. */
  lemma {:induction false} NoPropertyIds(propertyList: seq<string>, entityList: seq<string>, search: Search, exec: Executor)
    requires forall phrase :: search(phrase, Property) == []
    ensures CreateAndFireQuery(propertyList, entityList, search, exec) == Ok(NotFound)
    decreases TotalLength(propertyList)
  {
    var sorted := SortByLen(propertyList);
    AllIdsEmpty(search, sorted, Property);
    if |Trimmed(sorted)| > 0 {
      NoPropertyIds(Trimmed(sorted), entityList, search, exec);
    }
  }

  /** With no property id for any of the sorted phrases, the answer is the
      answer for the trimmed phrases, when there are any. */
  lemma RetryStep(propertyList: seq<string>, entityList: seq<string>, search: Search, exec: Executor)
    requires AllIds(search, SortByLen(propertyList), Property) == []
    requires |Trimmed(SortByLen(propertyList))| > 0
    ensures CreateAndFireQuery(propertyList, entityList, search, exec)
      == CreateAndFireQuery(Trimmed(SortByLen(propertyList)), entityList, search, exec)
  {
  }

  /** The fallback is not limited to one retry: a phrase ending in "ss"
      whose two longer forms find no property is searched again with both
      endings trimmed. */
  lemma RetriesTwice(w: string, entityList: seq<string>, search: Search, exec: Executor)
    requires search(w + "ss", Property) == [] && search(w + "s", Property) == []
    ensures CreateAndFireQuery([w + "ss"], entityList, search, exec)
      == CreateAndFireQuery([w], entityList, search, exec)
  {
    var a, b := w + "ss", w + "s";
    SingleTrim(a, b, search);
    SingleTrim(b, w, search);
    RetryStep([a], entityList, search, exec);
    RetryStep([b], entityList, search, exec);
  }

  lemma SingleTrim(a: string, b: string, search: Search)
    requires a == b + "s" && search(a, Property) == []
    ensures SortByLen([a]) == [a]
    ensures AllIds(search, [a], Property) == []
    ensures Trimmed([a]) == [b]
  {
    assert [a][1..] == [];
    assert a[..|a| - 1] == b;
  }
}
