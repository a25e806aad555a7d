/** The annotated question: immutable token records with a dependency head
    index and an entity tag, and the views the scripts take of it (a token's
    subtree and left children, the named-entity spans, span text). */
module Tokens {
  import opened Python

  /** The entity tag of a token: begins an entity, inside one, outside, or unset. */
  datatype Iob = B | I | O | Unset

  /** One token as the annotator produces it. `head` is the index of the
      syntactic head (the root is its own head); `spaceAfter` tells whether a
      space follows the token in the question text. */
  datatype Token = Token(
    text: string, lemmaForm: string, pos: string, tag: string, dep: string,
    head: nat, iob: Iob, spaceAfter: bool)

  predicate HeadsInRange(ts: seq<Token>) {
    forall k :: 0 <= k < |ts| ==> ts[k].head < |ts|
  }

  /** An annotated question: every head index names a token of the question. */
  type Doc = ts: seq<Token> | HeadsInRange(ts) witness []

  /** One match reported by the pattern matcher: pattern and token range [start, end). */
  datatype Match<P> = Match(id: P, start: nat, end: nat)

  /** `i` is `j` or one of its ancestors, following at most `fuel` head links. */
  predicate Dominates(doc: Doc, i: nat, j: nat, fuel: nat)
    requires j < |doc|
    decreases fuel
  {
    j == i || (fuel > 0 && doc[j].head != j && Dominates(doc, i, doc[j].head, fuel - 1))
  }

  /** Token `k` belongs to the subtree of token `i`. A chain of heads without
      repetition is shorter than the question, so `|doc|` links are enough
      whenever the heads form a tree. */
  predicate InSubtree(doc: Doc, i: nat, k: nat)
    requires k < |doc|
  {
    Dominates(doc, i, k, |doc|)
  }

  predicate Increasing(s: seq<nat>) {
    forall a, b :: 0 <= a < b < |s| ==> s[a] < s[b]
  }

  function SubtreeFrom(doc: Doc, i: nat, k: nat): (r: seq<nat>)
    requires k <= |doc|
    ensures forall x: nat :: x in r <==> k <= x < |doc| && InSubtree(doc, i, x)
    ensures forall j :: 0 <= j < |r| ==> r[j] < |doc|
    ensures Increasing(r)
    decreases |doc| - k
  {
    if k == |doc| then []
    else
      var rest := SubtreeFrom(doc, i, k + 1);
      assert forall b :: 0 <= b < |rest| ==> rest[b] in rest;
      (if InSubtree(doc, i, k) then [k] else []) + rest
  }

  /** `token.subtree`: the token and everything that depends on it, in question order. */
  function Subtree(doc: Doc, i: nat): (r: seq<nat>)
    ensures forall x: nat :: x in r <==> x < |doc| && InSubtree(doc, i, x)
    ensures forall k :: 0 <= k < |r| ==> r[k] < |doc|
    ensures Increasing(r)
    ensures i < |doc| ==> i in r
  {
    SubtreeFrom(doc, i, 0)
  }

  function LeftsFrom(doc: Doc, i: nat, k: nat): (r: seq<nat>)
    requires k <= |doc|
    ensures forall x: nat :: x in r <==> k <= x < i && x < |doc| && doc[x].head == i
    ensures forall j :: 0 <= j < |r| ==> r[j] < |doc|
    ensures Increasing(r)
    decreases |doc| - k
  {
    if k == |doc| then []
    else
      var rest := LeftsFrom(doc, i, k + 1);
      assert forall b :: 0 <= b < |rest| ==> rest[b] in rest;
      (if k < i && doc[k].head == i then [k] else []) + rest
  }

  /** `token.lefts`: the children of token `i` that stand before it, in order. */
  function Lefts(doc: Doc, i: nat): (r: seq<nat>)
    ensures forall x: nat :: x in r <==> x < i && x < |doc| && doc[x].head == i
    ensures forall k :: 0 <= k < |r| ==> r[k] < |doc|
    ensures Increasing(r)
  {
    LeftsFrom(doc, i, 0)
  }

  /** The texts of the tokens at `idx`. */
  function Texts(doc: Doc, idx: seq<nat>): (r: seq<string>)
    requires forall k :: 0 <= k < |idx| ==> idx[k] < |doc|
    ensures |r| == |idx|
    ensures forall k :: 0 <= k < |idx| ==> r[k] == doc[idx[k]].text
  {
    if |idx| == 0 then [] else [doc[idx[0]].text] + Texts(doc, idx[1..])
  }

  /** `next(i for i, t in enumerate(doc) if p(t))`: the first token satisfying `p`. */
  function First(doc: seq<Token>, p: Token -> bool): (r: Option<nat>)
    ensures r.Some? ==> r.value < |doc| && p(doc[r.value])
    ensures r.Some? ==> forall k :: 0 <= k < r.value ==> !p(doc[k])
    ensures r.None? ==> forall k :: 0 <= k < |doc| ==> !p(doc[k])
  {
    if |doc| == 0 then None
    else if p(doc[0]) then Some(0)
    else match First(doc[1..], p)
      case None => None
      case Some(k) => Some(k + 1)
  }

  /** The first token satisfying `p` is the one at `k` exactly when `k`
      satisfies it and no earlier token does. */
  lemma FirstIs(doc: seq<Token>, p: Token -> bool, k: nat)
    requires k < |doc| && p(doc[k])
    requires forall j :: 0 <= j < k ==> !p(doc[j])
    ensures First(doc, p) == Some(k)
  {
    var f := First(doc, p);
    assert f.Some?;
    assert f.value <= k;
    assert !(f.value < k);
  }

  // ---------------------------------------------------------------------------
  // Named entities

  predicate InEntity(t: Token) {
    t.iob == B || t.iob == I
  }

  /** The tokens tagged as beginning or inside a named entity, in order. */
  function EntityTokens(ts: seq<Token>): (r: seq<Token>)
    ensures forall k :: 0 <= k < |r| ==> InEntity(r[k])
    ensures |r| <= |ts|
  {
    if |ts| == 0 then [] else (if InEntity(ts[0]) then [ts[0]] else []) + EntityTokens(ts[1..])
  }

  /** The B/I filter keeps exactly the tagged tokens, in order: it distributes
      over concatenation and keeps a single token iff it is tagged B or I. */
  lemma {:induction false} EntityTokensAppend(a: seq<Token>, b: seq<Token>)
    ensures EntityTokens(a + b) == EntityTokens(a) + EntityTokens(b)
    decreases |a|
  {
    if |a| == 0 {
      assert a + b == b;
    } else {
      var ab := a + b;
      assert ab[0] == a[0];
      assert ab[1..] == a[1..] + b;
      EntityTokensAppend(a[1..], b);
      var h := if InEntity(a[0]) then [a[0]] else [];
      assert EntityTokens(ab) == h + EntityTokens(ab[1..]);
      assert EntityTokens(a) == h + EntityTokens(a[1..]);
    }
  }

  lemma EntityTokensSingle(t: Token)
    ensures EntityTokens([t]) == if InEntity(t) then [t] else []
  {
    assert [t][1..] == [];
  }

  /** The end of the entity that continues at `j`: the first token from `j` on
      that is not tagged I. */
  function RunEnd(ts: seq<Token>, j: nat): (e: nat)
    requires j <= |ts|
    ensures j <= e <= |ts|
    ensures forall k :: j <= k < e ==> ts[k].iob == I
    ensures e < |ts| ==> ts[e].iob != I
    decreases |ts| - j
  {
    if j < |ts| && ts[j].iob == I then RunEnd(ts, j + 1) else j
  }

  /** The entity spans (`doc.ents`) from token `i` on: a span starts at a B or I
      token and runs over the I tokens that follow. */
  function SpansFrom(ts: seq<Token>, i: nat): (r: seq<(nat, nat)>)
    requires i <= |ts|
    ensures forall k :: 0 <= k < |r| ==> i <= r[k].0 < r[k].1 <= |ts|
    decreases |ts| - i
  {
    if i == |ts| then []
    else if InEntity(ts[i]) then
      var e := RunEnd(ts, i + 1);
      [(i, e)] + SpansFrom(ts, e)
    else SpansFrom(ts, i + 1)
  }

  function EntitySpans(ts: seq<Token>): (r: seq<(nat, nat)>)
    ensures forall k :: 0 <= k < |r| ==> r[k].0 < r[k].1 <= |ts|
  {
    SpansFrom(ts, 0)
  }

  function SpanTokens(ts: seq<Token>, spans: seq<(nat, nat)>): seq<Token>
    requires forall k :: 0 <= k < |spans| ==> spans[k].0 <= spans[k].1 <= |ts|
  {
    if |spans| == 0 then [] else ts[spans[0].0..spans[0].1] + SpanTokens(ts, spans[1..])
  }

  lemma {:induction false} EntityTokensOfRun(ts: seq<Token>, j: nat, e: nat)
    requires j <= e <= |ts|
    requires forall k :: j <= k < e ==> InEntity(ts[k])
    ensures EntityTokens(ts[j..e]) == ts[j..e]
    decreases e - j
  {
    if j < e {
      assert ts[j..e][1..] == ts[j + 1..e];
      EntityTokensOfRun(ts, j + 1, e);
      assert ts[j..e] == [ts[j]] + ts[j + 1..e];
    }
  }

  lemma {:induction false} SpansCoverFrom(ts: seq<Token>, i: nat)
    requires i <= |ts|
    ensures SpanTokens(ts, SpansFrom(ts, i)) == EntityTokens(ts[i..])
    decreases |ts| - i
  {
    if i < |ts| {
      if InEntity(ts[i]) {
        var e := RunEnd(ts, i + 1);
        SpansCoverFrom(ts, e);
        SpanTokensCons(ts, i, e, SpansFrom(ts, e));
        EntityRunPrefix(ts, i, e);
      } else {
        SpansCoverFrom(ts, i + 1);
        EntityTokensSkip(ts, i);
      }
    }
  }

  /** An entity token followed by its run of I tokens is kept whole. */
  lemma EntityRunPrefix(ts: seq<Token>, i: nat, e: nat)
    requires i < e <= |ts| && InEntity(ts[i])
    requires forall k :: i + 1 <= k < e ==> ts[k].iob == I
    ensures EntityTokens(ts[i..]) == ts[i..e] + EntityTokens(ts[e..])
  {
    assert forall k :: i <= k < e ==> InEntity(ts[k]);
    var run, tail := ts[i..e], ts[e..];
    assert ts[i..] == run + tail;
    EntityTokensAppend(run, tail);
    EntityTokensOfRun(ts, i, e);
  }

  lemma EntityTokensSkip(ts: seq<Token>, i: nat)
    requires i < |ts| && !InEntity(ts[i])
    ensures EntityTokens(ts[i..]) == EntityTokens(ts[i + 1..])
  {
    assert ts[i..] == [ts[i]] + ts[i + 1..];
    EntityTokensAppend([ts[i]], ts[i + 1..]);
    EntityTokensSingle(ts[i]);
  }

  lemma SpanTokensCons(ts: seq<Token>, i: nat, e: nat, rest: seq<(nat, nat)>)
    requires i <= e <= |ts|
    requires forall k :: 0 <= k < |rest| ==> rest[k].0 <= rest[k].1 <= |ts|
    ensures SpanTokens(ts, [(i, e)] + rest) == ts[i..e] + SpanTokens(ts, rest)
  {
    assert ([(i, e)] + rest)[1..] == rest;
  }

  /** The entity spans cover exactly the B/I-tagged tokens, in order: joining
      the tokens of `doc.ents` gives the tokens `get_entities` keeps. */
  lemma EntitySpansCover(ts: seq<Token>)
    ensures SpanTokens(ts, EntitySpans(ts)) == EntityTokens(ts)
  {
    SpansCoverFrom(ts, 0);
    assert ts[0..] == ts;
  }

  /** `span.text`: the tokens with their trailing spaces, except after the last. */
  function SpanText(ts: seq<Token>): string {
    if |ts| == 0 then []
    else if |ts| == 1 then ts[0].text
    else ts[0].text + (if ts[0].spaceAfter then " " else "") + SpanText(ts[1..])
  }

  function TokenTexts(ts: seq<Token>): (r: seq<string>)
    ensures |r| == |ts|
    ensures forall k :: 0 <= k < |ts| ==> r[k] == ts[k].text
  {
    if |ts| == 0 then [] else [ts[0].text] + TokenTexts(ts[1..])
  }

  /** When a space follows every token but the last, the span text is the
      token texts joined by single spaces, and splitting it on whitespace gives
      the token texts back (for non-empty texts without whitespace). */
  lemma {:induction false} SpanTextSplit(ts: seq<Token>)
    requires forall k :: 0 <= k < |ts| - 1 ==> ts[k].spaceAfter
    requires forall k :: 0 <= k < |ts| ==> |ts[k].text| > 0 && NoSpace(ts[k].text)
    ensures SpanText(ts) == JoinSpace(TokenTexts(ts))
    ensures Split(SpanText(ts)) == TokenTexts(ts)
    decreases |ts|
  {
    if |ts| > 1 {
      SpanTextSplit(ts[1..]);
      assert TokenTexts(ts)[1..] == TokenTexts(ts[1..]);
    }
    SplitJoinSpace(TokenTexts(ts));
  }

  /** The texts of the entities, `[e.text for e in doc.ents]`. */
  function EntityTexts(ts: seq<Token>): (r: seq<string>)
    ensures |r| == |EntitySpans(ts)|
  {
    var spans := EntitySpans(ts);
    seq(|spans|, k requires 0 <= k < |spans| => SpanText(ts[spans[k].0..spans[k].1]))
  }
}
