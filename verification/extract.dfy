/** The dependency-rule extractors that s3234045.py and system2.py share
    word for word: each reads an entity phrase and a relation phrase off an
    annotated question. */
module Extract {
  import opened Python
  import opened Tokens

  /** What an extractor returns: entity words, relation words, and the extra
      constraint text (always empty in these scripts). */
  datatype Parsed = Parsed(entity: seq<string>, relation: seq<string>, extra: string)

  predicate IsSubject(t: Token) {
    t.dep == "nsubj" || t.dep == "nsubjpass"
  }

  predicate IsPobj(t: Token) {
    t.dep == "pobj"
  }

  predicate IsRoot(t: Token) {
    t.dep == "ROOT"
  }

  /** `when_where`: the entity is the subtree of the first subject token, the
      relation the lemmas of the first and the last token. Without a subject,
      `next` raises StopIteration. */
  function WhenWhere(doc: Doc): (r: Result<Parsed>)
    ensures r.Raise? <==> forall k :: 0 <= k < |doc| ==> !IsSubject(doc[k])
    ensures r.Raise? ==> r.error == StopIteration
    ensures r.Ok? ==> |doc| > 0 && r.value.relation == [doc[0].lemmaForm, doc[|doc| - 1].lemmaForm]
    ensures r.Ok? ==> r.value.extra == ""
  {
    match First(doc, IsSubject)
    case None => Raise(StopIteration)
    case Some(s) =>
      Ok(Parsed(Texts(doc, Subtree(doc, s)), [doc[0].lemmaForm, doc[|doc| - 1].lemmaForm], ""))
  }

  /** With `s` the first subject, the entity words are the texts of the tokens
      in the subtree of `s`, in question order. */
  lemma WhenWhereSubject(doc: Doc, s: nat)
    requires s < |doc| && IsSubject(doc[s])
    requires forall k :: 0 <= k < s ==> !IsSubject(doc[k])
    ensures WhenWhere(doc) ==
      Ok(Parsed(Texts(doc, Subtree(doc, s)), [doc[0].lemmaForm, doc[|doc| - 1].lemmaForm], ""))
  {
    FirstIs(doc, IsSubject, s);
  }

  /** `x_of_y`: with `p` the first prepositional object and `g` the head of its
      head, the relation is the texts of the left children of `g` followed by
      the text of `g`, and the entity is the subtree of `p`. */
  function XOfY(doc: Doc): (r: Result<Parsed>)
    ensures r.Raise? <==> forall k :: 0 <= k < |doc| ==> !IsPobj(doc[k])
    ensures r.Raise? ==> r.error == StopIteration
    ensures r.Ok? ==> |r.value.relation| > 0 && r.value.extra == ""
  {
    match First(doc, IsPobj)
    case None => Raise(StopIteration)
    case Some(p) =>
      var g := doc[doc[p].head].head;
      Ok(Parsed(Texts(doc, Subtree(doc, p)), Texts(doc, Lefts(doc, g)) + [doc[g].text], ""))
  }

  /** With `p` the first prepositional object and `g` its grandparent, the
      relation lists, in order, the texts of the tokens before `g` whose head
      is `g`, then the text of `g`; the entity lists the subtree of `p`. */
  lemma XOfYPobj(doc: Doc, p: nat)
    requires p < |doc| && IsPobj(doc[p])
    requires forall k :: 0 <= k < p ==> !IsPobj(doc[k])
    ensures var g := doc[doc[p].head].head;
      XOfY(doc) == Ok(Parsed(Texts(doc, Subtree(doc, p)), Texts(doc, Lefts(doc, g)) + [doc[g].text], ""))
  {
    FirstIs(doc, IsPobj, p);
  }

  /** `who_did_x` of s3234045.py: the relation is "who" and the lemma of the
      first ROOT token; the entity is the texts of the tokens from the match end
      on (`result[end:]`, which is empty past the end). */
  function WhoDidX(doc: Doc, end: nat): (r: Result<Parsed>)
    ensures r.Raise? <==> forall k :: 0 <= k < |doc| ==> !IsRoot(doc[k])
    ensures r.Raise? ==> r.error == StopIteration
    ensures r.Ok? ==> |r.value.relation| == 2 && r.value.relation[0] == "who"
    ensures r.Ok? ==> |r.value.entity| == if end <= |doc| then |doc| - end else 0
    ensures r.Ok? ==> forall k :: 0 <= k < |r.value.entity| ==> r.value.entity[k] == doc[end + k].text
  {
    match First(doc, IsRoot)
    case None => Raise(StopIteration)
    case Some(root) =>
      Ok(Parsed(TokenTexts(Slice(doc, end, |doc|)), ["who", doc[root].lemmaForm], ""))
  }

  /** With `root` the first ROOT token, the relation is "who" followed by the
      lemma of `root`, and the entity is the texts of `result[end:]`. */
  lemma WhoDidXRoot(doc: Doc, end: nat, root: nat)
    requires root < |doc| && IsRoot(doc[root])
    requires forall k :: 0 <= k < root ==> !IsRoot(doc[k])
    ensures WhoDidX(doc, end) == Ok(Parsed(TokenTexts(Slice(doc, end, |doc|)), ["who", doc[root].lemmaForm], ""))
  {
    FirstIs(doc, IsRoot, root);
  }
}
