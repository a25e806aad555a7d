/** `translate_query`: turns the relation words of a question into the phrase
    used to search for a knowledge-graph property. The three copies differ only
    in their stop-word sets. */
module Normaliser {
  import opened Python

  /** Stop words of s3234045.py. */
  const StopWordsPlain: set<string> := {"a", "by", "of", "the", "'s", "\""}

  /** Stop words of system.py and system2.py: a lone apostrophe is one too. */
  const StopWordsApostrophe: set<string> := StopWordsPlain + {"'"}

  /** The words of `query` that are not stop words, in order. */
  function RemoveStopWords(stop: set<string>, query: seq<string>): (r: seq<string>)
    ensures |r| <= |query|
    ensures forall k :: 0 <= k < |r| ==> r[k] !in stop && r[k] in query
    ensures forall k :: 0 <= k < |query| && query[k] !in stop ==> query[k] in r
  {
    if |query| == 0 then []
    else
      var rest := RemoveStopWords(stop, query[1..]);
      assert forall k :: 1 <= k < |query| ==> query[k] == query[1..][k - 1];
      (if query[0] in stop then [] else [query[0]]) + rest
  }

  /** One word is kept exactly when it is not a stop word. With
      `RemoveStopWordsAppend` this pins the filter down word by word. */
  lemma RemoveStopWordsSingle(stop: set<string>, w: string)
    ensures RemoveStopWords(stop, [w]) == if w in stop then [] else [w]
  {
    assert [w][1..] == [];
  }

  /** `trans_dict` of the source, restricted to the verb keys the lookup can reach. */
  function Translation(verb: string): string
    requires verb in {"direct", "write", "compose", "invent", "bear", "die"}
  {
    match verb
    case "direct" => "director"
    case "write" => "author"
    case "compose" => "composer"
    case "invent" => "inventor"
    case "bear" => "birth"
    case "die" => "death"
  }

  /** The source's two-level lookup on the first two remaining words. The
      `publish`/`release` branch of the source compares a word with a list,
      which is never equal, so it never yields a phrase and is left out here. */
  function Lookup(question: string, verb: string): Option<string> {
    if verb in {"direct", "write", "compose", "invent"} then
      if question == "who" then Some(Translation(verb))
      else if question == "when" then Some("inception")
      else None
    else if verb in {"bear", "die"} then
      if question == "when" then Some("date of " + Translation(verb))
      else if question == "where" then Some("place of " + Translation(verb))
      else None
    else None
  }

  /** The relation phrase, as the source computes it. */
  function TranslateQuery(stop: set<string>, query: seq<string>): string {
    var words := RemoveStopWords(stop, query);
    var joined := JoinSpace(words);
    if "members" in words then "has part"
    else if |words| < 2 then joined
    else match Lookup(words[0], words[1])
      case Some(phrase) => phrase
      case None => joined
  }

  /** The canonical relations written out as one flat table of
      (question word, verb) pairs. */
  function CanonicalRelation(question: string, verb: string): Option<string> {
    match (question, verb)
    case ("who", "direct") => Some("director")
    case ("who", "write") => Some("author")
    case ("who", "compose") => Some("composer")
    case ("who", "invent") => Some("inventor")
    case ("when", "direct") => Some("inception")
    case ("when", "write") => Some("inception")
    case ("when", "compose") => Some("inception")
    case ("when", "invent") => Some("inception")
    case ("when", "bear") => Some("date of birth")
    case ("when", "die") => Some("date of death")
    case ("where", "bear") => Some("place of birth")
    case ("where", "die") => Some("place of death")
    case _ => None
  }

  /** The source's nested lookup agrees with the flat table: "members" wins,
      then a table entry for the first two remaining words, and otherwise the
      remaining words joined by single spaces. */
  lemma TranslateQueryTable(stop: set<string>, query: seq<string>)
    ensures var words := RemoveStopWords(stop, query);
      TranslateQuery(stop, query) ==
        if "members" in words then "has part"
        else if |words| >= 2 && CanonicalRelation(words[0], words[1]).Some? then
          CanonicalRelation(words[0], words[1]).value
        else JoinSpace(words)
  {
    var words := RemoveStopWords(stop, query);
    if |words| >= 2 {
      LookupIsTable(words[0], words[1]);
    }
  }

  /** "who" followed by one of the agent verbs translates through
      `trans_dict`: "who direct" is "director", and so on. */
  lemma WhoAgent(stop: set<string>, verb: string)
    requires verb in {"direct", "write", "compose", "invent"}
    requires "who" !in stop && verb !in stop
    ensures TranslateQuery(stop, ["who", verb]) == Translation(verb)
  {
    var words := RemoveStopWords(stop, ["who", verb]);
    assert words == ["who", verb] by {
      RemoveStopWordsSingle(stop, "who");
      RemoveStopWordsSingle(stop, verb);
      RemoveStopWordsAppend(stop, ["who"], [verb]);
      assert ["who", verb] == ["who"] + [verb];
    }
    assert "members" !in words;
  }

  /** Neither "who" nor an agent verb is a stop word of any copy. */
  lemma AgentNotStop(verb: string)
    requires verb in {"direct", "write", "compose", "invent"}
    ensures "who" !in StopWordsApostrophe && verb !in StopWordsApostrophe
  {
    assert |verb| >= 5;
    assert "who"[0] == 'w' && "the"[0] == 't';
  }

  lemma LookupIsTable(question: string, verb: string)
    ensures Lookup(question, verb) == CanonicalRelation(question, verb)
  {
    if verb == "direct" {
    } else if verb == "write" {
    } else if verb == "compose" {
    } else if verb == "invent" {
    } else if verb == "bear" {
      assert "date of " + "birth" == "date of birth";
      assert "place of " + "birth" == "place of birth";
    } else if verb == "die" {
      assert "date of " + "death" == "date of death";
      assert "place of " + "death" == "place of death";
    } else {
      assert Lookup(question, verb) == None;
    }
  }

  /** "members" anywhere among the remaining words gives "has part", whatever
      the other words are. */
  lemma MembersOverrides(stop: set<string>, before: seq<string>, after: seq<string>)
    requires "members" !in stop
    ensures TranslateQuery(stop, before + ["members"] + after) == "has part"
  {
    RemoveStopWordsAppend(stop, before + ["members"], after);
    RemoveStopWordsAppend(stop, before, ["members"]);
    assert ["members"][1..] == [];
    var w := RemoveStopWords(stop, before + ["members"] + after);
    assert w[|RemoveStopWords(stop, before)|] == "members";
  }

  lemma {:induction false} RemoveStopWordsAppend(stop: set<string>, a: seq<string>, b: seq<string>)
    ensures RemoveStopWords(stop, a + b) == RemoveStopWords(stop, a) + RemoveStopWords(stop, b)
    decreases |a|
  {
    if |a| == 0 {
      assert a + b == b;
    } else {
      assert (a + b)[0] == a[0];
      assert (a + b)[1..] == a[1..] + b;
      RemoveStopWordsAppend(stop, a[1..], b);
    }
  }

  /** Only the first two remaining words are looked up: once they hit the
      table, any further words (short of "members") leave the result unchanged. */
  lemma OnlyFirstTwoWordsLookedUp(stop: set<string>, q: string, v: string, rest: seq<string>)
    requires q !in stop && v !in stop
    requires CanonicalRelation(q, v).Some?
    requires "members" !in rest
    ensures TranslateQuery(stop, [q, v] + rest) == CanonicalRelation(q, v).value
  {
    RemoveStopWordsAppend(stop, [q, v], rest);
    assert RemoveStopWords(stop, [q, v]) == [q, v] by {
      assert [q, v][1..] == [v];
      assert [v][1..] == [];
    }
    var words := RemoveStopWords(stop, [q, v] + rest);
    assert words == [q, v] + RemoveStopWords(stop, rest);
    assert "members" !in words;
    TranslateQueryTable(stop, [q, v] + rest);
  }

  /** A "publish" or "release" verb is never translated: the phrase stays the
      joined words. */
  lemma {:induction false} PublishReleaseUntranslated(stop: set<string>, q: string, v: string)
    requires v == "publish" || v == "release"
    requires q !in stop && v !in stop && q != "members"
    ensures TranslateQuery(stop, [q, v]) == q + " " + v
  {
    assert [q, v][1..] == [v];
    assert [v][1..] == [];
    assert RemoveStopWords(stop, [q, v]) == [q, v];
    assert JoinSpace([q, v]) == q + " " + JoinSpace([v]);
  }

  /** Removing stop words twice removes nothing more. */
  lemma {:induction false} RemoveStopWordsIdempotent(stop: set<string>, query: seq<string>)
    ensures RemoveStopWords(stop, RemoveStopWords(stop, query)) == RemoveStopWords(stop, query)
    decreases |query|
  {
    if |query| > 0 {
      var rest := RemoveStopWords(stop, query[1..]);
      RemoveStopWordsIdempotent(stop, query[1..]);
      if query[0] !in stop {
        assert RemoveStopWords(stop, query) == [query[0]] + rest;
        assert ([query[0]] + rest)[1..] == rest;
      } else {
        assert RemoveStopWords(stop, query) == rest;
      }
    }
  }

  /** Normalising a phrase already free of stop words gives the same relation:
      the normaliser is idempotent on content words. */
  lemma TranslateAfterRemoval(stop: set<string>, query: seq<string>)
    ensures TranslateQuery(stop, RemoveStopWords(stop, query)) == TranslateQuery(stop, query)
  {
    RemoveStopWordsIdempotent(stop, query);
  }

  /** The three copies agree whenever the phrase holds no lone apostrophe. */
  lemma {:induction false} CopiesAgree(query: seq<string>)
    requires "'" !in query
    ensures TranslateQuery(StopWordsPlain, query) == TranslateQuery(StopWordsApostrophe, query)
  {
    RemoveStopWordsSameOn(query);
  }

  lemma {:induction false} RemoveStopWordsSameOn(query: seq<string>)
    requires "'" !in query
    ensures RemoveStopWords(StopWordsPlain, query) == RemoveStopWords(StopWordsApostrophe, query)
    decreases |query|
  {
    if |query| > 0 {
      assert query[0] in query;
      assert forall w :: w in query[1..] ==> w in query;
      RemoveStopWordsSameOn(query[1..]);
    }
  }
}
