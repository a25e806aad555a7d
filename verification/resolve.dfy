/** Turning the entity and relation phrases into knowledge-graph identifiers
    through the search service. */
module Resolve {
  import opened Python

  /** Which kind of identifier a search looks for. */
  datatype Namespace = Item | Property

  /** A search service: the ordered hits for a text in a namespace. For the
      full-text search these are page titles, for the entity search ids. */
  type Search = (string, Namespace) -> seq<string>

  /** Length of the "Property:" title prefix of property pages. */
  const PropertyPrefixLength: nat := 9

  /** The title without its first nine characters, the length of "Property:";
      shorter titles give the empty string, as slicing does. */
  function PropertyId(title: string): string {
    Drop(title, PropertyPrefixLength)
  }

  /** Stripping the prefix from a property page title gives the property id back. */
  lemma PropertyIdOfTitle(id: string)
    ensures PropertyId("Property:" + id) == id
  {
    assert |"Property:"| == PropertyPrefixLength;
    assert ("Property:" + id)[PropertyPrefixLength..] == id;
  }

  /** `query_wikidata_api`: the hit titles in search order, with the prefix
      stripped from property titles; `None` when the search finds nothing. */
  function SearchTitles(search: Search, text: string, propSearch: bool): (r: Option<seq<string>>)
    ensures var hits := search(text, if propSearch then Property else Item);
      && (r.None? <==> hits == [])
      && (r.Some? ==> (|r.value| == |hits|
            && forall k :: 0 <= k < |hits| ==>
                 r.value[k] == if propSearch then PropertyId(hits[k]) else hits[k]))
  {
    var hits := search(text, if propSearch then Property else Item);
    if |hits| == 0 then None
    else Some(seq(|hits|, k requires 0 <= k < |hits| => if propSearch then PropertyId(hits[k]) else hits[k]))
  }

  /** `json['search'][0]['id']`: the first hit, or IndexError when there is none. */
  function FirstId(search: Search, text: string, ns: Namespace): (r: Result<string>)
    ensures r.Ok? <==> search(text, ns) != []
    ensures r.Ok? ==> r.value == search(text, ns)[0]
  {
    var hits := search(text, ns);
    if |hits| == 0 then Raise(IndexError) else Ok(hits[0])
  }

  /** `[id for phrase in phrases for id in search(phrase)]`: all hits, phrase
      by phrase and in search order within each phrase. */
  function AllIds(search: Search, phrases: seq<string>, ns: Namespace): seq<string> {
    if |phrases| == 0 then [] else search(phrases[0], ns) + AllIds(search, phrases[1..], ns)
  }

  /** Collecting hits distributes over concatenation of the phrase list. */
  lemma {:induction false} AllIdsAppend(search: Search, a: seq<string>, b: seq<string>, ns: Namespace)
    ensures AllIds(search, a + b, ns) == AllIds(search, a, ns) + AllIds(search, b, ns)
    decreases |a|
  {
    if |a| == 0 {
      assert a + b == b;
    } else {
      assert (a + b)[0] == a[0];
      assert (a + b)[1..] == a[1..] + b;
      AllIdsAppend(search, a[1..], b, ns);
    }
  }

  /** No ids at all exactly when every phrase finds nothing. */
  lemma {:induction false} AllIdsEmpty(search: Search, phrases: seq<string>, ns: Namespace)
    ensures AllIds(search, phrases, ns) == [] <==>
      forall k :: 0 <= k < |phrases| ==> search(phrases[k], ns) == []
    decreases |phrases|
  {
    if |phrases| > 0 {
      AllIdsEmpty(search, phrases[1..], ns);
      assert forall k :: 1 <= k < |phrases| ==> phrases[k] == phrases[1..][k - 1];
    }
  }
}
