/** The SPARQL query text three of the scripts format with an entity id and a
    property id, and the printing of its answer labels. */
module Queries {
  import opened Python
  import opened Format
  import opened Bindings
  import Dates

  const LabelQueryHead: string := "SELECT ?answerLabel WHERE {   wd:"
  const LabelQueryMiddle: string := " wdt:"
  const LabelQueryTail: string :=
    " ?answer .   SERVICE wikibase:label {     bd:serviceParam wikibase:language \"en\" .  }}"

  /** The answer-label query: two automatic fields, the entity id and then the
      property id, between literal text whose braces the source doubles. */
  const AnswerLabelQuery: Template :=
    [Text(LabelQueryHead), Next, Text(LabelQueryMiddle), Next, Text(LabelQueryTail)]

  /** Formatting the query text with an entity id and a property id (and any
      further, unused arguments) puts the entity id after `wd:` and the
      property id after `wdt:`. */
  lemma AnswerLabelFormat(e: string, p: string, rest: seq<string>)
    ensures FormatString(Render(AnswerLabelQuery), [e, p] + rest)
      == Ok(LabelQueryHead + e + LabelQueryMiddle + p + LabelQueryTail)
  {
    FormatTwoAuto(LabelQueryHead, LabelQueryMiddle, LabelQueryTail, e, p, rest);
  }

  /** The lines `answer_question` prints for the rows of a successful query:
      each row's `answerLabel` value, reformatted when it is a timestamp. The
      first row without that variable raises KeyError, after the lines for
      the rows before it have been printed. */
  datatype Printed = Printed(lines: seq<string>, escaped: Option<PyError>)

  function PrintLabels(rows: seq<Row>): (p: Printed)
    ensures |p.lines| <= |rows|
    ensures p.escaped.Some? ==> p.escaped.value == KeyError && |p.lines| < |rows|
  {
    if |rows| == 0 then Printed([], None)
    else match Lookup(rows[0], "answerLabel")
      case Raise(e) => Printed([], Some(e))
      case Ok(v) =>
        var rest := PrintLabels(rows[1..]);
        Printed([Dates.Display(v)] + rest.lines, rest.escaped)
  }

  predicate Labelled(row: Row) {
    Lookup(row, "answerLabel").Ok?
  }

  /** Nothing escapes exactly when every row has an `answerLabel`; otherwise
      the row after the printed ones is the first without one. */
  lemma {:induction false} PrintLabelsEscapes(rows: seq<Row>)
    ensures var p := PrintLabels(rows);
      && (p.escaped.None? <==> forall k :: 0 <= k < |rows| ==> Labelled(rows[k]))
      && (p.escaped.Some? ==> !Labelled(rows[|p.lines|]))
    decreases |rows|
  {
    if |rows| > 0 && Labelled(rows[0]) {
      var tl := rows[1..];
      PrintLabelsEscapes(tl);
      assert |PrintLabels(rows).lines| == 1 + |PrintLabels(tl).lines|;
      assert forall k :: 1 <= k < |rows| ==> rows[k] == tl[k - 1];
    }
  }

  /** Each printed line is its row's label as `Dates.Display` shows it. */
  lemma {:induction false} PrintLabelsLines(rows: seq<Row>)
    ensures var p := PrintLabels(rows);
      forall k :: 0 <= k < |p.lines| ==>
        Labelled(rows[k]) && p.lines[k] == Dates.Display(Lookup(rows[k], "answerLabel").value)
    decreases |rows|
  {
    if |rows| > 0 && Labelled(rows[0]) {
      var tl := rows[1..];
      PrintLabelsLines(tl);
      var p, q := PrintLabels(rows), PrintLabels(tl);
      assert p.lines == [Dates.Display(Lookup(rows[0], "answerLabel").value)] + q.lines;
      forall k | 1 <= k < |p.lines|
        ensures Labelled(rows[k]) && p.lines[k] == Dates.Display(Lookup(rows[k], "answerLabel").value)
      {
        assert rows[k] == tl[k - 1] && p.lines[k] == q.lines[k - 1];
      }
    }
  }
}
