/** The candidate search: entity ids in the outer loop, property ids in the
    inner loop, one query per pair, stopping at the first pair whose query
    returns something. The scan records the pairs it executed. */
module Controller {
  import opened Python

  datatype Pair = Pair(entity: string, prop: string)

  /** How a scan ended, with the pairs executed, in order. */
  datatype Scan<R> =
    | Answered(rows: seq<R>, trace: seq<Pair>)
    | Exhausted(trace: seq<Pair>)
    | Failed(error: PyError, trace: seq<Pair>)

  function RowPairs(e: string, props: seq<string>): (r: seq<Pair>)
    ensures |r| == |props|
    ensures forall j :: 0 <= j < |props| ==> r[j] == Pair(e, props[j])
  {
    seq(|props|, j requires 0 <= j < |props| => Pair(e, props[j]))
  }

  /** All pairs, entity-major: every property with the first entity, then
      every property with the second, and so on. */
  function Cross(ents: seq<string>, props: seq<string>): seq<Pair> {
    if |ents| == 0 then [] else RowPairs(ents[0], props) + Cross(ents[1..], props)
  }

  lemma {:induction false} CrossAppend(a: seq<string>, b: seq<string>, props: seq<string>)
    ensures Cross(a + b, props) == Cross(a, props) + Cross(b, props)
    decreases |a|
  {
    if |a| == 0 {
      assert a + b == b;
    } else {
      assert (a + b)[0] == a[0];
      assert (a + b)[1..] == a[1..] + b;
      CrossAppend(a[1..], b, props);
    }
  }

  /** Pair (i, j) sits at position i * |props| + j of the cross product. */
  lemma {:induction false} CrossIndex(ents: seq<string>, props: seq<string>, i: nat, j: nat)
    requires i < |ents| && j < |props|
    ensures |Cross(ents, props)| == |ents| * |props|
    ensures i * |props| + j < |Cross(ents, props)|
    ensures Cross(ents, props)[i * |props| + j] == Pair(ents[i], props[j])
    decreases i
  {
    CrossLength(ents, props);
    var n := |props|;
    if i == 0 {
    } else {
      CrossIndex(ents[1..], props, i - 1, j);
      assert i * n + j == n + ((i - 1) * n + j);
      assert (|ents| - 1) * n + n == |ents| * n;
    }
  }

  lemma {:induction false} CrossLength(ents: seq<string>, props: seq<string>)
    ensures |Cross(ents, props)| == |ents| * |props|
    decreases |ents|
  {
    if |ents| > 0 {
      CrossLength(ents[1..], props);
      assert (|ents| - 1) * |props| + |props| == |ents| * |props|;
    }
  }

  /** The first pair whose query returns a non-empty list; every pair before it
      was executed and returned nothing, and no pair after it is executed. An
      exception stops the scan at the pair that raised it. */
  function FirstAnswer<R>(pairs: seq<Pair>, run: Pair -> Result<seq<R>>): (s: Scan<R>)
    ensures |s.trace| <= |pairs| && s.trace == pairs[..|s.trace|]
    ensures s.Exhausted? ==> s.trace == pairs
    ensures forall k :: 0 <= k < |s.trace| ==>
      (k < |s.trace| - 1 || s.Exhausted?) ==> run(s.trace[k]) == Ok([])
    ensures s.Answered? ==> |s.trace| > 0 && s.rows != [] && run(s.trace[|s.trace| - 1]) == Ok(s.rows)
    ensures s.Failed? ==> |s.trace| > 0 && run(s.trace[|s.trace| - 1]) == Raise(s.error)
  {
    if |pairs| == 0 then Exhausted([])
    else match run(pairs[0])
      case Raise(e) => Failed(e, [pairs[0]])
      case Ok(rows) =>
        if |rows| > 0 then Answered(rows, [pairs[0]])
        else
          var s := FirstAnswer(pairs[1..], run);
          assert forall k :: 0 <= k < |s.trace| ==> s.trace[k] == pairs[k + 1];
          match s
          case Answered(rs, t) => Answered(rs, [pairs[0]] + t)
          case Exhausted(t) => Exhausted([pairs[0]] + t)
          case Failed(e, t) => Failed(e, [pairs[0]] + t)
  }

  /** How a scan ends at a pair whose query did not return an empty list. */
  function Stop<R>(r: Result<seq<R>>, trace: seq<Pair>): Scan<R> {
    match r
    case Ok(rows) => Answered(rows, trace)
    case Raise(e) => Failed(e, trace)
  }

  /** A scan is determined by the first pair that does not return an empty list. */
  lemma {:induction false} FirstAnswerAt<R>(pairs: seq<Pair>, run: Pair -> Result<seq<R>>, k: nat)
    requires k < |pairs|
    requires forall m :: 0 <= m < k ==> run(pairs[m]) == Ok([])
    requires run(pairs[k]) != Ok([])
    ensures FirstAnswer(pairs, run) == Stop(run(pairs[k]), pairs[..k + 1])
    decreases k
  {
    if k > 0 {
      assert run(pairs[0]) == Ok([]);
      FirstAnswerAt(pairs[1..], run, k - 1);
      assert pairs[..k + 1] == [pairs[0]] + pairs[1..][..k];
    }
  }

  /** Pairs whose queries all return nothing only lengthen the trace. */
  lemma {:induction false} FirstAnswerSkip<R>(a: seq<Pair>, b: seq<Pair>, run: Pair -> Result<seq<R>>)
    requires forall m :: 0 <= m < |a| ==> run(a[m]) == Ok([])
    ensures var s, t := FirstAnswer(a + b, run), FirstAnswer(b, run);
      && s.trace == a + t.trace
      && match t
         case Answered(rows, _) => s.Answered? && s.rows == rows
         case Exhausted(_) => s.Exhausted?
         case Failed(e, _) => s.Failed? && s.error == e
    decreases |a|
  {
    if |a| == 0 {
      assert a + b == b;
    } else {
      assert (a + b)[0] == a[0];
      assert (a + b)[1..] == a[1..] + b;
      FirstAnswerSkip(a[1..], b, run);
    }
  }

  /** Given entity ids [E1, E2, ...] and property ids [R1, R2, ...], when (Ei, Rj)
      is the first pair in entity-major order whose query returns something,
      exactly the pairs up to and including it are executed: nothing with a
      later property for Ei, and nothing with a later entity. */
  lemma {:induction false} ShortCircuit<R>(ents: seq<string>, props: seq<string>, run: Pair -> Result<seq<R>>, i: nat, j: nat)
    requires i < |ents| && j < |props|
    requires forall a, b :: 0 <= a < |ents| && 0 <= b < |props| && (a < i || (a == i && b < j)) ==>
      run(Pair(ents[a], props[b])) == Ok([])
    requires run(Pair(ents[i], props[j])).Ok? && run(Pair(ents[i], props[j])).value != []
    ensures var s := FirstAnswer(Cross(ents, props), run);
      && s.Answered?
      && s.rows == run(Pair(ents[i], props[j])).value
      && |s.trace| == i * |props| + j + 1
      && s.trace[|s.trace| - 1] == Pair(ents[i], props[j])
    decreases i
  {
    if i == 0 {
      ShortCircuitFirstRow(ents, props, run, j);
    } else {
      var tl := ents[1..];
      assert forall a, b :: 0 <= a < |tl| && 0 <= b < |props| && (a < i - 1 || (a == i - 1 && b < j)) ==>
        run(Pair(tl[a], props[b])) == Ok([]) by {
        forall a, b | 0 <= a < |tl| && 0 <= b < |props| && (a < i - 1 || (a == i - 1 && b < j))
          ensures run(Pair(tl[a], props[b])) == Ok([])
        {
          assert tl[a] == ents[a + 1];
        }
      }
      assert tl[i - 1] == ents[i];
      ShortCircuit(tl, props, run, i - 1, j);
      ShortCircuitStep(ents, props, run, i, j, run(Pair(ents[i], props[j])).value);
    }
  }

  /** Skipping the first entity's row of empty answers adds |props| pairs to
      the trace of the scan over the remaining entities. */
  lemma ShortCircuitStep<R>(ents: seq<string>, props: seq<string>, run: Pair -> Result<seq<R>>, i: nat, j: nat, rows: seq<R>)
    requires 0 < i < |ents| && j < |props|
    requires forall m :: 0 <= m < |props| ==> run(Pair(ents[0], props[m])) == Ok([])
    requires var t := FirstAnswer(Cross(ents[1..], props), run);
      && t.Answered? && t.rows == rows
      && |t.trace| == (i - 1) * |props| + j + 1
      && t.trace[|t.trace| - 1] == Pair(ents[i], props[j])
    ensures var s := FirstAnswer(Cross(ents, props), run);
      && s.Answered? && s.rows == rows
      && |s.trace| == i * |props| + j + 1
      && s.trace[|s.trace| - 1] == Pair(ents[i], props[j])
  {
    SkipFirstRow(ents, props, run);
    MulStep(i, |props|);
  }

  lemma SkipFirstRow<R>(ents: seq<string>, props: seq<string>, run: Pair -> Result<seq<R>>)
    requires 0 < |ents|
    requires forall m :: 0 <= m < |props| ==> run(Pair(ents[0], props[m])) == Ok([])
    requires FirstAnswer(Cross(ents[1..], props), run).Answered?
    ensures var s, t := FirstAnswer(Cross(ents, props), run), FirstAnswer(Cross(ents[1..], props), run);
      && s.Answered? && s.rows == t.rows
      && |s.trace| == |props| + |t.trace|
      && s.trace[|s.trace| - 1] == t.trace[|t.trace| - 1]
  {
    var row, rest := RowPairs(ents[0], props), Cross(ents[1..], props);
    assert Cross(ents, props) == row + rest;
    assert forall m :: 0 <= m < |row| ==> run(row[m]) == Ok([]) by {
      forall m | 0 <= m < |row| ensures run(row[m]) == Ok([]) {
        assert row[m] == Pair(ents[0], props[m]);
      }
    }
    SkipRow(row, rest, run);
  }

  /** The first entity's row: the scan stops at the first non-empty answer. */
  lemma ShortCircuitFirstRow<R>(ents: seq<string>, props: seq<string>, run: Pair -> Result<seq<R>>, j: nat)
    requires 0 < |ents| && j < |props|
    requires forall b :: 0 <= b < j ==> run(Pair(ents[0], props[b])) == Ok([])
    requires run(Pair(ents[0], props[j])).Ok? && run(Pair(ents[0], props[j])).value != []
    ensures var s := FirstAnswer(Cross(ents, props), run);
      && s.Answered?
      && s.rows == run(Pair(ents[0], props[j])).value
      && |s.trace| == j + 1
      && s.trace[j] == Pair(ents[0], props[j])
  {
    var pairs := RowPairs(ents[0], props) + Cross(ents[1..], props);
    assert Cross(ents, props) == pairs;
    assert forall m :: 0 <= m < j ==> run(pairs[m]) == Ok([]) by {
      forall m | 0 <= m < j ensures run(pairs[m]) == Ok([]) {
        assert pairs[m] == Pair(ents[0], props[m]);
      }
    }
    assert pairs[j] == Pair(ents[0], props[j]);
    FirstAnswerAt(pairs, run, j);
    assert pairs[..j + 1][j] == pairs[j];
  }

  /** A row of empty answers before an answered scan only lengthens its trace. */
  lemma SkipRow<R>(row: seq<Pair>, rest: seq<Pair>, run: Pair -> Result<seq<R>>)
    requires forall m :: 0 <= m < |row| ==> run(row[m]) == Ok([])
    requires FirstAnswer(rest, run).Answered?
    ensures var s, t := FirstAnswer(row + rest, run), FirstAnswer(rest, run);
      && s.Answered? && s.rows == t.rows
      && |s.trace| == |row| + |t.trace|
      && s.trace[|s.trace| - 1] == t.trace[|t.trace| - 1]
  {
    FirstAnswerSkip(row, rest, run);
  }

  lemma MulStep(i: nat, n: nat)
    requires i > 0
    ensures (i - 1) * n + n == i * n
  {
  }

  lemma ExhaustedIffAllEmpty<R>(pairs: seq<Pair>, run: Pair -> Result<seq<R>>)
    ensures FirstAnswer(pairs, run).Exhausted? <==> forall k :: 0 <= k < |pairs| ==> run(pairs[k]) == Ok([])
  {
    var s := FirstAnswer(pairs, run);
    if !s.Exhausted? {
      var t := |s.trace| - 1;
      assert s.trace[t] == pairs[t];
    }
  }

  /** The two nested loops of the source, executing pairs until one returns a
      non-empty list; they compute the scan over the entity-major cross product. */
  method SearchPairs<R>(ents: seq<string>, props: seq<string>, run: Pair -> Result<seq<R>>)
    returns (s: Scan<R>)
    ensures s == FirstAnswer(Cross(ents, props), run)
  {
    var trace: seq<Pair> := [];
    var i := 0;
    while i < |ents|
      invariant 0 <= i <= |ents|
      invariant trace == Cross(ents[..i], props)
      invariant forall m :: 0 <= m < |trace| ==> run(trace[m]) == Ok([])
    {
      var j := 0;
      while j < |props|
        invariant 0 <= j <= |props|
        invariant trace == Cross(ents[..i], props) + RowPairs(ents[i], props)[..j]
        invariant forall m :: 0 <= m < |trace| ==> run(trace[m]) == Ok([])
      {
        var p := Pair(ents[i], props[j]);
        var r := run(p);
        assert RowPairs(ents[i], props)[..j + 1] == RowPairs(ents[i], props)[..j] + [p];
        trace := trace + [p];
        if r != Ok([]) {
          StopInside(ents, props, run, i, j, trace);
          return Stop(r, trace);
        }
        j := j + 1;
      }
      NextEntity(ents, props, i);
      i := i + 1;
    }
    assert ents[..i] == ents;
    ExhaustedIffAllEmpty(Cross(ents, props), run);
    return Exhausted(trace);
  }

  lemma NextEntity(ents: seq<string>, props: seq<string>, i: nat)
    requires i < |ents|
    ensures Cross(ents[..i + 1], props) == Cross(ents[..i], props) + RowPairs(ents[i], props)[..|props|]
  {
    var row := RowPairs(ents[i], props);
    assert row[..|props|] == row;
    assert ents[..i + 1] == ents[..i] + [ents[i]];
    CrossSnoc(ents[..i], ents[i], props);
  }

  lemma CrossSnoc(pre: seq<string>, x: string, props: seq<string>)
    ensures Cross(pre + [x], props) == Cross(pre, props) + RowPairs(x, props)
  {
    CrossAppend(pre, [x], props);
    assert [x][1..] == [];
  }

  lemma StopInside<R>(ents: seq<string>, props: seq<string>, run: Pair -> Result<seq<R>>, i: nat, j: nat, trace: seq<Pair>)
    requires i < |ents| && j < |props|
    requires trace == Cross(ents[..i], props) + RowPairs(ents[i], props)[..j + 1]
    requires forall m :: 0 <= m < |trace| - 1 ==> run(trace[m]) == Ok([])
    requires run(trace[|trace| - 1]) != Ok([])
    ensures FirstAnswer(Cross(ents, props), run) == Stop(run(trace[|trace| - 1]), trace)
  {
    CrossPrefix(ents, props, i, j);
    var pairs := Cross(ents, props);
    assert pairs[..|trace|] == trace;
    FirstAnswerAt(pairs, run, |trace| - 1);
  }

  /** The pairs before (ents[i], props[j]) followed by it form a prefix of the
      cross product. */
  lemma CrossPrefix(ents: seq<string>, props: seq<string>, i: nat, j: nat)
    requires i < |ents| && j < |props|
    ensures var t := Cross(ents[..i], props) + RowPairs(ents[i], props)[..j + 1];
      |t| <= |Cross(ents, props)| && Cross(ents, props)[..|t|] == t
  {
    assert ents == ents[..i] + ([ents[i]] + ents[i + 1..]);
    CrossAppend(ents[..i], [ents[i]] + ents[i + 1..], props);
    assert Cross([ents[i]] + ents[i + 1..], props) == RowPairs(ents[i], props) + Cross(ents[i + 1..], props);
  }
}
