/** Python's `str.format` on the subset of format strings the query templates
    use: `{{` and `}}` escapes, automatic fields `{}` and numbered fields `{0}`.
    Query templates are kept structured (`Template`); `Render` gives the text
    that appears in the source, `Fill` what formatting it produces, and
    `FormatRender` proves that parsing the rendered text agrees with `Fill`. */
module Format {
  import opened Python

  /** One piece of a template: literal text, an automatic field `{}`, or a
      numbered field `{k}` with a one-digit index. */
  datatype Piece = Text(s: string) | Next | Field(k: nat)

  type Template = seq<Piece>

  /** Field numbering state: no field yet, automatic with its next index, or manual. */
  datatype Numbering = Unset | Auto(next: nat) | Manual

  predicate SingleDigits(t: Template) {
    forall k :: 0 <= k < |t| ==> (t[k].Field? ==> t[k].k < 10)
  }

  /** Literal text as it must be written in a format string. */
  function Escape(s: string): (r: string)
    ensures |r| >= |s|
  {
    if |s| == 0 then []
    else if s[0] == '{' then "{{" + Escape(s[1..])
    else if s[0] == '}' then "}}" + Escape(s[1..])
    else [s[0]] + Escape(s[1..])
  }

  function DigitChar(k: nat): char
    requires k < 10
  {
    ('0' as int + k) as char
  }

  /** The source text of a template. */
  function Render(t: Template): string
    requires SingleDigits(t)
  {
    if |t| == 0 then []
    else
      var head := match t[0]
        case Text(s) => Escape(s)
        case Next => "{}"
        case Field(k) => "{" + [DigitChar(k)] + "}";
      head + Render(t[1..])
  }

  function Prepend(s: string, r: Result<string>): (r': Result<string>)
    ensures r.Ok? <==> r'.Ok?
    ensures r.Raise? ==> r' == r
  {
    match r
    case Ok(v) => Ok(s + v)
    case Raise(e) => Raise(e)
  }

  /** Which argument an automatic field takes, and the numbering after it. */
  function AutoField(args: seq<string>, mode: Numbering): Result<(string, Numbering)> {
    match mode
    case Manual => Raise(ValueError)
    case Unset => if 0 < |args| then Ok((args[0], Auto(1))) else Raise(IndexError)
    case Auto(k) => if k < |args| then Ok((args[k], Auto(k + 1))) else Raise(IndexError)
  }

  /** Which argument a numbered field takes, and the numbering after it. */
  function ManualField(args: seq<string>, k: nat, mode: Numbering): Result<(string, Numbering)> {
    if mode.Auto? then Raise(ValueError)
    else if k < |args| then Ok((args[k], Manual))
    else Raise(IndexError)
  }

  /** What formatting a template with `args` produces. */
  function Fill(t: Template, args: seq<string>, mode: Numbering := Unset): Result<string> {
    if |t| == 0 then Ok([])
    else match t[0]
      case Text(s) => Prepend(s, Fill(t[1..], args, mode))
      case Next =>
        (match AutoField(args, mode)
         case Raise(e) => Raise(e)
         case Ok(p) => Prepend(p.0, Fill(t[1..], args, p.1)))
      case Field(k) =>
        (match ManualField(args, k, mode)
         case Raise(e) => Raise(e)
         case Ok(p) => Prepend(p.0, Fill(t[1..], args, p.1)))
  }

  function IndexOf(s: string, c: char): (r: Option<nat>)
    ensures r.Some? ==> r.value < |s| && s[r.value] == c && c !in s[..r.value]
    ensures r.None? ==> c !in s
  {
    if |s| == 0 then None
    else if s[0] == c then Some(0)
    else match IndexOf(s[1..], c)
      case None => None
      case Some(k) => Some(k + 1)
  }

  predicate AllDigits(s: string) {
    forall k :: 0 <= k < |s| ==> '0' <= s[k] <= '9'
  }

  function DigitsValue(s: string): nat
    requires AllDigits(s)
  {
    if |s| == 0 then 0
    else DigitsValue(s[..|s| - 1]) * 10 + (s[|s| - 1] as int - '0' as int)
  }

  /** `s.format(*args)`: fields are read up to the first `}`; a field name that
      is neither empty nor a number is looked up as a keyword and raises
      KeyError; an unmatched brace raises ValueError. */
  function FormatString(s: string, args: seq<string>, mode: Numbering := Unset): Result<string>
    decreases |s|
  {
    if |s| == 0 then Ok([])
    else if s[0] == '{' then
      if |s| >= 2 && s[1] == '{' then Prepend("{", FormatString(s[2..], args, mode))
      else
        match IndexOf(s[1..], '}')
        case None => Raise(ValueError)
        case Some(j) =>
          var name := s[1..1 + j];
          var rest := s[2 + j..];
          if '{' in name then Raise(ValueError)
          else if |name| == 0 then
            match AutoField(args, mode)
            case Raise(e) => Raise(e)
            case Ok(p) => Prepend(p.0, FormatString(rest, args, p.1))
          else if AllDigits(name) then
            match ManualField(args, DigitsValue(name), mode)
            case Raise(e) => Raise(e)
            case Ok(p) => Prepend(p.0, FormatString(rest, args, p.1))
          else Raise(KeyError)
    else if s[0] == '}' then
      if |s| >= 2 && s[1] == '}' then Prepend("}", FormatString(s[2..], args, mode))
      else Raise(ValueError)
    else Prepend([s[0]], FormatString(s[1..], args, mode))
  }

  lemma {:induction false} PrependConcat(a: string, b: string, r: Result<string>)
    ensures Prepend(a, Prepend(b, r)) == Prepend(a + b, r)
  {
    if r.Ok? {
      assert a + (b + r.value) == (a + b) + r.value;
    }
  }

  /** One escaped character formats back to itself. */
  lemma {:induction false} FormatEscapeChar(c: char, tail: string, args: seq<string>, mode: Numbering)
    ensures FormatString(Escape([c]) + tail, args, mode) == Prepend([c], FormatString(tail, args, mode))
  {
    assert [c][1..] == [];
    if c == '{' {
      assert Escape([c]) + tail == "{{" + tail;
      assert ("{{" + tail)[2..] == tail;
    } else if c == '}' {
      assert Escape([c]) + tail == "}}" + tail;
      assert ("}}" + tail)[2..] == tail;
    } else {
      assert Escape([c]) + tail == [c] + tail;
      assert ([c] + tail)[1..] == tail;
    }
  }

  lemma {:induction false} EscapeCons(s: string)
    requires |s| > 0
    ensures Escape(s) == Escape([s[0]]) + Escape(s[1..])
  {
    assert [s[0]][1..] == [];
  }

  /** Escaped literal text formats back to itself. */
  lemma {:induction false} FormatEscape(s: string, rest: string, args: seq<string>, mode: Numbering)
    ensures FormatString(Escape(s) + rest, args, mode) == Prepend(s, FormatString(rest, args, mode))
    decreases |s|
  {
    var r := FormatString(rest, args, mode);
    if |s| == 0 {
      assert Escape(s) + rest == rest;
      if r.Ok? { assert s + r.value == r.value; }
    } else {
      var tail := Escape(s[1..]) + rest;
      EscapeCons(s);
      assert Escape(s) + rest == Escape([s[0]]) + tail;
      FormatEscapeChar(s[0], tail, args, mode);
      FormatEscape(s[1..], rest, args, mode);
      PrependConcat([s[0]], s[1..], r);
      assert [s[0]] + s[1..] == s;
    }
  }

  /** Formatting the rendered text of a template is the same as filling the
      template: the two readings of a query template agree. */
  lemma {:induction false} FormatRender(t: Template, args: seq<string>, mode: Numbering)
    requires SingleDigits(t)
    ensures FormatString(Render(t), args, mode) == Fill(t, args, mode)
    decreases |t|
  {
    if |t| > 0 {
      var rest := Render(t[1..]);
      match t[0]
      case Text(s) =>
        FormatEscape(s, rest, args, mode);
        FormatRender(t[1..], args, mode);
      case Next =>
        assert Render(t) == "{}" + rest;
        FormatAutoField(rest, args, mode);
        if AutoField(args, mode).Ok? {
          FormatRender(t[1..], args, AutoField(args, mode).value.1);
        }
      case Field(k) =>
        assert Render(t) == "{" + [DigitChar(k)] + "}" + rest;
        FormatManualField(k, rest, args, mode);
        if ManualField(args, k, mode).Ok? {
          FormatRender(t[1..], args, ManualField(args, k, mode).value.1);
        }
    }
  }

  /** `{}` takes the next automatic argument. */
  lemma FormatAutoField(rest: string, args: seq<string>, mode: Numbering)
    ensures var f := AutoField(args, mode);
      FormatString("{}" + rest, args, mode) ==
        if f.Raise? then Raise(f.error) else Prepend(f.value.0, FormatString(rest, args, f.value.1))
  {
    var s := "{}" + rest;
    assert s[1..] == "}" + rest;
    assert IndexOf(s[1..], '}') == Some(0);
    assert s[1..1] == [];
    assert s[2..] == rest;
  }

  /** `{k}` for a single digit k takes argument k. */
  lemma FormatManualField(k: nat, rest: string, args: seq<string>, mode: Numbering)
    requires k < 10
    ensures var f := ManualField(args, k, mode);
      FormatString("{" + [DigitChar(k)] + "}" + rest, args, mode) ==
        if f.Raise? then Raise(f.error) else Prepend(f.value.0, FormatString(rest, args, f.value.1))
  {
    var d := DigitChar(k);
    var s := "{" + [d] + "}" + rest;
    assert s[1..] == [d] + "}" + rest;
    assert IndexOf(s[1..], '}') == Some(1);
    assert s[1..2] == [d];
    assert DigitsValue([d]) == k by {
      assert [d][..0] == [];
    }
    assert s[3..] == rest;
  }

  /** Number of automatic fields in a template. */
  function AutoCount(t: Template): nat {
    if |t| == 0 then 0 else (if t[0].Next? then 1 else 0) + AutoCount(t[1..])
  }

  predicate NoManual(t: Template) {
    forall k :: 0 <= k < |t| ==> !t[k].Field?
  }

  predicate NoAuto(t: Template) {
    forall k :: 0 <= k < |t| ==> !t[k].Next?
  }

  /** A template with only automatic fields fills without error when there are
      enough arguments; the result holds every literal piece. */
  lemma {:induction false} FillAutoOk(t: Template, args: seq<string>, n: nat)
    requires NoManual(t)
    requires n + AutoCount(t) <= |args|
    ensures Fill(t, args, if n == 0 then Unset else Auto(n)).Ok?
    decreases |t|
  {
    if |t| > 0 {
      match t[0]
      case Text(s) => FillAutoOk(t[1..], args, n);
      case Next => FillAutoOk(t[1..], args, n + 1);
    }
  }

  /** A template with only numbered fields fills without error when every
      index names an argument. */
  lemma {:induction false} FillManualOk(t: Template, args: seq<string>, mode: Numbering)
    requires NoAuto(t)
    requires !mode.Auto?
    requires forall k :: 0 <= k < |t| ==> (t[k].Field? ==> t[k].k < |args|)
    ensures Fill(t, args, mode).Ok?
    decreases |t|
  {
    if |t| > 0 {
      match t[0]
      case Text(s) => FillManualOk(t[1..], args, mode);
      case Field(k) => FillManualOk(t[1..], args, Manual);
    }
  }

  // One piece at a time: what filling the template from piece `i` on gives,
  // in terms of filling it from piece `i + 1` on.

  lemma FillEnd(t: Template, args: seq<string>, mode: Numbering)
    ensures Fill(t[|t|..], args, mode) == Ok([])
  {
  }

  lemma FillTextAt(t: Template, i: nat, args: seq<string>, mode: Numbering, r: string)
    requires i < |t| && t[i].Text?
    requires Fill(t[i + 1..], args, mode) == Ok(r)
    ensures Fill(t[i..], args, mode) == Ok(t[i].s + r)
  {
    assert t[i..][1..] == t[i + 1..];
  }

  lemma FillNextAt(t: Template, i: nat, args: seq<string>, mode: Numbering, r: string)
    requires i < |t| && t[i].Next?
    requires AutoField(args, mode).Ok?
    requires Fill(t[i + 1..], args, AutoField(args, mode).value.1) == Ok(r)
    ensures Fill(t[i..], args, mode) == Ok(AutoField(args, mode).value.0 + r)
  {
    assert t[i..][1..] == t[i + 1..];
  }

  lemma FillFieldAt(t: Template, i: nat, args: seq<string>, mode: Numbering, r: string)
    requires i < |t| && t[i].Field?
    requires ManualField(args, t[i].k, mode).Ok?
    requires Fill(t[i + 1..], args, ManualField(args, t[i].k, mode).value.1) == Ok(r)
    ensures Fill(t[i..], args, mode) == Ok(ManualField(args, t[i].k, mode).value.0 + r)
  {
    assert t[i..][1..] == t[i + 1..];
  }

  /** Regrouping the result of filling a template piece by piece. */
  lemma Regroup5(a: string, b: string, c: string, d: string, e: string)
    ensures a + (b + (c + (d + (e + [])))) == a + b + c + d + e
  {
    assert e + [] == e;
  }

  lemma Regroup7(a: string, b: string, c: string, d: string, e: string, f: string, g: string)
    ensures a + (b + (c + (d + (e + (f + (g + [])))))) == a + b + c + d + e + f + g
  {
    assert g + [] == g;
  }

  /** Two automatic fields between literal pieces take the first two
      arguments, in order; further arguments are unused. */
  lemma FillTwoAuto(h: string, m: string, tl: string, x: string, y: string, rest: seq<string>)
    ensures Fill([Text(h), Next, Text(m), Next, Text(tl)], [x, y] + rest) == Ok(h + x + m + y + tl)
  {
    var t, args := [Text(h), Next, Text(m), Next, Text(tl)], [x, y] + rest;
    assert args[0] == x && args[1] == y;
    FillEnd(t, args, Auto(2));
    FillTextAt(t, 4, args, Auto(2), []);
    FillNextAt(t, 3, args, Auto(1), tl + []);
    FillTextAt(t, 2, args, Auto(1), y + (tl + []));
    FillNextAt(t, 1, args, Unset, m + (y + (tl + [])));
    FillTextAt(t, 0, args, Unset, x + (m + (y + (tl + []))));
    assert t[0..] == t;
    Regroup5(h, x, m, y, tl);
  }

  /** Fields {0} and {1} between literal pieces take the first two arguments. */
  lemma FillTwoManual(h: string, m: string, tl: string, x: string, y: string)
    ensures Fill([Text(h), Field(0), Text(m), Field(1), Text(tl)], [x, y]) == Ok(h + x + m + y + tl)
  {
    var t, args := [Text(h), Field(0), Text(m), Field(1), Text(tl)], [x, y];
    FillEnd(t, args, Manual);
    FillTextAt(t, 4, args, Manual, []);
    FillFieldAt(t, 3, args, Manual, tl + []);
    FillTextAt(t, 2, args, Manual, y + (tl + []));
    FillFieldAt(t, 1, args, Unset, m + (y + (tl + [])));
    FillTextAt(t, 0, args, Unset, x + (m + (y + (tl + []))));
    assert t[0..] == t;
    Regroup5(h, x, m, y, tl);
  }

  /** Three automatic fields between literal pieces take the three arguments. */
  lemma FillThreeAuto(h: string, a: string, b: string, tl: string, x: string, y: string, z: string)
    ensures Fill([Text(h), Next, Text(a), Next, Text(b), Next, Text(tl)], [x, y, z])
      == Ok(h + x + a + y + b + z + tl)
  {
    var t, args := [Text(h), Next, Text(a), Next, Text(b), Next, Text(tl)], [x, y, z];
    assert Fill(t[3..], args, Auto(1)) == Ok(y + (b + (z + (tl + [])))) by {
      FillEnd(t, args, Auto(3));
      FillTextAt(t, 6, args, Auto(3), []);
      FillNextAt(t, 5, args, Auto(2), tl + []);
      FillTextAt(t, 4, args, Auto(2), z + (tl + []));
      FillNextAt(t, 3, args, Auto(1), b + (z + (tl + [])));
    }
    FillTextAt(t, 2, args, Auto(1), y + (b + (z + (tl + []))));
    FillNextAt(t, 1, args, Unset, a + (y + (b + (z + (tl + [])))));
    FillTextAt(t, 0, args, Unset, x + (a + (y + (b + (z + (tl + []))))));
    assert t[0..] == t;
    Regroup7(h, x, a, y, b, z, tl);
  }

  /** Fields {0}, {1} and {2} between literal pieces take the three arguments. */
  lemma FillThreeManual(h: string, a: string, b: string, tl: string, x: string, y: string, z: string)
    ensures Fill([Text(h), Field(0), Text(a), Field(1), Text(b), Field(2), Text(tl)], [x, y, z])
      == Ok(h + x + a + y + b + z + tl)
  {
    var t, args := [Text(h), Field(0), Text(a), Field(1), Text(b), Field(2), Text(tl)], [x, y, z];
    assert Fill(t[3..], args, Manual) == Ok(y + (b + (z + (tl + [])))) by {
      FillEnd(t, args, Manual);
      FillTextAt(t, 6, args, Manual, []);
      FillFieldAt(t, 5, args, Manual, tl + []);
      FillTextAt(t, 4, args, Manual, z + (tl + []));
      FillFieldAt(t, 3, args, Manual, b + (z + (tl + [])));
    }
    FillTextAt(t, 2, args, Manual, y + (b + (z + (tl + []))));
    FillFieldAt(t, 1, args, Unset, a + (y + (b + (z + (tl + [])))));
    FillTextAt(t, 0, args, Unset, x + (a + (y + (b + (z + (tl + []))))));
    assert t[0..] == t;
    Regroup7(h, x, a, y, b, z, tl);
  }

  /** The source text of a template with fields {0}, {1} and {2} formats to
      the three arguments between the literal pieces. */
  lemma FormatThreeManual(h: string, a: string, b: string, tl: string, x: string, y: string, z: string)
    ensures FormatString(Render([Text(h), Field(0), Text(a), Field(1), Text(b), Field(2), Text(tl)]), [x, y, z])
      == Ok(h + x + a + y + b + z + tl)
  {
    var t := [Text(h), Field(0), Text(a), Field(1), Text(b), Field(2), Text(tl)];
    FormatRender(t, [x, y, z], Unset);
    FillThreeManual(h, a, b, tl, x, y, z);
  }

  /** The source text of a template with three `{}` fields formats to the
      three arguments between the literal pieces. */
  lemma FormatThreeAuto(h: string, a: string, b: string, tl: string, x: string, y: string, z: string)
    ensures FormatString(Render([Text(h), Next, Text(a), Next, Text(b), Next, Text(tl)]), [x, y, z])
      == Ok(h + x + a + y + b + z + tl)
  {
    var t := [Text(h), Next, Text(a), Next, Text(b), Next, Text(tl)];
    FormatRender(t, [x, y, z], Unset);
    FillThreeAuto(h, a, b, tl, x, y, z);
  }

  /** The source text of a template with two `{}` fields formats to the first
      two arguments between the literal pieces. */
  lemma FormatTwoAuto(h: string, m: string, tl: string, x: string, y: string, rest: seq<string>)
    ensures FormatString(Render([Text(h), Next, Text(m), Next, Text(tl)]), [x, y] + rest)
      == Ok(h + x + m + y + tl)
  {
    FormatRender([Text(h), Next, Text(m), Next, Text(tl)], [x, y] + rest, Unset);
    FillTwoAuto(h, m, tl, x, y, rest);
  }

  /** The source text of a template with fields {0} and {1} formats to the two
      arguments between the literal pieces. */
  lemma FormatTwoManual(h: string, m: string, tl: string, x: string, y: string)
    ensures FormatString(Render([Text(h), Field(0), Text(m), Field(1), Text(tl)]), [x, y])
      == Ok(h + x + m + y + tl)
  {
    FormatRender([Text(h), Field(0), Text(m), Field(1), Text(tl)], [x, y], Unset);
    FillTwoManual(h, m, tl, x, y);
  }
}
