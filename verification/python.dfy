/** Python semantics the question-answering scripts rely on: exceptions as a
    result type, negative-index subscripts, clamping slices and the `str`
    methods the scripts call (`strip`, `split`, `join`, `replace`, ...). */
module Python {

  /** The exceptions the scripts raise or let escape. */
  datatype PyError =
    | NoAnswerError(msg: string)
    | IndexError
    | KeyError
    | StopIteration
    | NameError
    | UnboundLocalError
    | TypeError
    | ValueError
    | AttributeError

  datatype Option<+T> = None | Some(value: T)

  /** A value, or the exception raised while computing it. */
  datatype Result<+T> = Ok(value: T) | Raise(error: PyError) {
    predicate IsFailure() { Raise? }

    function PropagateFailure<U>(): Result<U>
      requires Raise?
    {
      Raise(error)
    }

    function Extract(): T
      requires Ok?
    {
      value
    }
  }

  /** `s[k]`: a negative index counts from the end; out of range raises IndexError. */
  function Index<T>(s: seq<T>, k: int): (r: Result<T>)
    ensures r.Ok? <==> -|s| <= k < |s|
    ensures 0 <= k < |s| ==> r == Ok(s[k])
    ensures -|s| <= k < 0 ==> r == Ok(s[|s| + k])
  {
    if 0 <= k < |s| then Ok(s[k])
    else if -|s| <= k < 0 then Ok(s[|s| + k])
    else Raise(IndexError)
  }

  /** Where a slice bound lands: negative bounds count from the end, then clamp. */
  function SliceBound(n: nat, k: int): (b: nat)
    ensures b <= n
    ensures 0 <= k <= n ==> b == k
  {
    if k < 0 then (if k + n < 0 then 0 else k + n)
    else if k > n then n
    else k
  }

  /** `s[a:b]`, which never raises. */
  function Slice<T>(s: seq<T>, a: int, b: int): (r: seq<T>)
    ensures 0 <= a <= b <= |s| ==> r == s[a..b]
    ensures |r| <= |s|
  {
    var lo := SliceBound(|s|, a);
    var hi := SliceBound(|s|, b);
    if lo < hi then s[lo..hi] else []
  }

  /** `s[n:]` for a non-negative `n`. */
  function Drop<T>(s: seq<T>, n: nat): (r: seq<T>)
    ensures n <= |s| ==> s == s[..n] + r
    ensures n >= |s| ==> r == []
  {
    if n <= |s| then s[n..] else []
  }

  /** `s[:n]` for a non-negative `n`. */
  function Take<T>(s: seq<T>, n: nat): (r: seq<T>)
    ensures |r| == if n <= |s| then n else |s|
    ensures r <= s
  {
    if n <= |s| then s[..n] else s
  }

  // ---------------------------------------------------------------------------
  // Characters and whitespace

  /** The characters `str.isspace` accepts. */
  const Whitespace: set<char> :=
    {'\t', '\n', '\U{000B}', '\U{000C}', '\r', '\U{001C}', '\U{001D}', '\U{001E}', '\U{001F}',
     ' ', '\U{0085}', '\U{00A0}', '\U{1680}', '\U{2000}', '\U{2001}', '\U{2002}', '\U{2003}',
     '\U{2004}', '\U{2005}', '\U{2006}', '\U{2007}', '\U{2008}', '\U{2009}', '\U{200A}',
     '\U{2028}', '\U{2029}', '\U{202F}', '\U{205F}', '\U{3000}'}

  predicate NoSpace(s: string) {
    forall k :: 0 <= k < |s| ==> s[k] !in Whitespace
  }

  function StartsWith(s: string, p: string): bool {
    |p| <= |s| && s[..|p|] == p
  }

  function EndsWith(s: string, p: string): bool {
    |p| <= |s| && s[|s| - |p|..] == p
  }

  /** `s.lower()` on ASCII letters; other characters are left as they are. */
  function Lower(s: string): (r: string)
    ensures |r| == |s|
    ensures forall k :: 0 <= k < |s| ==>
      r[k] == if 'A' <= s[k] <= 'Z' then (s[k] as int + 32) as char else s[k]
  {
    if |s| == 0 then []
    else [if 'A' <= s[0] <= 'Z' then (s[0] as int + 32) as char else s[0]] + Lower(s[1..])
  }

  /** `p in s` on strings: `p` occurs in `s` as a contiguous substring. */
  function Contains(s: string, p: string): bool
    decreases |s|
  {
    StartsWith(s, p) || (|s| > 0 && Contains(s[1..], p))
  }

  // ---------------------------------------------------------------------------
  // strip

  /** `s.lstrip(cs)`: drops the longest prefix of characters in `cs`. */
  function LStrip(s: string, cs: set<char>): (r: string)
    ensures |r| <= |s| && r == s[|s| - |r|..]
    ensures r == [] || r[0] !in cs
    ensures forall k :: 0 <= k < |s| - |r| ==> s[k] in cs
    decreases |s|
  {
    if |s| > 0 && s[0] in cs then
      var r := LStrip(s[1..], cs);
      assert forall k :: 1 <= k < |s| - |r| ==> s[k] == s[1..][k - 1];
      r
    else s
  }

  /** `s.rstrip(cs)`: drops the longest suffix of characters in `cs`. */
  function RStrip(s: string, cs: set<char>): (r: string)
    ensures |r| <= |s| && r == s[..|r|]
    ensures r == [] || r[|r| - 1] !in cs
    ensures forall k :: |r| <= k < |s| ==> s[k] in cs
    decreases |s|
  {
    if |s| > 0 && s[|s| - 1] in cs then
      var r := RStrip(s[..|s| - 1], cs);
      r
    else s
  }

  /** `r` is `s` with a prefix and a suffix of characters from `cs` cut off. */
  ghost predicate StrippedOf(s: string, r: string, cs: set<char>) {
    exists i :: StrippedAt(s, r, cs, i)
  }

  /** `r` is the slice of `s` from `i`, and everything around it is in `cs`. */
  predicate StrippedAt(s: string, r: string, cs: set<char>, i: int) {
    0 <= i <= |s| - |r| && r == s[i..i + |r|]
    && (forall k :: 0 <= k < i ==> s[k] in cs)
    && (forall k :: i + |r| <= k < |s| ==> s[k] in cs)
  }

  /** `s.strip(cs)`: both ends. */
  function Strip(s: string, cs: set<char>): (r: string)
    ensures |r| <= |s|
    ensures r == [] || (r[0] !in cs && r[|r| - 1] !in cs)
    ensures StrippedOf(s, r, cs)
  {
    StripCuts(s, cs);
    RStrip(LStrip(s, cs), cs)
  }

  lemma StripCuts(s: string, cs: set<char>)
    ensures StrippedOf(s, RStrip(LStrip(s, cs), cs), cs)
  {
    var l := LStrip(s, cs);
    var r := RStrip(l, cs);
    var i := |s| - |l|;
    assert r == s[i..i + |r|] by {
      assert l == s[i..];
      assert r == l[..|r|];
    }
    forall k | i + |r| <= k < |s| ensures s[k] in cs {
      assert s[k] == l[k - i];
    }
    assert StrippedAt(s, r, cs, i);
  }

  /** Stripping twice cuts characters of either set. */
  lemma StrippedOfTwice(s: string, m: string, r: string, cs: set<char>, ds: set<char>)
    requires StrippedOf(s, m, cs) && StrippedOf(m, r, ds)
    ensures StrippedOf(s, r, cs + ds)
  {
    var i :| StrippedAt(s, m, cs, i);
    var j :| StrippedAt(m, r, ds, j);
    assert r == s[i + j..i + j + |r|] by {
      forall k | 0 <= k < |r| ensures r[k] == s[i + j + k] {
        assert r[k] == m[j + k];
      }
    }
    forall k | 0 <= k < i + j ensures s[k] in cs + ds {
      if k >= i {
        assert s[k] == m[k - i];
      }
    }
    forall k | i + j + |r| <= k < |s| ensures s[k] in cs + ds {
      if k < i + |m| {
        assert s[k] == m[k - i];
      }
    }
    assert StrippedAt(s, r, cs + ds, i + j);
  }

  /** `question.strip().strip(' ?')`: surrounding whitespace, then surrounding
      spaces and question marks. */
  function StripQuestion(question: string): (r: string)
    ensures |r| <= |question|
    ensures r == [] || (r[0] !in {' ', '?'} && r[|r| - 1] !in {' ', '?'})
    ensures StrippedOf(question, r, Whitespace + {' ', '?'})
  {
    var m := Strip(question, Whitespace);
    StrippedOfTwice(question, m, Strip(m, {' ', '?'}), Whitespace, {' ', '?'});
    Strip(m, {' ', '?'})
  }

  // ---------------------------------------------------------------------------
  // join and split

  /** The pieces concatenated with `sep` between neighbours (`sep.join(ws)`). */
  function Join(ws: seq<string>, sep: string): (r: string)
    ensures |ws| == 1 ==> r == ws[0]
    ensures ws == [] ==> r == []
  {
    if |ws| == 0 then []
    else if |ws| == 1 then ws[0]
    else ws[0] + sep + Join(ws[1..], sep)
  }

  /** The words separated by single spaces. */
  function JoinSpace(ws: seq<string>): string {
    Join(ws, " ")
  }

  /** `s.split(c)` for a one-character separator: never empty, keeps empty pieces. */
  function SplitOn(s: string, c: char): (r: seq<string>)
    ensures |r| > 0
    decreases |s|
  {
    if |s| == 0 then [[]]
    else
      var rest := SplitOn(s[1..], c);
      if s[0] == c then [[]] + rest
      else [[s[0]] + rest[0]] + rest[1..]
  }

  lemma {:induction false} SplitOnPrefix(w: string, t: string, c: char)
    requires c !in w
    ensures SplitOn(w + t, c) == [w + SplitOn(t, c)[0]] + SplitOn(t, c)[1..]
    decreases |w|
  {
    if |w| > 0 {
      var r := SplitOn(t, c);
      var rest := SplitOn((w + t)[1..], c);
      assert rest == [w[1..] + r[0]] + r[1..] by {
        assert (w + t)[1..] == w[1..] + t;
        SplitOnPrefix(w[1..], t, c);
      }
      assert SplitOn(w + t, c) == [[w[0]] + rest[0]] + rest[1..];
      assert rest[1..] == r[1..];
      assert [w[0]] + (w[1..] + r[0]) == w + r[0];
    } else {
      var r := SplitOn(t, c);
      assert w + t == t;
      assert w + r[0] == r[0];
      assert r == [r[0]] + r[1..];
    }
  }

  /** Splitting a join on the same separator gives the pieces back. */
  lemma {:induction false} SplitOnJoin(ws: seq<string>, c: char)
    requires |ws| > 0
    requires forall k :: 0 <= k < |ws| ==> c !in ws[k]
    ensures SplitOn(Join(ws, [c]), c) == ws
    decreases |ws|
  {
    if |ws| == 1 {
      SplitOnPrefix(ws[0], [], c);
      assert ws[0] + [] == ws[0];
    } else {
      var rest := Join(ws[1..], [c]);
      assert Join(ws, [c]) == ws[0] + ([c] + rest);
      SplitOnPrefix(ws[0], [c] + rest, c);
      assert ([c] + rest)[1..] == rest;
      SplitOnJoin(ws[1..], c);
      assert ws[0] + [] == ws[0];
      assert ws == [ws[0]] + ws[1..];
    }
  }

  /** The leading run of non-whitespace characters. */
  function Word(s: string): (w: string)
    ensures w <= s && NoSpace(w)
    ensures |w| < |s| ==> s[|w|] in Whitespace
    decreases |s|
  {
    if |s| == 0 || s[0] in Whitespace then []
    else [s[0]] + Word(s[1..])
  }

  /** `s.split()`: the maximal runs of non-whitespace characters. */
  function Split(s: string): (r: seq<string>)
    ensures forall k :: 0 <= k < |r| ==> |r[k]| > 0 && NoSpace(r[k])
    decreases |s|
  {
    if |s| == 0 then []
    else if s[0] in Whitespace then Split(s[1..])
    else
      var w := Word(s);
      [w] + Split(s[|w|..])
  }

  lemma {:induction false} WordOfPrefix(w: string, t: string)
    requires NoSpace(w)
    requires t == [] || t[0] in Whitespace
    ensures Word(w + t) == w
    decreases |w|
  {
    if |w| == 0 {
      assert w + t == t;
    } else {
      assert (w + t)[1..] == w[1..] + t;
      WordOfPrefix(w[1..], t);
      assert [w[0]] + w[1..] == w;
    }
  }

  /** Splitting words joined by single spaces gives them back, when each word is
      non-empty and holds no whitespace. */
  lemma {:induction false} SplitJoinSpace(ws: seq<string>)
    requires forall k :: 0 <= k < |ws| ==> |ws[k]| > 0 && NoSpace(ws[k])
    ensures Split(JoinSpace(ws)) == ws
    decreases |ws|
  {
    if |ws| == 1 {
      SplitWordThen(ws[0], []);
      assert ws[0] + [] == ws[0];
    } else if |ws| > 1 {
      var rest := JoinSpace(ws[1..]);
      assert JoinSpace(ws) == ws[0] + (" " + rest);
      SplitWordThen(ws[0], " " + rest);
      assert (" " + rest)[1..] == rest;
      SplitJoinSpace(ws[1..]);
      assert ws == [ws[0]] + ws[1..];
    }
  }

  lemma SplitWordThen(w: string, t: string)
    requires |w| > 0 && NoSpace(w)
    requires t == [] || t[0] in Whitespace
    ensures Split(w + t) == [w] + Split(t)
  {
    WordOfPrefix(w, t);
    assert (w + t)[|w|..] == t;
  }

  // ---------------------------------------------------------------------------
  // replace

  /** `s.replace(pat, rep)`: left-to-right, non-overlapping; an empty pattern
      puts `rep` before every character and at the end. */
  function Replace(s: string, pat: string, rep: string): string
    decreases |s|
  {
    if |pat| == 0 then
      if |s| == 0 then rep else rep + [s[0]] + Replace(s[1..], pat, rep)
    else if |s| < |pat| then s
    else if s[..|pat|] == pat then rep + Replace(s[|pat|..], pat, rep)
    else [s[0]] + Replace(s[1..], pat, rep)
  }

  /** Every character of a replacement comes from the subject or from `rep`. */
  lemma {:induction false} ReplaceChars(s: string, pat: string, rep: string, c: char)
    requires c in Replace(s, pat, rep)
    ensures c in s || c in rep
    decreases |s|
  {
    if |pat| == 0 {
      if |s| > 0 {
        if c !in rep && c != s[0] {
          ReplaceChars(s[1..], pat, rep, c);
          assert s == [s[0]] + s[1..];
        }
      }
    } else if |s| >= |pat| {
      if s[..|pat|] == pat {
        if c !in rep {
          ReplaceChars(s[|pat|..], pat, rep, c);
          assert s == s[..|pat|] + s[|pat|..];
        }
      } else if c != s[0] {
        ReplaceChars(s[1..], pat, rep, c);
        assert s == [s[0]] + s[1..];
      }
    }
  }

  /** Replacing a one-character pattern by text without that character removes
      every occurrence of it. */
  lemma {:induction false} ReplaceRemovesChar(s: string, c: char, rep: string)
    requires c !in rep
    ensures c !in Replace(s, [c], rep)
    decreases |s|
  {
    if |s| >= 1 {
      ReplaceRemovesChar(s[1..], c, rep);
      if s[..1] == [c] {
        assert s[1..] == s[|[c]|..];
      } else {
        assert s[0] != c;
      }
    }
  }

  /** Replacing one character by another maps the string character by character. */
  lemma {:induction false} ReplaceOneChar(s: string, a: char, b: char)
    ensures |Replace(s, [a], [b])| == |s|
    ensures forall k :: 0 <= k < |s| ==>
      Replace(s, [a], [b])[k] == if s[k] == a then b else s[k]
    decreases |s|
  {
    if |s| >= 1 {
      ReplaceOneChar(s[1..], a, b);
      var t := Replace(s[1..], [a], [b]);
      if s[..1] == [a] {
        assert s[1..] == s[|[a]|..];
        assert Replace(s, [a], [b]) == [b] + t;
      } else {
        assert Replace(s, [a], [b]) == [s[0]] + t;
      }
    }
  }
}
