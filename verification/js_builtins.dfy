/** The JavaScript string and array built-ins the log codec relies on,
    specialised to the way server.js calls them:
    - `String.prototype.trim`
    - `String.prototype.indexOf` and `String.prototype.replace(pattern, '')`
      with a string pattern, which removes the FIRST occurrence only
    - `String.prototype.split` with a one-character separator
    - `Array.prototype.filter(Boolean)` on an array of strings
    Strings are sequences of Unicode scalar values; every character these
    built-ins look at here lies in the Basic Multilingual Plane, so this agrees
    with JavaScript's UTF-16 strings. */
module JsBuiltins {
  import opened Results
  import opened Seqs

  // ---------------------------------------------------------------------
  // trim
  // ---------------------------------------------------------------------

  /** The characters `trim` removes: ECMAScript WhiteSpace (tab, vertical tab,
      form feed, space, no-break space, byte order mark and the Zs category)
      and LineTerminator (line feed, carriage return, U+2028, U+2029). */
  predicate IsWhitespace(c: char) {
    c in SingleWhitespace || ('\U{2000}' <= c <= '\U{200A}')
  }

  /** The whitespace characters outside the block U+2000..U+200A. */
  const SingleWhitespace: set<char> :=
    {'\t', '\n', '\U{000B}', '\U{000C}', '\r', ' ', '\U{00A0}', '\U{1680}',
     '\U{2028}', '\U{2029}', '\U{202F}', '\U{205F}', '\U{3000}', '\U{FEFF}'}

  predicate AllWhitespace(s: string) {
    forall i :: 0 <= i < |s| ==> IsWhitespace(s[i])
  }

  /** `s` neither starts nor ends with a character `trim` would remove. */
  predicate Trimmed(s: string) {
    |s| == 0 || (!IsWhitespace(s[0]) && !IsWhitespace(s[|s| - 1]))
  }

  /** Drops the leading whitespace: the result is the longest suffix of `s`
      that does not start with whitespace. */
  function TrimStart(s: string): (r: string)
    ensures |r| <= |s| && r == s[|s| - |r|..]
    ensures AllWhitespace(s[..|s| - |r|])
    ensures |r| == 0 || !IsWhitespace(r[0])
    decreases |s|
  {
    if |s| > 0 && IsWhitespace(s[0]) then
      var r := TrimStart(s[1..]);
      TakeOfTail(s, |s| - |r|);
      r
    else s
  }

  /** Drops the trailing whitespace: the result is the longest prefix of `s`
      that does not end with whitespace. */
  function TrimEnd(s: string): (r: string)
    ensures |r| <= |s| && r == s[..|r|]
    ensures AllWhitespace(s[|r|..])
    ensures |r| == 0 || !IsWhitespace(r[|r| - 1])
    decreases |s|
  {
    if |s| > 0 && IsWhitespace(s[|s| - 1]) then
      var r := TrimEnd(s[..|s| - 1]);
      DropOfFront(s, |r|);
      r
    else s
  }

  /** `String.prototype.trim`. The result is trimmed, every character of it
      comes from `s`, and it is empty exactly when `s` is all whitespace;
      `TrimPadded` shows it is the middle of `s` between the two runs of
      whitespace. */
  function Trim(s: string): (r: string)
    ensures Trimmed(r)
    ensures |r| <= |s|
    ensures forall c :: c in r ==> c in s
    ensures r == [] <==> AllWhitespace(s)
  {
    var t := TrimStart(s);
    var r := TrimEnd(t);
    assert |r| > 0 ==> r[0] == t[0];
    TrimKeepsCharacters(s, t, r);
    TrimEmptyWhenBlank(s, t, r);
    r
  }

  lemma TrimKeepsCharacters(s: string, t: string, r: string)
    requires t == TrimStart(s) && r == TrimEnd(t)
    ensures forall c :: c in r ==> c in s
  {
    TakeMembers(t, |r|);
    DropMembers(s, |s| - |t|);
  }

  lemma TrimEmptyWhenBlank(s: string, t: string, r: string)
    requires t == TrimStart(s) && r == TrimEnd(t)
    ensures r == [] <==> AllWhitespace(s)
  {
    var k := |s| - |t|;
    if r == [] {
      assert t[|r|..] == t;
      BlankWithoutHead(t);
      assert s == s[..k];
    }
    if AllWhitespace(s) {
      assert AllWhitespace(s[k..]);
      BlankWithoutHead(t);
    }
  }

  /** A blank string whose first character is not blank is empty. */
  lemma BlankWithoutHead(x: string)
    requires AllWhitespace(x)
    requires |x| == 0 || !IsWhitespace(x[0])
    ensures x == []
  {
  }

  lemma TrimStartSkips(a: string, y: string)
    requires AllWhitespace(a)
    requires |y| == 0 || !IsWhitespace(y[0])
    ensures TrimStart(a + y) == y
  {
    var s := a + y;
    var r := TrimStart(s);
    assert r == s[|a|..];
  }

  lemma TrimEndSkips(y: string, b: string)
    requires AllWhitespace(b)
    requires |y| == 0 || !IsWhitespace(y[|y| - 1])
    ensures TrimEnd(y + b) == y
  {
    var s := y + b;
    var r := TrimEnd(s);
    assert r == s[..|y|];
  }

  /** Whitespace in front of a string does not change what `trim` returns. */
  lemma TrimSkipsBlankPrefix(a: string, s: string)
    requires AllWhitespace(a)
    ensures Trim(a + s) == Trim(s)
  {
    var t := TrimStart(s);
    var k := |s| - |t|;
    TakeAndDrop(s, k);
    Assoc(a, s[..k], t);
    BlankConcat(a, s[..k]);
    TrimStartSkips(a + s[..k], t);
  }

  lemma BlankConcat(a: string, b: string)
    requires AllWhitespace(a) && AllWhitespace(b)
    ensures AllWhitespace(a + b)
  {
    forall i | 0 <= i < |a + b| ensures IsWhitespace((a + b)[i]) {
      if i >= |a| { assert (a + b)[i] == b[i - |a|]; }
    }
  }

  /** `trim` returns exactly the trimmed middle of a string padded on both
      sides with whitespace. */
  lemma TrimPadded(a: string, x: string, b: string)
    requires AllWhitespace(a) && AllWhitespace(b)
    requires Trimmed(x)
    ensures Trim(a + x + b) == x
  {
    if x == [] {
      AppendNothing(a);
      BlankConcat(a, b);
    } else {
      Assoc(a, x, b);
      TrimStartSkips(a, x + b);
      TrimEndSkips(x, b);
    }
  }

  // ---------------------------------------------------------------------
  // indexOf and replace(pattern, '')
  // ---------------------------------------------------------------------

  /** `p` occurs in `s` starting at position `i`. */
  predicate OccursAt(s: string, p: string, i: int) {
    0 <= i && i + |p| <= |s| && s[i..i + |p|] == p
  }

  /** `i` is the position of the first occurrence of `p` in `s`. */
  predicate FirstOccurrence(s: string, p: string, i: int) {
    OccursAt(s, p, i) && forall j :: 0 <= j < i ==> !OccursAt(s, p, j)
  }

  /** There is at most one first occurrence. */
  lemma FirstOccurrenceUnique(s: string, p: string, i: int, k: int)
    requires FirstOccurrence(s, p, i) && FirstOccurrence(s, p, k)
    ensures i == k
  {
  }

  /** `s.indexOf(p)`, with `None` for JavaScript's -1: the position of the
      first occurrence of `p`, if there is one. */
  function IndexOf(s: string, p: string): (r: Option<nat>)
    ensures r.Some? ==> FirstOccurrence(s, p, r.value)
    ensures r.None? ==> forall j :: !OccursAt(s, p, j)
    decreases |s|
  {
    if |s| < |p| then None
    else if s[..|p|] == p then Some(0)
    else
      var tail := IndexOf(s[1..], p);
      assert forall j :: 1 <= j ==> (OccursAt(s, p, j) <==> OccursAt(s[1..], p, j - 1)) by {
        forall j | 1 <= j ensures OccursAt(s, p, j) <==> OccursAt(s[1..], p, j - 1) {
          if j + |p| <= |s| {
            assert s[1..][j - 1..j - 1 + |p|] == s[j..j + |p|];
          }
        }
      }
      match tail
      case None => None
      case Some(k) => Some(k + 1)
  }

  /** Every character of `s[..i] + s[j..]` is a character of `s`. */
  lemma CutKeepsCharacters(s: string, i: nat, j: nat)
    requires i <= j <= |s|
    ensures forall c :: c in s[..i] + s[j..] ==> c in s
  {
    forall c | c in s[..i] + s[j..] ensures c in s {
      var k :| 0 <= k < |s[..i] + s[j..]| && (s[..i] + s[j..])[k] == c;
      if k < i { assert s[k] == c; } else { assert s[k - i + j] == c; }
    }
  }

  /** `s.replace(p, '')` for a string pattern `p`: the first occurrence of `p`
      is deleted, wherever it is; later occurrences stay; with no occurrence
      the string is returned unchanged. */
  function RemoveFirst(s: string, p: string): (r: string)
    ensures (forall j :: !OccursAt(s, p, j)) ==> r == s
    ensures forall i :: FirstOccurrence(s, p, i) ==> r == s[..i] + s[i + |p|..]
    ensures forall c :: c in r ==> c in s
  {
    match IndexOf(s, p)
    case None => s
    case Some(i) =>
      assert forall k :: FirstOccurrence(s, p, k) ==> k == i by {
        forall k | FirstOccurrence(s, p, k) ensures k == i {
          FirstOccurrenceUnique(s, p, i, k);
        }
      }
      CutKeepsCharacters(s, i, i + |p|);
      s[..i] + s[i + |p|..]
  }

  /** The first occurrence found after a prefix free of `p` is the one removed,
      and any later occurrence in `b` survives. */
  lemma RemoveFirstAfter(a: string, p: string, b: string)
    requires forall j :: 0 <= j < |a| ==> !OccursAt(a + p + b, p, j)
    ensures RemoveFirst(a + p + b, p) == a + b
  {
    var s := a + p + b;
    assert FirstOccurrence(s, p, |a|) by { assert s[|a|..|a| + |p|] == p; }
    assert s[..|a|] == a;
    assert s[|a| + |p|..] == b;
  }

  // ---------------------------------------------------------------------
  // split with a one-character separator, and its inverse join
  // ---------------------------------------------------------------------

  /** `pieces.join(sep)`: the pieces with one separator between neighbours. */
  function Join(pieces: seq<string>, sep: char): string
    requires |pieces| >= 1
    decreases |pieces|
  {
    if |pieces| == 1 then pieces[0] else pieces[0] + [sep] + Join(pieces[1..], sep)
  }

  /** `s.split(sep)`: the maximal separator-free pieces of `s`, in order. There
      is one piece more than there are separators (so `"".split(sep)` is
      `[""]`), and no piece holds the separator; `JoinSplit` shows that
      joining the pieces with the separator gives `s` back. */
  function Split(s: string, sep: char): (r: seq<string>)
    ensures |r| == multiset(s)[sep] + 1
    ensures forall i :: 0 <= i < |r| ==> sep !in r[i]
    decreases |s|
  {
    if |s| == 0 then [""]
    else
      var rest := Split(s[1..], sep);
      assert s == [s[0]] + s[1..];
      assert multiset(s) == multiset{s[0]} + multiset(s[1..]);
      if s[0] == sep then [""] + rest else [[s[0]] + rest[0]] + rest[1..]
  }

  /** `join` undoes `split`. */
  lemma {:induction false} JoinSplit(s: string, sep: char)
    ensures Join(Split(s, sep), sep) == s
    decreases |s|
  {
    if |s| > 0 {
      JoinSplit(s[1..], sep);
      HeadAndTail(s);
      var rest := Split(s[1..], sep);
      if s[0] == sep {
        JoinCons("", rest, sep);
        PrependNothing([sep]);
      } else {
        JoinExtendsHead(s[0], rest, sep);
      }
    }
  }

  lemma JoinCons(p: string, rest: seq<string>, sep: char)
    requires |rest| >= 1
    ensures Join([p] + rest, sep) == p + [sep] + Join(rest, sep)
  {
    TailOfConcat([p], rest);
  }

  /** Prepending a character to the first piece prepends it to the join. */
  lemma JoinExtendsHead(c: char, pieces: seq<string>, sep: char)
    requires |pieces| >= 1
    ensures Join([[c] + pieces[0]] + pieces[1..], sep) == [c] + Join(pieces, sep)
  {
    var q := [[c] + pieces[0]] + pieces[1..];
    assert q[1..] == pieces[1..];
  }

  /** `split` undoes `join` when no piece holds the separator. */
  lemma {:induction false} SplitJoin(pieces: seq<string>, sep: char)
    requires |pieces| >= 1
    requires forall i :: 0 <= i < |pieces| ==> sep !in pieces[i]
    ensures Split(Join(pieces, sep), sep) == pieces
    decreases |pieces|
  {
    SplitWithoutSeparator(pieces[0], sep);
    if |pieces| > 1 {
      SplitJoin(pieces[1..], sep);
      SplitAround(pieces[0], sep, Join(pieces[1..], sep));
      assert [pieces[0]] + pieces[1..] == pieces;
    }
  }

  /** A separator-free string splits into itself alone. */
  lemma SplitWithoutSeparator(s: string, sep: char)
    requires sep !in s
    ensures Split(s, sep) == [s]
  {
    assert multiset(s)[sep] == 0;
    JoinSplit(s, sep);
  }

  /** Splitting at a separator: the pieces of the two sides, concatenated. */
  lemma {:induction false} SplitAround(a: string, sep: char, b: string)
    ensures Split(a + [sep] + b, sep) == Split(a, sep) + Split(b, sep)
    decreases |a|
  {
    var s := a + [sep] + b;
    if |a| == 0 {
      assert s[0] == sep && s[1..] == b;
      assert Split(a, sep) == [""];
    } else {
      assert s[1..] == a[1..] + [sep] + b;
      SplitAround(a[1..], sep, b);
      SplitAroundStep(a, sep, b);
    }
  }

  /** The inductive step of `SplitAround`: the first character of `a` joins
      the first piece, or starts a new one. */
  lemma SplitAroundStep(a: string, sep: char, b: string)
    requires |a| > 0
    requires Split(a[1..] + [sep] + b, sep) == Split(a[1..], sep) + Split(b, sep)
    ensures Split(a + [sep] + b, sep) == Split(a, sep) + Split(b, sep)
  {
    var s := a + [sep] + b;
    HeadOfConcat(a, [sep]);
    HeadOfConcat(a + [sep], b);
    TailOfConcat(a, [sep]);
    TailOfConcat(a + [sep], b);
    if a[0] == sep {
      SplitAroundAtSeparator(a, s, sep, Split(a[1..], sep), Split(b, sep));
    } else {
      SplitAroundAtOther(a, s, sep, Split(a[1..], sep), Split(b, sep));
    }
  }

  lemma SplitAroundAtSeparator(a: string, s: string, sep: char, ra: seq<string>, rb: seq<string>)
    requires |a| > 0 && |s| > 0 && a[0] == sep && s[0] == sep
    requires ra == Split(a[1..], sep) && Split(s[1..], sep) == ra + rb
    ensures Split(s, sep) == Split(a, sep) + rb
  {
    Assoc([""], ra, rb);
  }

  lemma SplitAroundAtOther(a: string, s: string, sep: char, ra: seq<string>, rb: seq<string>)
    requires |a| > 0 && |s| > 0 && a[0] != sep && s[0] == a[0]
    requires ra == Split(a[1..], sep) && Split(s[1..], sep) == ra + rb
    ensures Split(s, sep) == Split(a, sep) + rb
  {
    ExtendHeadOfConcat([a[0]], ra, rb);
  }

  /** Extending the first piece of `x + y` extends the first piece of `x`. */
  lemma ExtendHeadOfConcat(c: string, x: seq<string>, y: seq<string>)
    requires |x| >= 1
    ensures [c + (x + y)[0]] + (x + y)[1..] == ([c + x[0]] + x[1..]) + y
  {
    TailOfConcat(x, y);
  }

  // ---------------------------------------------------------------------
  // filter(Boolean) on an array of strings
  // ---------------------------------------------------------------------

  /** `xs.filter(Boolean)`: the empty strings are dropped, every other string
      is kept, as often as it occurs. `NonEmptyAppend` shows the order is
      kept. */
  function NonEmpty(xs: seq<string>): (r: seq<string>)
    ensures forall x :: x in r <==> x in xs && x != []
    ensures |r| == |xs| - multiset(xs)[[]]
    ensures multiset(r) == multiset(xs)[[] := 0]
    decreases |xs|
  {
    if |xs| == 0 then []
    else
      var rest := NonEmpty(xs[1..]);
      HeadAndTail(xs);
      assert multiset(xs) == multiset{xs[0]} + multiset(xs[1..]);
      if xs[0] == [] then rest else [xs[0]] + rest
  }

  /** `filter` works element by element: it distributes over concatenation. */
  lemma {:induction false} NonEmptyAppend(xs: seq<string>, ys: seq<string>)
    ensures NonEmpty(xs + ys) == NonEmpty(xs) + NonEmpty(ys)
    decreases |xs|
  {
    if |xs| > 0 {
      HeadOfConcat(xs, ys);
      TailOfConcat(xs, ys);
      NonEmptyAppend(xs[1..], ys);
      Assoc([xs[0]], NonEmpty(xs[1..]), NonEmpty(ys));
    } else {
      PrependNothing(ys);
      PrependNothing(NonEmpty(ys));
    }
  }

  // ---------------------------------------------------------------------
  // map with a callback that may throw
  // ---------------------------------------------------------------------

  /** Where `xs.map(f)` stopped: the position of the element whose callback
      threw, and what it threw. */
  datatype Thrown<+E> = Thrown(index: nat, error: E)

  /** `xs.map(f)` where `f` may throw: the callback runs on the elements in
      order, and the first throw ends the whole map. */
  function MapOrThrow<T, U, E>(xs: seq<T>, f: T -> Result<U, E>): (r: Result<seq<U>, Thrown<E>>)
    ensures r.Ok? <==> forall i :: 0 <= i < |xs| ==> f(xs[i]).Ok?
    ensures r.Ok? ==> |r.value| == |xs|
    ensures r.Ok? ==> forall i :: 0 <= i < |xs| ==> f(xs[i]) == Ok(r.value[i])
    ensures r.Err? ==> r.error.index < |xs| && f(xs[r.error.index]) == Err(r.error.error)
    ensures r.Err? ==> forall i :: 0 <= i < r.error.index ==> f(xs[i]).Ok?
    decreases |xs|
  {
    if |xs| == 0 then Ok([])
    else
      match f(xs[0])
      case Err(e) => Err(Thrown(0, e))
      case Ok(first) =>
        var rest := MapOrThrow(xs[1..], f);
        assert forall i :: 1 <= i < |xs| ==> xs[i] == xs[1..][i - 1];
        match rest
        case Err(t) => Err(Thrown(t.index + 1, t.error))
        case Ok(ys) => Ok([first] + ys)
  }

  /** Mapping one more element whose callback returns extends the result by
      that element's value. */
  lemma MapOrThrowSnoc<T, U, E>(xs: seq<T>, x: T, f: T -> Result<U, E>)
    requires MapOrThrow(xs, f).Ok? && f(x).Ok?
    ensures MapOrThrow(xs + [x], f) == Ok(MapOrThrow(xs, f).value + [f(x).value])
  {
    var all := xs + [x];
    var ys := MapOrThrow(xs, f).value;
    assert forall i :: 0 <= i < |xs| ==> all[i] == xs[i];
    assert forall i :: 0 <= i < |all| ==> f(all[i]).Ok? by {
      forall i | 0 <= i < |all| ensures f(all[i]).Ok? {
        if i < |xs| { assert all[i] == xs[i]; } else { assert all[i] == x; }
      }
    }
    var r := MapOrThrow(all, f).value;
    var expected := ys + [f(x).value];
    forall i | 0 <= i < |all| ensures r[i] == expected[i] {
      if i < |xs| { assert all[i] == xs[i]; } else { assert all[i] == x; }
    }
    assert r == expected;
  }
}
