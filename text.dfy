/**
 Models of the two Go `strings` functions the analyzer relies on:
 `strings.Trim` with the cutset "\t\n " and `strings.Join`. `Split` is the
 inverse of `Join`, used to show that the keyword pattern keeps every
 keyword, in order.
 */
module Text {

  /** The cutset the analyzer trims with: tab, newline and space (not '\r'). */
  predicate InCutset(c: char) {
    c == '\t' || c == '\n' || c == ' '
  }

  /** Every character of `s` is in the cutset; true of the empty string. */
  predicate AllCutset(s: string) {
    forall i :: 0 <= i < |s| ==> InCutset(s[i])
  }

  /** Drops the longest prefix of cutset characters. */
  function TrimLeft(s: string): (r: string)
    ensures |r| <= |s| && r == s[|s| - |r|..]
    ensures forall i :: 0 <= i < |s| - |r| ==> InCutset(s[i])
    ensures r == [] || !InCutset(r[0])
  {
    if s != [] && InCutset(s[0]) then TrimLeft(s[1..]) else s
  }

  /** Drops the longest suffix of cutset characters. */
  function TrimRight(s: string): (r: string)
    ensures |r| <= |s| && r == s[..|r|]
    ensures forall i :: |r| <= i < |s| ==> InCutset(s[i])
    ensures r == [] || !InCutset(r[|r| - 1])
  {
    if s != [] && InCutset(s[|s| - 1]) then TrimRight(s[..|s| - 1]) else s
  }

  /**
   `strings.Trim(s, "\t\n ")`: the slice of `s` left after removing cutset
   characters from both ends; everything removed is in the cutset. It is empty exactly when `s` holds nothing but
   cutset characters, and otherwise starts and ends outside the cutset.
   */
  function Trim(s: string): (r: string)
    ensures exists k :: 0 <= k <= |s| - |r| && r <= s[k..] && AllCutset(s[..k]) && AllCutset(s[k + |r|..])
    ensures r == [] <==> AllCutset(s)
    ensures r != [] ==> !InCutset(r[0]) && !InCutset(r[|r| - 1])
  {
    var l := TrimLeft(s);
    var r := TrimRight(l);
    TrimBothEnds(s, l, r);
    r
  }

  /**
   Trimming the left end of `s` to `l` and then the right end of `l` to `r`
   removes only cutset characters, from each end of `s`.
   */
  lemma TrimBothEnds(s: string, l: string, r: string)
    requires |l| <= |s| && l == s[|s| - |l|..]
    requires forall i :: 0 <= i < |s| - |l| ==> InCutset(s[i])
    requires l == [] || !InCutset(l[0])
    requires |r| <= |l| && r == l[..|r|]
    requires forall i :: |r| <= i < |l| ==> InCutset(l[i])
    requires r == [] || !InCutset(r[|r| - 1])
    ensures var k := |s| - |l|;
            && 0 <= k <= |s| - |r|
            && r <= s[k..]
            && AllCutset(s[..k])
            && AllCutset(s[k + |r|..])
    ensures r == [] <==> AllCutset(s)
    ensures r != [] ==> !InCutset(r[0]) && !InCutset(r[|r| - 1])
  {
    var k := |s| - |l|;
    assert r <= l && l == s[k..];
    forall j | k + |r| <= j < |s| ensures InCutset(s[j]) {
      assert s[j] == l[j - k];
    }
    forall i | 0 <= i < k ensures InCutset(s[..k][i]) {
      assert s[..k][i] == s[i];
    }
    if r != [] {
      assert s[k] == l[0] == r[0];
    }
  }

  /** `strings.Join(xs, sep)`: the elements of `xs` with `sep` between neighbours. */
  function Join(xs: seq<string>, sep: string): (r: string)
    ensures |xs| == 0 ==> r == []
    ensures |xs| >= 1 ==> xs[0] <= r && |xs[|xs| - 1]| <= |r| && r[|r| - |xs[|xs| - 1]|..] == xs[|xs| - 1]
    ensures |xs| >= 2 ==> |r| >= |xs[0]| + |sep| + |xs[|xs| - 1]|
  {
    if |xs| == 0 then ""
    else if |xs| == 1 then xs[0]
    else
      var init := xs[..|xs| - 1];
      assert init[0] == xs[0];
      Join(init, sep) + sep + xs[|xs| - 1]
  }

  /**
   Puts the character `ch` in front of the parts `rest` split at `c`: a
   separator opens a new empty part, any other character joins the first one.
   */
  function SplitStep(ch: char, rest: seq<string>, c: char): (parts: seq<string>)
    requires |rest| >= 1
    ensures |parts| == |rest| + (if ch == c then 1 else 0)
  {
    if ch == c then [""] + rest else [[ch] + rest[0]] + rest[1..]
  }

  /**
   Splits `s` at every occurrence of `c`, as `strings.Split` does with a
   one-character separator; the empty string gives one empty part.
   */
  function Split(s: string, c: char): (parts: seq<string>)
    ensures |parts| >= 1
    ensures |parts| == multiset(s)[c] + 1
  {
    if s == [] then [""]
    else
      assert s == [s[0]] + s[1..];
      SplitStep(s[0], Split(s[1..], c), c)
  }

  /** A step in front of parts that are followed by more parts only touches the first ones. */
  lemma SplitStepAppend(ch: char, front: seq<string>, back: seq<string>, c: char)
    requires |front| >= 1
    ensures SplitStep(ch, front + back, c) == SplitStep(ch, front, c) + back
  {
    assert (front + back)[0] == front[0];
    assert (front + back)[1..] == front[1..] + back;
  }

  /** A string without the separator is one part. */
  lemma {:induction false} SplitWithoutSeparator(s: string, c: char)
    requires c !in s
    ensures Split(s, c) == [s]
  {
    if s != [] {
      assert c !in s[1..] by {
        assert forall i :: 0 <= i < |s[1..]| ==> s[1..][i] == s[i + 1];
      }
      SplitWithoutSeparator(s[1..], c);
      assert s[0] != c && [s[0]] + s[1..] == s;
    }
  }

  /** Splitting at one occurrence of the separator splits each side independently. */
  lemma {:induction false} SplitAround(a: string, b: string, c: char)
    ensures Split(a + [c] + b, c) == Split(a, c) + Split(b, c)
  {
    if a == [] {
      assert a + [c] + b == [c] + b;
      assert ([c] + b)[1..] == b;
    } else {
      var s := a + [c] + b;
      assert s[0] == a[0] && s[1..] == a[1..] + [c] + b;
      SplitAround(a[1..], b, c);
      SplitStepAppend(a[0], Split(a[1..], c), Split(b, c), c);
    }
  }

  /**
   Round trip: joining a non-empty list of parts that do not contain `c`
   with the separator `c` and splitting at `c` gives the parts back, in order.
   */
  lemma {:induction false} SplitJoin(xs: seq<string>, c: char)
    requires |xs| >= 1
    requires forall i :: 0 <= i < |xs| ==> c !in xs[i]
    ensures Split(Join(xs, [c]), c) == xs
  {
    var n := |xs|;
    if n == 1 {
      SplitWithoutSeparator(xs[0], c);
    } else {
      var init, last := xs[..n - 1], xs[n - 1];
      assert init + [last] == xs;
      assert forall i :: 0 <= i < |init| ==> init[i] == xs[i];
      SplitJoin(init, c);
      var joined := Join(init, [c]);
      assert Join(xs, [c]) == joined + [c] + last;
      SplitAround(joined, last, c);
      SplitWithoutSeparator(last, c);
    }
  }
}
