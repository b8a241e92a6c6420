/**
 * The part of Go's `strings` package the bridge relies on: `Split` and
 * `Join` with the separator "/", and `EqualFold` restricted to ASCII.
 */
module GoStrings {

  /** The topic-level separator, the `sep` argument of every call the bridge makes. */
  const Slash: char := '/'

  predicate NoSlash(s: string) {
    Slash !in s
  }

  /** Number of separators in `s` (Go's `strings.Count(s, "/")`). */
  function Count(s: string): nat
    decreases |s|
  {
    if s == [] then 0 else (if s[0] == Slash then 1 else 0) + Count(s[1..])
  }

  /**
   * `strings.Split(s, "/")`: one segment more than there are separators,
   * segments may be empty, and `Split("")` is `[""]`.
   */
  function Split(s: string): (r: seq<string>)
    ensures |r| == Count(s) + 1
    ensures forall i :: 0 <= i < |r| ==> NoSlash(r[i])
    decreases |s|
  {
    if s == [] then [[]]
    else
      var rest := Split(s[1..]);
      if s[0] == Slash then [[]] + rest
      else [[s[0]] + rest[0]] + rest[1..]
  }

  predicate AllNoSlash(xs: seq<string>) {
    forall i :: 0 <= i < |xs| ==> NoSlash(xs[i])
  }

  /** Separators add up across a concatenation. */
  lemma {:induction false} CountAppend(a: string, b: string)
    ensures Count(a + b) == Count(a) + Count(b)
    decreases |a|
  {
    if a != [] {
      assert (a + b)[0] == a[0];
      assert (a + b)[1..] == a[1..] + b;
      CountAppend(a[1..], b);
    } else {
      assert a + b == b;
    }
  }

  /** A slash-free string holds no separator to count. */
  lemma {:induction false} CountOfSegment(s: string)
    ensures NoSlash(s) ==> Count(s) == 0
  {
    if NoSlash(s) {
      SplitOfSegment(s);
    }
  }

  /**
   * `strings.Join(xs, "/")`: joining slash-free segments puts exactly one
   * separator between each two of them.
   */
  function Join(xs: seq<string>): (r: string)
    ensures |xs| >= 1 && AllNoSlash(xs) ==> Count(r) == |xs| - 1
    decreases |xs|
  {
    if |xs| == 0 then []
    else if |xs| == 1 then
      CountOfSegment(xs[0]);
      xs[0]
    else
      var rest := Join(xs[1..]);
      CountOfSegment(xs[0]);
      assert AllNoSlash(xs) ==> AllNoSlash(xs[1..]);
      CountAppend(xs[0], [Slash]);
      CountAppend(xs[0] + [Slash], rest);
      xs[0] + [Slash] + rest
  }

  /** Joining the segments of a split gives the original string back. */
  lemma {:induction false} JoinOfSplit(s: string)
    ensures Join(Split(s)) == s
    decreases |s|
  {
    if s != [] {
      var rest := Split(s[1..]);
      JoinOfSplit(s[1..]);
      if s[0] == Slash {
        assert Split(s) == [[]] + rest;
        assert Join(Split(s)) == [] + [Slash] + Join(rest);
      } else if |rest| == 1 {
        assert Split(s) == [[s[0]] + rest[0]];
      } else {
        var head := [s[0]] + rest[0];
        assert Split(s) == [head] + rest[1..];
        assert Join(Split(s)) == head + [Slash] + Join(rest[1..]);
        assert Join(rest) == rest[0] + [Slash] + Join(rest[1..]);
      }
    }
  }

  /** A string without separators is a single segment. */
  lemma {:induction false} SplitOfSegment(s: string)
    requires NoSlash(s)
    ensures Split(s) == [s]
    decreases |s|
  {
    if s != [] {
      assert NoSlash(s[1..]) by { assert forall k :: 0 <= k < |s| - 1 ==> s[1..][k] == s[k + 1]; }
      SplitOfSegment(s[1..]);
      assert s[0] != Slash by { assert s[0] in s; }
      assert [s[0]] + s[1..] == s;
    }
  }

  /** Splitting at a separator splits the two sides independently. */
  lemma {:induction false} SplitAround(a: string, b: string)
    ensures Split(a + [Slash] + b) == Split(a) + Split(b)
    decreases |a|
  {
    var s := a + [Slash] + b;
    if a == [] {
      assert s[1..] == b;
    } else {
      assert s[1..] == a[1..] + [Slash] + b;
      SplitAround(a[1..], b);
      var ra := Split(a[1..]);
      if a[0] != Slash {
        assert (ra + Split(b))[0] == ra[0];
        assert (ra + Split(b))[1..] == ra[1..] + Split(b);
      }
    }
  }

  /** Joining slash-free segments and splitting again gives the segments back. */
  lemma {:induction false} SplitOfJoin(xs: seq<string>)
    requires |xs| >= 1
    requires forall i :: 0 <= i < |xs| ==> NoSlash(xs[i])
    ensures Split(Join(xs)) == xs
    decreases |xs|
  {
    SplitOfSegment(xs[0]);
    if |xs| > 1 {
      SplitOfJoin(xs[1..]);
      SplitAround(xs[0], Join(xs[1..]));
      assert [xs[0]] + xs[1..] == xs;
    }
  }

  /** ASCII-only simple case folding (upper-case letters to lower case). */
  function LowerAscii(c: char): char {
    if 'A' <= c <= 'Z' then (c as int + 32) as char else c
  }

  /** The lower-case form of a string, letter by letter. */
  function Lower(s: string): (r: string)
    ensures |r| == |s|
    ensures forall i :: 0 <= i < |s| ==> r[i] == LowerAscii(s[i])
    decreases |s|
  {
    if s == [] then [] else [LowerAscii(s[0])] + Lower(s[1..])
  }

  /**
   * `strings.EqualFold` on ASCII: both strings run out together and every
   * pair of letters folds to the same letter.
   */
  predicate EqualFold(a: string, b: string)
    ensures EqualFold(a, b) ==> |a| == |b|
    decreases |a|
  {
    if a == [] || b == [] then a == b
    else LowerAscii(a[0]) == LowerAscii(b[0]) && EqualFold(a[1..], b[1..])
  }

  /** Two strings are equal under folding exactly when their lower-case forms are equal. */
  lemma {:induction false} EqualFoldIffSameLower(a: string, b: string)
    ensures EqualFold(a, b) <==> Lower(a) == Lower(b)
    decreases |a|
  {
    if a != [] && b != [] {
      EqualFoldIffSameLower(a[1..], b[1..]);
      assert Lower(a) == [LowerAscii(a[0])] + Lower(a[1..]);
      assert Lower(b) == [LowerAscii(b[0])] + Lower(b[1..]);
      if Lower(a) == Lower(b) {
        assert Lower(a)[1..] == Lower(a[1..]);
        assert Lower(b)[1..] == Lower(b[1..]);
      }
    }
  }
}
