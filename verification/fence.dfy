/** Extraction of the fenced JSON block from the vision model's free-text reply.

    The relay matches the reply against the ECMAScript pattern
    ```json\n([\s\S]*?)\n``` without flags and keeps capture group 1. A
    backtracking engine tries start positions from left to right and, at each
    start, tries body lengths from the shortest up; the first success wins. The
    ghost predicates below state that semantics directly, and `Extract`, written
    as two left-to-right searches, is proved to agree with it. */
module Fence {
  import opened Wrappers

  /** The opening fence: three backticks, the lower-case tag `json`, one line feed. */
  const Open: string := "```json\n"

  /** The closing delimiter: one line feed, then three backticks. */
  const Close: string := "\n```"

  /** `pat` occurs in `s` starting at index `k`. */
  predicate OccursAt(s: string, pat: string, k: nat)
  {
    k + |pat| <= |s| && s[k..k + |pat|] == pat
  }

  /** `pat` occurs somewhere in `s`. */
  ghost predicate Contains(s: string, pat: string)
  {
    exists k: nat :: OccursAt(s, pat, k)
  }

  /** The first occurrence of `pat` in `s` at or after index `from`. */
  function FindFrom(s: string, pat: string, from: nat): (r: Option<nat>)
    ensures r.Some? ==> from <= r.value && OccursAt(s, pat, r.value)
    ensures r.Some? ==> forall k: nat :: from <= k < r.value ==> !OccursAt(s, pat, k)
    ensures r.None? ==> forall k: nat :: from <= k ==> !OccursAt(s, pat, k)
    decreases |s| - from
  {
    if from + |pat| > |s| then None
    else if s[from..from + |pat|] == pat then Some(from)
    else FindFrom(s, pat, from + 1)
  }

  /** An opening fence starts at `i` and a closing delimiter starts at `j`,
      at or after the end of that fence: one way for the pattern to match. */
  ghost predicate Delimits(s: string, i: nat, j: nat)
  {
    OccursAt(s, Open, i) && i + |Open| <= j && OccursAt(s, Close, j)
  }

  /** The match `String.prototype.match` reports: the leftmost start that can
      match at all and, for that start, the shortest (lazy) body. */
  ghost predicate IsFirstMatch(s: string, i: nat, j: nat)
  {
    && Delimits(s, i, j)
    && (forall i': nat, j': nat :: Delimits(s, i', j') ==> i <= i')
    && (forall j': nat :: Delimits(s, i, j') ==> j <= j')
  }

  /** Where a match sits: the opening fence at `open`, the closing delimiter at `close`. */
  datatype Span = Span(open: nat, close: nat)

  /** The first opening fence in `s` starts at `i`. */
  ghost predicate FirstOpenAt(s: string, i: nat)
  {
    OccursAt(s, Open, i) && forall k: nat :: k < i ==> !OccursAt(s, Open, k)
  }

  /** The first opening fence, followed by the first closing delimiter at or
      after its end, is the match the regex engine reports. */
  lemma FirstFenceFirstCloseIsFirstMatch(s: string, i: nat, j: nat)
    requires FirstOpenAt(s, i)
    requires i + |Open| <= j && OccursAt(s, Close, j)
    requires forall k: nat :: i + |Open| <= k < j ==> !OccursAt(s, Close, k)
    ensures IsFirstMatch(s, i, j)
  {
    forall i': nat, j': nat | Delimits(s, i', j')
      ensures i <= i'
    {
      assert i' < i ==> !OccursAt(s, Open, i');
    }
  }

  /** The position of the match, found by two left-to-right searches. */
  function Locate(s: string): (r: Option<Span>)
    ensures r.None? <==> forall i: nat, j: nat :: !Delimits(s, i, j)
    ensures r.Some? ==> IsFirstMatch(s, r.value.open, r.value.close)
  {
    match FindFrom(s, Open, 0)
    case None => None
    case Some(i) =>
      match FindFrom(s, Close, i + |Open|)
      case None => None
      case Some(j) =>
        FirstFenceFirstCloseIsFirstMatch(s, i, j);
        Some(Span(i, j))
  }

  /** Capture group 1 of the relay's pattern, or None when `match` returns null. */
  function Extract(s: string): (r: Option<string>)
    ensures r.None? <==> forall i: nat, j: nat :: !Delimits(s, i, j)
    ensures r.Some? ==> exists i: nat, j: nat :: IsFirstMatch(s, i, j) && r.value == s[i + |Open|..j]
  {
    match Locate(s)
    case None => None
    case Some(m) => Some(s[m.open + |Open|..m.close])
  }

  /** Two matches that are both "first" are the same match. */
  lemma FirstMatchUnique(s: string, i: nat, j: nat, i': nat, j': nat)
    requires IsFirstMatch(s, i, j) && IsFirstMatch(s, i', j')
    ensures i == i' && j == j'
  {
    assert i <= i' && i' <= i;
  }

  /** A match exists exactly when the FIRST opening fence is followed, at or
      after its end, by a closing delimiter: later fences never help, because
      any delimiter after them is also after the first one. */
  lemma MatchIffFirstFenceClosed(s: string, i: nat)
    requires FirstOpenAt(s, i)
    ensures Extract(s).Some? <==> exists j: nat :: i + |Open| <= j && OccursAt(s, Close, j)
  {
    if Extract(s).Some? {
      var i0: nat, j0: nat :| Delimits(s, i0, j0);
      assert i0 < i ==> !OccursAt(s, Open, i0);
      assert i + |Open| <= j0 && OccursAt(s, Close, j0);
    } else {
      forall j: nat | i + |Open| <= j
        ensures !OccursAt(s, Close, j)
      {
        assert !Delimits(s, i, j);
      }
    }
  }

  /** Reading the reply with no opening fence at all yields no match. */
  lemma NoOpenNoMatch(s: string)
    requires !Contains(s, Open)
    ensures Extract(s) == None
  {
    forall i: nat, j: nat ensures !Delimits(s, i, j) {
      assert !OccursAt(s, Open, i);
    }
  }

  /** A slice of a slice is a slice of the whole. */
  lemma SliceOfSlice(s: string, a: nat, b: nat, c: nat, d: nat)
    requires a <= b <= |s| && c <= d <= b - a
    ensures s[a..b][c..d] == s[a + c..a + d]
  {
    assert forall t :: 0 <= t < d - c ==> s[a..b][c..d][t] == s[a + c + t];
  }

  /** The captured payload is the text right after the first opening fence, up
      to a closing delimiter, and never contains that delimiter (the body is lazy). */
  lemma PayloadIsCloseFreeSlice(s: string, p: string)
    requires Extract(s) == Some(p)
    ensures exists i: nat :: FirstOpenAt(s, i) && OccursAt(s, p, i + |Open|) && OccursAt(s, Close, i + |Open| + |p|)
    ensures !Contains(p, Close)
  {
    var m := Locate(s).value;
    var i, j := m.open, m.close;
    FirstMatchOpensFirst(s, i, j);
    FirstMatchBodyHasNoClose(s, i, j);
    assert p == s[i + |Open|..j];
    assert s[i + |Open|..i + |Open| + |p|] == p;
  }

  /** The match starts at the first opening fence. */
  lemma FirstMatchOpensFirst(s: string, i: nat, j: nat)
    requires IsFirstMatch(s, i, j)
    ensures FirstOpenAt(s, i)
  {
    forall k: nat | k < i
      ensures !OccursAt(s, Open, k)
    {
      assert !Delimits(s, k, j);
    }
  }

  /** The body of the match holds no closing delimiter: the lazy body stops
      at the first one. */
  lemma FirstMatchBodyHasNoClose(s: string, i: nat, j: nat)
    requires IsFirstMatch(s, i, j)
    ensures !Contains(s[i + |Open|..j], Close)
  {
    var a := i + |Open|;
    forall k: nat
      ensures !OccursAt(s[a..j], Close, k)
    {
      if k + |Close| <= j - a {
        SliceOfSlice(s, a, j, k, k + |Close|);
        assert !Delimits(s, i, a + k);
      }
    }
  }

  /** If `s` starts with the text `p`, which holds no opening fence, followed
      by an opening fence, that fence is the first one in `s`: no occurrence
      can run across the join, since the fence's only line feed is its last
      character. */
  lemma FirstOpenAfterPrefix(s: string, p: string)
    requires !Contains(p, Open)
    requires |p| + |Open| <= |s| && s[..|p|] == p && s[|p|..|p| + |Open|] == Open
    ensures FirstOpenAt(s, |p|)
  {
    forall k: nat | k < |p|
      ensures !OccursAt(s, Open, k)
    {
      if k + |Open| <= |p| {
        SliceOfSlice(s, 0, |p|, k, k + |Open|);
        assert !OccursAt(p, Open, k);
      } else {
        var m := k + |Open| - 1;
        assert s[k..k + |Open|][|Open| - 1] == s[m];
        assert s[m] == s[|p|..|p| + |Open|][m - |p|];
        assert Open[m - |p|] != Open[|Open| - 1];
      }
    }
  }

  /** If `body`, which holds no closing delimiter, sits in `s` at `a` and is
      followed by a closing delimiter, that delimiter is the first one at or
      after `a`: none starts inside `body`, and none can run into the next
      one, whose first character is its only line feed. */
  lemma FirstCloseAfterBody(s: string, a: nat, body: string)
    requires !Contains(body, Close)
    requires a + |body| + |Close| <= |s| && s[a..a + |body|] == body
    requires s[a + |body|..a + |body| + |Close|] == Close
    ensures OccursAt(s, Close, a + |body|)
    ensures forall k: nat :: a <= k < a + |body| ==> !OccursAt(s, Close, k)
  {
    var e := a + |body|;
    forall k: nat | a <= k < e
      ensures !OccursAt(s, Close, k)
    {
      if k + |Close| <= e {
        SliceOfSlice(s, a, e, k - a, k - a + |Close|);
        assert !OccursAt(body, Close, k - a);
      } else {
        assert s[k..k + |Close|][e - k] == s[e];
        assert s[e] == s[e..e + |Close|][0];
        assert Close[e - k] != Close[0];
      }
    }
  }

  /** The first opening fence at `i`, followed by the first closing delimiter
      at or after its end at `e`, makes capture group 1 the text between them. */
  lemma ExtractAt(s: string, i: nat, e: nat)
    requires FirstOpenAt(s, i)
    requires i + |Open| <= e && OccursAt(s, Close, e)
    requires forall k: nat :: i + |Open| <= k < e ==> !OccursAt(s, Close, k)
    ensures Extract(s) == Some(s[i + |Open|..e])
  {
    FirstFenceFirstCloseIsFirstMatch(s, i, e);
    var m := Locate(s).value;
    FirstMatchUnique(s, i, e, m.open, m.close);
  }

  /** Round trip: wrapping a payload in a fence and extracting it gives the
      payload back, whatever text surrounds the block, provided the leading
      text has no opening fence and the payload has no closing delimiter. */
  lemma RoundTrip(p: string, body: string, q: string)
    requires !Contains(p, Open)
    requires !Contains(body, Close)
    ensures Extract(p + Open + body + Close + q) == Some(body)
  {
    var s := p + Open + body + Close + q;
    var i := |p|;
    var a := i + |Open|;
    var e := a + |body|;
    assert s[..i] == p;
    assert s[i..a] == Open;
    assert s[a..e] == body;
    assert s[e..e + |Close|] == Close;
    FirstOpenAfterPrefix(s, p);
    FirstCloseAfterBody(s, a, body);
    ExtractAt(s, i, e);
  }

  /** A payload without any line feed can never hold the closing delimiter. */
  lemma NoLineFeedNoClose(body: string)
    requires '\n' !in body
    ensures !Contains(body, Close)
  {
    forall k: nat
      ensures !OccursAt(body, Close, k)
    {
      if k + |Close| <= |body| {
        assert body[k..k + |Close|][0] == body[k];
        assert body[k] in body;
      }
    }
  }

  /** Text that ends in a line feed cannot hold the start of an opening fence
      that runs past its end; so if neither part holds a fence, neither does
      their concatenation. */
  lemma NoOpenAcrossLineFeed(pre: string, rest: string)
    requires |pre| > 0 && pre[|pre| - 1] == '\n'
    requires !Contains(pre, Open) && !Contains(rest, Open)
    ensures !Contains(pre + rest, Open)
  {
    var s := pre + rest;
    forall k: nat
      ensures !OccursAt(s, Open, k)
    {
      if k + |Open| <= |s| {
        if k + |Open| <= |pre| {
          assert s[k..k + |Open|] == pre[k..k + |Open|];
          assert !OccursAt(pre, Open, k);
        } else if k < |pre| {
          var m := |pre| - 1;
          assert s[k..k + |Open|][m - k] == s[m];
          assert Open[m - k] != '\n';
        } else {
          assert s[k..k + |Open|] == rest[k - |pre|..k - |pre| + |Open|];
          assert !OccursAt(rest, Open, k - |pre|);
        }
      }
    }
  }

  /** An opening fence written with a CR LF line ending is not an opening
      fence: the reply falls back unless an exact fence appears later. */
  lemma CrlfFenceDoesNotOpen(rest: string)
    requires !Contains(rest, Open)
    ensures Extract("```json\r\n" + rest) == None
  {
    var pre := "```json\r\n";
    forall k: nat
      ensures !OccursAt(pre, Open, k)
    {
      if k == 0 {
        assert pre[0..8][7] == '\r';
      } else if k == 1 {
        assert pre[1..9][2] == 'j';
      }
    }
    NoOpenAcrossLineFeed(pre, rest);
    NoOpenNoMatch(pre + rest);
  }

  /** Matching is case-sensitive: an upper-case tag never opens a block. */
  lemma UpperCaseTagDoesNotOpen(rest: string)
    requires !Contains(rest, Open)
    ensures Extract("```JSON\n" + rest) == None
  {
    var pre := "```JSON\n";
    forall k: nat
      ensures !OccursAt(pre, Open, k)
    {
      if k == 0 {
        assert pre[0..8][3] == 'J';
      }
    }
    NoOpenAcrossLineFeed(pre, rest);
    NoOpenNoMatch(pre + rest);
  }

  /** A reply that is exactly one block gives back the block's body. */
  lemma WholeBlock(body: string)
    requires !Contains(body, Close)
    ensures Extract(Open + body + Close) == Some(body)
  {
    RoundTrip("", body, "");
    assert "" + Open + body + Close + "" == Open + body + Close;
  }

  /** An empty body still matches: the pattern needs the two line feeds, not
      any content between them, so the payload is the empty string. */
  lemma EmptyBodyMatches()
    ensures Extract("```json\n\n```") == Some("")
  {
    RoundTrip("", "", "");
    assert "" + Open + "" + Close + "" == "```json\n\n```";
  }

  /** The fence's own line feed cannot double as the closing delimiter's:
      "```json\n```" does not match. */
  lemma BareFencePairDoesNotMatch()
    ensures Extract("```json\n```") == None
  {
    var s := "```json\n```";
    forall i: nat, j: nat
      ensures !Delimits(s, i, j)
    {
      assert |s| < |Open| + |Close|;
    }
  }
}
