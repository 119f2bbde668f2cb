/** The category tokeniser shared by the MQTT and WebSocket paths: every run
    matching `[\W_]+` in the classifier's label is replaced by one space, and
    `strings.Fields` splits the result. */
module Categories {
  import opened Text

  /** `regexp.MustCompile("[\W_]+").ReplaceAllString(s, " ")`: each maximal
      run of non-alphanumeric characters becomes a single space. The letters
      and digits are kept, in order, and there are as many spaces as
      non-alphanumeric runs; ReplaceMarksGaps says where the spaces go. */
  function ReplaceNonWordRuns(s: string): (r: string)
    ensures forall i :: 0 <= i < |r| ==> IsAsciiAlnum(r[i]) || r[i] == ' '
    ensures Kept(r, IsAsciiAlnum) == Kept(s, IsAsciiAlnum)
    ensures |r| - |Kept(r, IsAsciiAlnum)| == RunStarts(s, IsNotAlnum, false)
    decreases |s|
  {
    if s == [] then []
    else if IsAsciiAlnum(s[0]) then
      var rest := ReplaceNonWordRuns(s[1..]);
      assert ([s[0]] + rest)[1..] == rest;
      [s[0]] + rest
    else
      var n := RunLength(s, IsNotAlnum);
      KeptSkip(s, IsAsciiAlnum, n);
      RunStartsInsideRun(s[1..], IsNotAlnum, n - 1);
      assert s[1..][n - 1..] == s[n..];
      var rest := ReplaceNonWordRuns(s[n..]);
      assert ([' '] + rest)[1..] == rest;
      [' '] + rest
  }

  /** What a gap of non-word characters leaves after the replacement: one
      space, or nothing for an empty gap. */
  function Marks(gaps: seq<string>): (ms: seq<string>)
    ensures |ms| == |gaps|
  {
    seq(|gaps|, k requires 0 <= k < |gaps| => if gaps[k] == [] then [] else " ")
  }

  /** Where the spaces go: wherever `s` is alphanumeric pieces separated by
      gaps of other characters, the replacement is the same pieces, each
      non-empty gap turned into exactly one space. So "a-b" becomes "a b"
      and "--a" becomes " a". */
  lemma {:induction false} ReplaceMarksGaps(s: string, gaps: seq<string>, rs: seq<string>)
    requires Separates(s, IsAsciiAlnum, gaps, rs)
    requires forall j :: 0 <= j < |rs| ==> |rs[j]| > 0
    requires forall j, i :: 0 <= j < |rs| && 0 <= i < |rs[j]| ==> IsAsciiAlnum(rs[j][i])
    ensures ReplaceNonWordRuns(s) == Interleave(Marks(gaps), rs)
    decreases |rs|
  {
    var ms := Marks(gaps);
    if rs == [] {
      ReplaceGap(gaps[0], []);
      assert gaps[0] + [] == gaps[0];
    } else {
      var tail := SeparatesTail(s, IsAsciiAlnum, gaps, rs);
      ReplaceMarksGaps(tail, gaps[1..], rs[1..]);
      ReplaceGapThenRun(gaps[0], rs[0], tail);
      assert ms[1..] == Marks(gaps[1..]);
      assert Interleave(ms, rs) == ms[0] + rs[0] + Interleave(ms[1..], rs[1..]);
    }
  }

  /** The replacement of any label is its alphanumeric runs, separated as in
      the label, with one space for each non-empty gap between them. */
  lemma ReplaceMarksRunGaps(s: string)
    ensures exists gaps ::
              && Separates(s, IsAsciiAlnum, gaps, Runs(s, IsAsciiAlnum))
              && ReplaceNonWordRuns(s) == Interleave(Marks(gaps), Runs(s, IsAsciiAlnum))
  {
    var gaps := RunGaps(s, IsAsciiAlnum);
    ReplaceMarksGaps(s, gaps, Runs(s, IsAsciiAlnum));
  }

  /** A gap of non-word characters followed by a word character, or by
      nothing, becomes its mark. */
  lemma ReplaceGap(g: string, t: string)
    requires forall i :: 0 <= i < |g| ==> !IsAsciiAlnum(g[i])
    requires |t| > 0 ==> IsAsciiAlnum(t[0])
    ensures ReplaceNonWordRuns(g + t) == (if g == [] then [] else " ") + ReplaceNonWordRuns(t)
  {
    var u := g + t;
    if g == [] {
      assert u == t;
    } else {
      assert u[0] == g[0];
      RunLengthIs(u, IsNotAlnum, |g|);
      assert u[|g|..] == t;
    }
  }

  /** A gap, then a piece of word characters, then the rest. */
  lemma ReplaceGapThenRun(g: string, x: string, tail: string)
    requires forall i :: 0 <= i < |g| ==> !IsAsciiAlnum(g[i])
    requires |x| > 0 && forall i :: 0 <= i < |x| ==> IsAsciiAlnum(x[i])
    ensures ReplaceNonWordRuns(g + x + tail) == (if g == [] then [] else " ") + x + ReplaceNonWordRuns(tail)
  {
    var t := x + tail;
    ReplaceGap(g, t);
    ReplaceCopiesAlnumPrefix(t, |x|);
    assert t[..|x|] == x && t[|x|..] == tail;
    assert g + x + tail == g + t;
  }

  /** The category list built from a classifier label: exactly the maximal
      runs of ASCII letters and digits of the label, in order. So every
      category is a non-empty alphanumeric word (no `_`, space or
      punctuation), and the categories laid end to end are the label's
      letters and digits. */
  function Tokenize(labelText: string): (categories: seq<string>)
    ensures categories == Runs(labelText, IsAsciiAlnum)
    ensures forall j :: 0 <= j < |categories| ==> |categories[j]| > 0
    ensures forall j, i :: 0 <= j < |categories| && 0 <= i < |categories[j]| ==> IsAsciiAlnum(categories[j][i])
    ensures Concat(categories) == Kept(labelText, IsAsciiAlnum)
  {
    TokenizeIsAlnumRuns(labelText);
    Fields(ReplaceNonWordRuns(labelText))
  }

  /** Replacing the non-word runs by spaces and splitting on white space
      yields the maximal runs of ASCII letters and digits of the label. */
  lemma {:induction false} TokenizeIsAlnumRuns(labelText: string)
    ensures Fields(ReplaceNonWordRuns(labelText)) == Runs(labelText, IsAsciiAlnum)
    decreases |labelText|
  {
    var s := labelText;
    if s != [] && !IsAsciiAlnum(s[0]) {
      var n := RunLength(s, IsNotAlnum);
      TokenizeIsAlnumRuns(s[n..]);
      TokenizeSkipsNonWordRun(s, n);
    } else if s != [] {
      var n := RunLength(s, IsAsciiAlnum);
      TokenizeIsAlnumRuns(s[n..]);
      TokenizeKeepsWordRun(s, n);
    }
  }

  /** The step of TokenizeIsAlnumRuns over a leading non-word run. */
  lemma TokenizeSkipsNonWordRun(s: string, n: nat)
    requires s != [] && !IsAsciiAlnum(s[0])
    requires n == RunLength(s, IsNotAlnum)
    requires Fields(ReplaceNonWordRuns(s[n..])) == Runs(s[n..], IsAsciiAlnum)
    ensures Fields(ReplaceNonWordRuns(s)) == Runs(s, IsAsciiAlnum)
  {
    var r := ReplaceNonWordRuns(s);
    assert r[1..] == ReplaceNonWordRuns(s[n..]);
    RunsSkip(r, IsNotSpace, 1);
    RunsSkip(s, IsAsciiAlnum, n);
  }

  /** The step of TokenizeIsAlnumRuns over a leading word run. */
  lemma TokenizeKeepsWordRun(s: string, n: nat)
    requires s != [] && IsAsciiAlnum(s[0])
    requires n == RunLength(s, IsAsciiAlnum)
    requires Fields(ReplaceNonWordRuns(s[n..])) == Runs(s[n..], IsAsciiAlnum)
    ensures Fields(ReplaceNonWordRuns(s)) == Runs(s, IsAsciiAlnum)
  {
    var r := ReplaceNonWordRuns(s);
    ReplaceCopiesAlnumPrefix(s, n);
    var rest := ReplaceNonWordRuns(s[n..]);
    assert r == s[..n] + rest;
    assert r[..n] == s[..n];
    assert r[n..] == rest;
    forall i | 0 <= i < n
      ensures IsNotSpace(r[i])
    {
      assert r[i] == s[i] && IsAsciiAlnum(s[i]);
      AlnumIsNotSpace(s[i]);
    }
    if n < |s| {
      assert rest[0] == ' ';
      assert !IsNotSpace(r[n]);
    }
    RunLengthIs(r, IsNotSpace, n);
    assert Fields(r) == [r[..n]] + Runs(r[n..], IsNotSpace);
    assert Runs(s, IsAsciiAlnum) == [s[..n]] + Runs(s[n..], IsAsciiAlnum);
  }

  lemma AlnumIsNotSpace(c: char)
    requires IsAsciiAlnum(c)
    ensures IsNotSpace(c)
  {
  }

  /** A leading run of alphanumerics is copied unchanged. */
  lemma {:induction false} ReplaceCopiesAlnumPrefix(s: string, n: nat)
    requires n <= |s|
    requires forall i :: 0 <= i < n ==> IsAsciiAlnum(s[i])
    ensures ReplaceNonWordRuns(s) == s[..n] + ReplaceNonWordRuns(s[n..])
    decreases n
  {
    if n > 0 {
      var t := s[1..];
      assert forall i :: 0 <= i < n - 1 ==> t[i] == s[i + 1];
      ReplaceCopiesAlnumPrefix(t, n - 1);
      ReplaceCopiesAlnumStep(s, n);
    }
  }

  /** The step of ReplaceCopiesAlnumPrefix: one more leading alphanumeric. */
  lemma ReplaceCopiesAlnumStep(s: string, n: nat)
    requires 0 < n <= |s| && IsAsciiAlnum(s[0])
    requires ReplaceNonWordRuns(s[1..]) == s[1..][..n - 1] + ReplaceNonWordRuns(s[1..][n - 1..])
    ensures ReplaceNonWordRuns(s) == s[..n] + ReplaceNonWordRuns(s[n..])
  {
    var t := s[1..];
    ReplaceAlnumHead(s);
    assert t[n - 1..] == s[n..];
    assert s[..n] == [s[0]] + t[..n - 1];
    SeqAssoc([s[0]], t[..n - 1], ReplaceNonWordRuns(s[n..]));
  }

  /** A leading alphanumeric is copied. */
  lemma ReplaceAlnumHead(s: string)
    requires s != [] && IsAsciiAlnum(s[0])
    ensures ReplaceNonWordRuns(s) == [s[0]] + ReplaceNonWordRuns(s[1..])
  {
  }

  lemma SeqAssoc(a: string, b: string, c: string)
    ensures a + (b + c) == (a + b) + c
  {
  }

  /** A label with no letters or digits (the empty label a failed
      classification step leaves behind, among others) yields no categories. */
  lemma {:induction false} NoAlnumNoCategories(labelText: string)
    requires forall i :: 0 <= i < |labelText| ==> !IsAsciiAlnum(labelText[i])
    ensures Tokenize(labelText) == []
  {
    RunsSkip(labelText, IsAsciiAlnum, |labelText|);
  }
}
