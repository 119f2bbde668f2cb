/** The pieces of Go's `strings`, `fmt` and `regexp` behaviour that the
    filtering pipeline relies on, over Dafny strings (sequences of Unicode
    scalar values). */
module Text {

  // ---------------------------------------------------------------------------
  // Byte length
  // ---------------------------------------------------------------------------

  /** Number of bytes in the UTF-8 encoding of one scalar value. */
  function Utf8Width(c: char): nat
  {
    if c as int < 0x80 then 1
    else if c as int < 0x800 then 2
    else if c as int < 0x1_0000 then 3
    else 4
  }

  predicate IsAscii(s: string)
  {
    forall i :: 0 <= i < |s| ==> s[i] as int < 0x80
  }

  /** Go's `len(s)` on a string: the length of its UTF-8 encoding in bytes. */
  function Utf8Length(s: string): (n: nat)
    ensures |s| <= n <= 4 * |s|
    ensures IsAscii(s) ==> n == |s|
  {
    if s == [] then 0 else Utf8Width(s[0]) + Utf8Length(s[1..])
  }

  // ---------------------------------------------------------------------------
  // Character classes
  // ---------------------------------------------------------------------------

  /** Go's `unicode.IsSpace`: the Latin-1 spaces plus the Unicode White_Space
      code points above U+00FF. */
  predicate IsSpace(c: char)
  {
    || c == ' ' || c == '\t' || c == '\n' || c == '\U{000B}' || c == '\U{000C}' || c == '\r'
    || c == '\U{0085}' || c == '\U{00A0}' || c == '\U{1680}'
    || ('\U{2000}' <= c <= '\U{200A}')
    || c == '\U{2028}' || c == '\U{2029}' || c == '\U{202F}' || c == '\U{205F}' || c == '\U{3000}'
  }

  predicate IsNotSpace(c: char)
  {
    !IsSpace(c)
  }

  /** `[0-9A-Za-z]`: the characters of RE2's `\w` other than `_`. */
  predicate IsAsciiAlnum(c: char)
  {
    ('0' <= c <= '9') || ('A' <= c <= 'Z') || ('a' <= c <= 'z')
  }

  /** RE2's `[\W_]`: anything that is not an ASCII letter or digit. */
  predicate IsNotAlnum(c: char)
  {
    !IsAsciiAlnum(c)
  }

  /** RE2's `\w`. */
  predicate IsWordChar(c: char)
  {
    IsAsciiAlnum(c) || c == '_'
  }

  // ---------------------------------------------------------------------------
  // Case folding and substring search
  // ---------------------------------------------------------------------------

  function LowerChar(c: char): char
  {
    if 'A' <= c <= 'Z' then (c as int + 32) as char else c
  }

  /** `strings.ToLower`, restricted to ASCII letters. */
  function Lower(s: string): (r: string)
    ensures |r| == |s|
    ensures forall i :: 0 <= i < |s| ==> r[i] == LowerChar(s[i])
    ensures forall i :: 0 <= i < |r| ==> !('A' <= r[i] <= 'Z')
    ensures forall i :: 0 <= i < |s| && !('A' <= s[i] <= 'Z') ==> r[i] == s[i]
    ensures forall i :: 0 <= i < |s| && 'A' <= s[i] <= 'Z' ==> r[i] != s[i] && 'a' <= r[i] <= 'z'
  {
    seq(|s|, i requires 0 <= i < |s| => LowerChar(s[i]))
  }

  /** `sub` occurs in `s` starting at index `i`. */
  ghost predicate OccursAt(s: string, sub: string, i: int)
  {
    0 <= i && i + |sub| <= |s| && s[i..i + |sub|] == sub
  }

  /** `strings.Contains`: the empty string is contained in every string. */
  function Contains(s: string, sub: string): (b: bool)
    ensures b <==> exists i :: OccursAt(s, sub, i)
    decreases |s|
  {
    if |sub| <= |s| && s[..|sub|] == sub then
      assert OccursAt(s, sub, 0);
      true
    else if |s| <= |sub| then
      assert forall i :: !OccursAt(s, sub, i);
      false
    else
      var b := Contains(s[1..], sub);
      assert forall i :: OccursAt(s[1..], sub, i) <==> OccursAt(s, sub, i + 1) by {
        forall i ensures OccursAt(s[1..], sub, i) <==> OccursAt(s, sub, i + 1) {
          if 0 <= i && i + |sub| <= |s| - 1 {
            assert s[1..][i..i + |sub|] == s[i + 1..i + 1 + |sub|];
          }
        }
      }
      assert !OccursAt(s, sub, 0);
      assert (exists i :: OccursAt(s, sub, i)) ==> exists i :: OccursAt(s[1..], sub, i) by {
        if exists i :: OccursAt(s, sub, i) {
          var i :| OccursAt(s, sub, i);
          assert OccursAt(s[1..], sub, i - 1);
        }
      }
      b
  }

  // ---------------------------------------------------------------------------
  // strings.Split on a one-character separator
  // ---------------------------------------------------------------------------

  /** Index of the first `sep` in `s`. */
  function IndexOf(s: string, sep: char): (i: nat)
    requires sep in s
    ensures i < |s| && s[i] == sep && sep !in s[..i]
  {
    if s[0] == sep then 0 else IndexOf(s[1..], sep) + 1
  }

  /** `strings.Split(s, [sep])`: the pieces between separators, including
      empty ones; an empty input yields one empty piece. */
  function SplitOn(s: string, sep: char): (parts: seq<string>)
    ensures |parts| >= 1
    ensures forall j :: 0 <= j < |parts| ==> sep !in parts[j]
    decreases |s|
  {
    if sep !in s then [s]
    else
      var i := IndexOf(s, sep);
      [s[..i]] + SplitOn(s[i + 1..], sep)
  }

  /** `strings.Join(parts, [sep])`. */
  function Join(parts: seq<string>, sep: char): string
    requires |parts| >= 1
  {
    if |parts| == 1 then parts[0] else parts[0] + [sep] + Join(parts[1..], sep)
  }

  /** Joining the pieces of a split with the same separator restores the input. */
  lemma {:induction false} SplitJoinRoundTrip(s: string, sep: char)
    ensures Join(SplitOn(s, sep), sep) == s
    decreases |s|
  {
    if sep in s {
      var i := IndexOf(s, sep);
      var rest := SplitOn(s[i + 1..], sep);
      SplitJoinRoundTrip(s[i + 1..], sep);
      assert SplitOn(s, sep) == [s[..i]] + rest;
      assert ([s[..i]] + rest)[1..] == rest;
      assert Join(SplitOn(s, sep), sep) == s[..i] + [sep] + Join(rest, sep);
      assert s == s[..i] + [sep] + s[i + 1..];
    }
  }

  // ---------------------------------------------------------------------------
  // Maximal runs (strings.Fields and the category tokeniser)
  // ---------------------------------------------------------------------------

  /** Length of the longest prefix of `s` whose characters all satisfy `keep`. */
  function RunLength(s: string, keep: char -> bool): (n: nat)
    ensures n <= |s|
    ensures forall i :: 0 <= i < n ==> keep(s[i])
    ensures n < |s| ==> !keep(s[n])
  {
    if s == [] || !keep(s[0]) then 0 else 1 + RunLength(s[1..], keep)
  }

  /** The strings of `rs` laid end to end. */
  function Concat(rs: seq<string>): string
  {
    if rs == [] then [] else rs[0] + Concat(rs[1..])
  }

  /** The characters of `s` that satisfy `keep`, in order. */
  function Kept(s: string, keep: char -> bool): string
  {
    if s == [] then [] else (if keep(s[0]) then [s[0]] else []) + Kept(s[1..], keep)
  }

  /** Number of positions of `s` where a run of kept characters begins: a kept
      character right after a rejected one, or at the start of `s` when the
      character before `s` (if any) was not kept, as `afterKept` says. */
  function RunStarts(s: string, keep: char -> bool, afterKept: bool): nat
  {
    if s == [] then 0
    else (if keep(s[0]) && !afterKept then 1 else 0) + RunStarts(s[1..], keep, keep(s[0]))
  }

  /** The maximal non-empty runs of characters satisfying `keep`, in order:
      laid end to end they give back exactly the kept characters of `s`, and
      there is one run per position where a run of kept characters begins. */
  function Runs(s: string, keep: char -> bool): (rs: seq<string>)
    ensures forall j :: 0 <= j < |rs| ==> |rs[j]| > 0
    ensures forall j, i :: 0 <= j < |rs| && 0 <= i < |rs[j]| ==> keep(rs[j][i])
    ensures Concat(rs) == Kept(s, keep)
    ensures |rs| == RunStarts(s, keep, false)
    decreases |s|
  {
    if s == [] then []
    else if !keep(s[0]) then Runs(s[1..], keep)
    else
      var n := RunLength(s, keep);
      KeptPrefix(s, keep, n);
      RunStartsInsideRun(s[1..], keep, n - 1);
      assert s[1..][n - 1..] == s[n..];
      var rest := Runs(s[n..], keep);
      assert ([s[..n]] + rest)[1..] == rest;
      [s[..n]] + rest
  }

  /** A prefix of kept characters is kept whole. */
  lemma {:induction false} KeptPrefix(s: string, keep: char -> bool, n: nat)
    requires n <= |s|
    requires forall i :: 0 <= i < n ==> keep(s[i])
    ensures Kept(s, keep) == s[..n] + Kept(s[n..], keep)
    decreases n
  {
    if n > 0 {
      KeptPrefix(s[1..], keep, n - 1);
      assert s[1..][n - 1..] == s[n..];
      assert s[..n] == [s[0]] + s[1..][..n - 1];
    }
  }

  /** A prefix of rejected characters contributes nothing to the kept ones. */
  lemma {:induction false} KeptSkip(s: string, keep: char -> bool, m: nat)
    requires m <= |s|
    requires forall i :: 0 <= i < m ==> !keep(s[i])
    ensures Kept(s, keep) == Kept(s[m..], keep)
    decreases m
  {
    if m > 0 {
      KeptSkip(s[1..], keep, m - 1);
      assert s[1..][m - 1..] == s[m..];
    }
  }

  /** Inside a run no new run begins. */
  lemma {:induction false} RunStartsInsideRun(s: string, keep: char -> bool, n: nat)
    requires n <= |s|
    requires forall i :: 0 <= i < n ==> keep(s[i])
    ensures RunStarts(s, keep, true) == RunStarts(s[n..], keep, true)
    decreases n
  {
    if n > 0 {
      RunStartsInsideRun(s[1..], keep, n - 1);
      assert s[1..][n - 1..] == s[n..];
    }
  }

  /** `gaps[0] + rs[0] + gaps[1] + … + rs[|rs| - 1] + gaps[|rs|]`. */
  function Interleave(gaps: seq<string>, rs: seq<string>): string
    requires |gaps| == |rs| + 1
    decreases |rs|
  {
    if rs == [] then gaps[0] else gaps[0] + rs[0] + Interleave(gaps[1..], rs[1..])
  }

  /** `s` is the pieces `rs` separated by the gaps `gaps`: every gap character
      is rejected, and every gap between two pieces is non-empty (the first
      and the last gap may be empty). */
  ghost predicate Separates(s: string, keep: char -> bool, gaps: seq<string>, rs: seq<string>)
  {
    && |gaps| == |rs| + 1
    && (forall k, i :: 0 <= k < |gaps| && 0 <= i < |gaps[k]| ==> !keep(gaps[k][i]))
    && (forall k :: 0 < k < |rs| ==> |gaps[k]| > 0)
    && s == Interleave(gaps, rs)
  }

  /** The runs split `s`: `s` is the runs separated by non-empty gaps of
      rejected characters (possibly empty at either end). Since the runs
      are non-empty and kept, each run is maximal. */
  lemma RunsAreMaximal(s: string, keep: char -> bool)
    ensures exists gaps :: Separates(s, keep, gaps, Runs(s, keep))
  {
    var gaps := RunGaps(s, keep);
  }

  /** The gaps between the runs of `s`. */
  lemma {:induction false} RunGaps(s: string, keep: char -> bool) returns (gaps: seq<string>)
    ensures Separates(s, keep, gaps, Runs(s, keep))
    decreases |s|
  {
    if s == [] {
      gaps := [[]];
    } else if !keep(s[0]) {
      var g := RunGaps(s[1..], keep);
      gaps := SeparatesCons(s[1..], keep, g, Runs(s[1..], keep), s[0]);
      assert [s[0]] + s[1..] == s;
    } else {
      var n := RunLength(s, keep);
      var g := RunGaps(s[n..], keep);
      gaps := SeparatesRun(s[n..], keep, g, Runs(s[n..], keep), s[..n]);
      assert s[..n] + s[n..] == s;
    }
  }

  /** A rejected character in front joins the first gap. */
  lemma SeparatesCons(t: string, keep: char -> bool, g: seq<string>, rs: seq<string>, c: char) returns (gaps: seq<string>)
    requires Separates(t, keep, g, rs) && !keep(c)
    ensures Separates([c] + t, keep, gaps, rs)
  {
    gaps := [[c] + g[0]] + g[1..];
    assert gaps[1..] == g[1..];
    if rs != [] {
      assert t == g[0] + rs[0] + Interleave(g[1..], rs[1..]);
    }
  }

  /** A kept piece in front of a string that starts with a rejected
      character, if at all, becomes a new first piece after an empty gap. */
  lemma SeparatesRun(t: string, keep: char -> bool, g: seq<string>, rs: seq<string>, x: string) returns (gaps: seq<string>)
    requires Separates(t, keep, g, rs)
    requires forall j :: 0 <= j < |rs| ==> |rs[j]| > 0 && keep(rs[j][0])
    requires |x| > 0 && forall i :: 0 <= i < |x| ==> keep(x[i])
    requires |t| > 0 ==> !keep(t[0])
    ensures Separates(x + t, keep, gaps, [x] + rs)
  {
    gaps := [[]] + g;
    var rs' := [x] + rs;
    assert rs'[1..] == rs && gaps[1..] == g;
    if rs != [] {
      assert t == g[0] + rs[0] + Interleave(g[1..], rs[1..]);
      assert t[|g[0]|] == rs[0][0];
      assert |g[0]| > 0;
    }
  }

  /** Conversely, pieces that are non-empty, kept, and separated by gaps of
      rejected characters are exactly the runs: Runs is characterised by
      that split. */
  lemma {:induction false} RunsUnique(s: string, keep: char -> bool, gaps: seq<string>, rs: seq<string>)
    requires Separates(s, keep, gaps, rs)
    requires forall j :: 0 <= j < |rs| ==> |rs[j]| > 0
    requires forall j, i :: 0 <= j < |rs| && 0 <= i < |rs[j]| ==> keep(rs[j][i])
    ensures rs == Runs(s, keep)
    decreases |rs|
  {
    SkipFirstGap(s, keep, gaps, rs);
    if rs != [] {
      var tail := SeparatesTail(s, keep, gaps, rs);
      RunsUnique(tail, keep, gaps[1..], rs[1..]);
      RunsOfPieceThenTail(rs[0], tail, keep);
    }
  }

  /** The first gap contributes no run. */
  lemma SkipFirstGap(s: string, keep: char -> bool, gaps: seq<string>, rs: seq<string>)
    requires Separates(s, keep, gaps, rs)
    ensures Runs(s, keep) == Runs(s[|gaps[0]|..], keep)
    ensures rs == [] ==> s[|gaps[0]|..] == []
    ensures rs != [] ==> s[|gaps[0]|..] == rs[0] + Interleave(gaps[1..], rs[1..])
  {
    var g0 := gaps[0];
    if rs != [] {
      assert s == g0 + (rs[0] + Interleave(gaps[1..], rs[1..]));
    }
    assert s[..|g0|] == g0;
    RunsSkip(s, keep, |g0|);
  }

  /** A kept piece followed by a string that starts with a rejected
      character, if at all, is the first run. */
  lemma RunsOfPieceThenTail(x: string, tail: string, keep: char -> bool)
    requires |x| > 0 && forall i :: 0 <= i < |x| ==> keep(x[i])
    requires |tail| > 0 ==> !keep(tail[0])
    ensures Runs(x + tail, keep) == [x] + Runs(tail, keep)
  {
    var t := x + tail;
    RunLengthIs(t, keep, |x|);
    assert t[..|x|] == x && t[|x|..] == tail;
  }

  /** After the first gap and the first piece comes a string separated by
      the remaining gaps, and it starts with a rejected character if at all. */
  lemma SeparatesTail(s: string, keep: char -> bool, gaps: seq<string>, rs: seq<string>) returns (tail: string)
    requires Separates(s, keep, gaps, rs) && rs != []
    ensures tail == Interleave(gaps[1..], rs[1..])
    ensures s == gaps[0] + rs[0] + tail
    ensures Separates(tail, keep, gaps[1..], rs[1..])
    ensures |tail| > 0 ==> !keep(tail[0])
  {
    tail := Interleave(gaps[1..], rs[1..]);
    if rs[1..] != [] {
      assert tail == gaps[1] + rs[1] + Interleave(gaps[2..], rs[2..]);
      assert tail[0] == gaps[1][0];
    }
  }

  /** `strings.Fields` splits `s` at white space: `s` is the fields separated
      by non-empty runs of white space, with white space possibly at either
      end. */
  lemma FieldsSplitAtWhiteSpace(s: string)
    ensures exists gaps :: Separates(s, IsNotSpace, gaps, Fields(s))
  {
    RunsAreMaximal(s, IsNotSpace);
    assert Fields(s) == Runs(s, IsNotSpace);
  }

  /** `strings.Fields`: the maximal runs of non-space characters. The fields
      hold no white space, laid end to end they are the non-space characters
      of `s`, and there is one field per word start. */
  function Fields(s: string): (fs: seq<string>)
    ensures forall j, i :: 0 <= j < |fs| && 0 <= i < |fs[j]| ==> !IsSpace(fs[j][i])
    ensures Concat(fs) == Kept(s, IsNotSpace)
    ensures |fs| == RunStarts(s, IsNotSpace, false)
  {
    Runs(s, IsNotSpace)
  }

  /** A run length is determined by where the kept prefix ends. */
  lemma {:induction false} RunLengthIs(s: string, keep: char -> bool, n: nat)
    requires n <= |s|
    requires forall i :: 0 <= i < n ==> keep(s[i])
    requires n < |s| ==> !keep(s[n])
    ensures RunLength(s, keep) == n
    decreases n
  {
    if n > 0 {
      RunLengthIs(s[1..], keep, n - 1);
    }
  }

  /** A prefix of rejected characters contributes no run. */
  lemma {:induction false} RunsSkip(s: string, keep: char -> bool, m: nat)
    requires m <= |s|
    requires forall i :: 0 <= i < m ==> !keep(s[i])
    ensures Runs(s, keep) == Runs(s[m..], keep)
    decreases m
  {
    if m > 0 {
      RunsSkip(s[1..], keep, m - 1);
      assert s[1..][m - 1..] == s[m..];
    }
  }

  // ---------------------------------------------------------------------------
  // fmt.Sprintf("%d")
  // ---------------------------------------------------------------------------

  function DigitChar(d: nat): char
    requires d < 10
  {
    ('0' as int + d) as char
  }

  function DigitValue(c: char): nat
    requires '0' <= c <= '9'
  {
    c as int - '0' as int
  }

  predicate IsDigits(s: string)
  {
    forall i :: 0 <= i < |s| ==> '0' <= s[i] <= '9'
  }

  /** Decimal rendering of a natural number, most significant digit first. */
  function NatToDecimal(n: nat): (r: string)
    ensures |r| >= 1 && IsDigits(r)
  {
    if n < 10 then [DigitChar(n)] else NatToDecimal(n / 10) + [DigitChar(n % 10)]
  }

  /** `fmt.Sprintf("%d", n)`. */
  function IntToDecimal(n: int): (r: string)
    ensures |r| >= 1
  {
    if n < 0 then "-" + NatToDecimal(-n) else NatToDecimal(n)
  }

  /** The number a string of decimal digits denotes. */
  function DecimalValue(s: string): nat
    requires IsDigits(s)
  {
    if s == [] then 0 else 10 * DecimalValue(s[..|s| - 1]) + DigitValue(s[|s| - 1])
  }

  /** Reading back a rendered natural number yields the number. */
  lemma {:induction false} NatToDecimalRoundTrip(n: nat)
    ensures DecimalValue(NatToDecimal(n)) == n
  {
    if n >= 10 {
      NatToDecimalRoundTrip(n / 10);
      var r := NatToDecimal(n);
      assert r[..|r| - 1] == NatToDecimal(n / 10);
    }
  }

  /** A rendered integer starts with '-' exactly when it is negative, and the
      digits follow. */
  lemma IntToDecimalSign(n: int)
    ensures IntToDecimal(n)[0] == '-' <==> n < 0
    ensures n < 0 ==> IntToDecimal(n)[1..] == NatToDecimal(-n)
    ensures n >= 0 ==> IntToDecimal(n) == NatToDecimal(n)
  {
    if n >= 0 {
      assert '0' <= NatToDecimal(n)[0] <= '9';
    }
  }

  lemma NatToDecimalInjective(x: nat, y: nat)
    requires NatToDecimal(x) == NatToDecimal(y)
    ensures x == y
  {
    NatToDecimalRoundTrip(x);
    NatToDecimalRoundTrip(y);
  }

  /** `%d` renders distinct integers as distinct strings. */
  lemma IntToDecimalInjective(a: int, b: int)
    requires IntToDecimal(a) == IntToDecimal(b)
    ensures a == b
  {
    var r := IntToDecimal(a);
    IntToDecimalSign(a);
    IntToDecimalSign(b);
    if a < 0 {
      assert b < 0;
      assert NatToDecimal(-a) == r[1..] == NatToDecimal(-b);
      NatToDecimalInjective(-a, -b);
    } else {
      assert b >= 0;
      NatToDecimalInjective(a, b);
    }
  }
}
