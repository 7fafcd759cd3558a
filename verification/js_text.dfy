/**
 * The three JavaScript string operations the recipient-list parser is built
 * from: `String.prototype.trim`, `split('\n')` and `split(/[\s,]+/)`.
 */
module JsText {

  import opened Seqs

  /** ECMAScript WhiteSpace and LineTerminator code points: what `trim()` strips and `\s` matches. */
  predicate IsSpace(c: char) {
    || c == '\t' || c == '\n' || c == '\U{000B}' || c == '\U{000C}' || c == '\r' || c == ' '
    || c == '\U{00A0}' || c == '\U{1680}' || ('\U{2000}' <= c <= '\U{200A}')
    || c == '\U{2028}' || c == '\U{2029}' || c == '\U{202F}' || c == '\U{205F}'
    || c == '\U{3000}' || c == '\U{FEFF}'
  }

  /** A character of the class `[\s,]`. */
  predicate IsSep(c: char) {
    IsSpace(c) || c == ','
  }

  predicate AllSpace(s: string) {
    forall i :: 0 <= i < |s| ==> IsSpace(s[i])
  }

  predicate NoSep(s: string) {
    forall i :: 0 <= i < |s| ==> !IsSep(s[i])
  }

  /** True when `s` has no whitespace at either end, as `trim()` leaves it. */
  predicate IsTrimmed(s: string) {
    s == [] || (!IsSpace(s[0]) && !IsSpace(s[|s| - 1]))
  }

  // ---------------------------------------------------------------- trim()

  /** Number of leading whitespace characters. */
  function LeadingSpace(s: string): (n: nat)
    ensures n <= |s|
    ensures AllSpace(s[..n])
    ensures n < |s| ==> !IsSpace(s[n])
  {
    if |s| > 0 && IsSpace(s[0]) then
      var n := 1 + LeadingSpace(s[1..]);
      assert s[..n] == [s[0]] + s[1..][..n - 1];
      n
    else 0
  }

  /** Length of `s` once its trailing whitespace is dropped. */
  function WithoutTrailingSpace(s: string): (n: nat)
    ensures n <= |s|
    ensures AllSpace(s[n..])
    ensures n > 0 ==> !IsSpace(s[n - 1])
  {
    if |s| > 0 && IsSpace(s[|s| - 1]) then
      var n := WithoutTrailingSpace(s[..|s| - 1]);
      assert s[n..] == s[..|s| - 1][n..] + [s[|s| - 1]];
      n
    else |s|
  }

  /** `String.prototype.trim`: the infix left once whitespace is removed from both ends. */
  function Trim(s: string): (r: string)
    ensures IsTrimmed(r)
    ensures r == [] <==> AllSpace(s)
    ensures exists k :: 0 <= k <= |s| - |r| && r == s[k..k + |r|] && AllSpace(s[..k]) && AllSpace(s[k + |r|..])
  {
    var lo := LeadingSpace(s);
    var hi := WithoutTrailingSpace(s[lo..]);
    TrimBounds(s, lo, hi);
    s[lo..][..hi]
  }

  lemma TrimBounds(s: string, lo: nat, hi: nat)
    requires lo == LeadingSpace(s) && hi == WithoutTrailingSpace(s[lo..])
    ensures s[lo..][..hi] == s[lo..lo + hi]
    ensures AllSpace(s[lo + hi..])
    ensures s[lo..][..hi] == [] <==> AllSpace(s)
  {
    var rest := s[lo..];
    assert s[lo + hi..] == rest[hi..];
    if hi == 0 {
      assert rest[hi..] == rest;
      forall i | 0 <= i < |s|
        ensures IsSpace(s[i])
      {
        if i < lo {
          assert s[..lo][i] == s[i];
        }
      }
    }
    if AllSpace(s) {
      assert lo == |s|;
    }
  }

  // ---------------------------------------------------------------- split('\n')

  /** Index of the first `c` in `s`, or `|s|` when there is none. */
  function IndexOf(s: string, c: char): (i: nat)
    ensures i <= |s|
    ensures forall j :: 0 <= j < i ==> s[j] != c
    ensures i < |s| ==> s[i] == c
  {
    if |s| == 0 || s[0] == c then 0 else 1 + IndexOf(s[1..], c)
  }

  /** `s.split(sep)` for a one-character separator: every piece, empty ones included. */
  function SplitOn(s: string, sep: char): (r: seq<string>)
    ensures |r| >= 1
    ensures forall k :: 0 <= k < |r| ==> sep !in r[k]
    decreases |s|
  {
    var i := IndexOf(s, sep);
    if i == |s| then
      assert s[..i] == s;
      [s]
    else
      var rest := SplitOn(s[i + 1..], sep);
      assert forall k :: 1 <= k < 1 + |rest| ==> ([s[..i]] + rest)[k] == rest[k - 1];
      [s[..i]] + rest
  }

  /** `parts.join(sep)`: the inverse of `SplitOn`. */
  function Join(parts: seq<string>, sep: char): string
    requires |parts| >= 1
  {
    if |parts| == 1 then parts[0] else parts[0] + [sep] + Join(parts[1..], sep)
  }

  /** Splitting on a character and joining again on it gives back the original text. */
  lemma {:induction false} JoinSplitOn(s: string, sep: char)
    ensures Join(SplitOn(s, sep), sep) == s
    decreases |s|
  {
    var i := IndexOf(s, sep);
    if i < |s| {
      SplitOnCons(s, sep);
      JoinSplitOn(s[i + 1..], sep);
      JoinCons(s[..i], SplitOn(s[i + 1..], sep), sep);
      AroundSep(s, i);
    }
  }

  /** One step of the split: the text up to the first separator, then the split of the rest. */
  lemma SplitOnCons(s: string, sep: char)
    requires IndexOf(s, sep) < |s|
    ensures SplitOn(s, sep) == [s[..IndexOf(s, sep)]] + SplitOn(s[IndexOf(s, sep) + 1..], sep)
  {
  }

  /** One step of the join: the first piece, the separator, then the join of the rest. */
  lemma JoinCons(h: string, rest: seq<string>, sep: char)
    requires |rest| >= 1
    ensures Join([h] + rest, sep) == h + [sep] + Join(rest, sep)
  {
    assert ([h] + rest)[1..] == rest;
  }

  /** A text is its prefix before position `i`, the character at `i`, and the rest. */
  lemma AroundSep(s: string, i: nat)
    requires i < |s|
    ensures s == s[..i] + [s[i]] + s[i + 1..]
  {
  }

  /** Each non-blank line of `text`, trimmed, in order: `text.split('\n').map(trim).filter(l => l)`. */
  function Lines(text: string): (r: seq<string>)
    ensures forall k :: 0 <= k < |r| ==> r[k] != [] && IsTrimmed(r[k])
  {
    NonBlank(SplitOn(text, '\n'))
  }

  /** `parts.map(trim)`. */
  function Trims(parts: seq<string>): (r: seq<string>)
    ensures |r| == |parts| && forall k :: 0 <= k < |parts| ==> r[k] == Trim(parts[k])
  {
    seq(|parts|, k requires 0 <= k < |parts| => Trim(parts[k]))
  }

  /** The truthiness test of `filter(l => l)` on strings. */
  function NonEmpty(t: string): bool {
    t != []
  }

  /** The trimmed, non-empty pieces among `parts`, in order. */
  function NonBlank(parts: seq<string>): (r: seq<string>)
    ensures |r| <= |parts|
    ensures forall k :: 0 <= k < |r| ==> r[k] != [] && IsTrimmed(r[k])
  {
    var r := Filter(Trims(parts), NonEmpty);
    assert forall k :: 0 <= k < |r| ==> exists j :: 0 <= j < |parts| && r[k] == Trims(parts)[j];
    r
  }

  /** A trimmed piece is kept exactly when it is the trim of some non-blank piece. */
  lemma NonBlankMembers(parts: seq<string>, t: string)
    ensures t in NonBlank(parts) <==> t != [] && exists k :: 0 <= k < |parts| && t == Trim(parts[k])
  {
    FilterMembers(Trims(parts), NonEmpty, t);
    if exists k :: 0 <= k < |parts| && t == Trim(parts[k]) {
      var k :| 0 <= k < |parts| && t == Trim(parts[k]);
      assert Trims(parts)[k] == t;
    }
  }

  /**
   * The kept lines are the non-blank trimmed pieces at increasing positions,
   * every non-blank piece among them: input order is kept and nothing is merged.
   */
  lemma NonBlankInOrder(parts: seq<string>)
    ensures exists idx :: Picks(idx, Trims(parts), NonEmpty, NonBlank(parts))
  {
    FilterPicks(Trims(parts), NonEmpty);
    var idx :| Picks(idx, Trims(parts), NonEmpty, Filter(Trims(parts), NonEmpty));
    assert NonBlank(parts) == Filter(Trims(parts), NonEmpty);
  }

  // ---------------------------------------------------------------- split(/[\s,]+/)

  /** Index of the first `[\s,]` character, or `|s|`. */
  function FirstSep(s: string): (i: nat)
    ensures i <= |s|
    ensures NoSep(s[..i])
    ensures i < |s| ==> IsSep(s[i])
  {
    if |s| == 0 || IsSep(s[0]) then 0
    else
      var i := 1 + FirstSep(s[1..]);
      assert s[..i] == [s[0]] + s[1..][..i - 1];
      i
  }

  /** End of the maximal run of `[\s,]` characters that starts at `i`. */
  function SepRunEnd(s: string, i: nat): (j: nat)
    requires i <= |s|
    ensures i <= j <= |s|
    ensures forall k :: i <= k < j ==> IsSep(s[k])
    ensures j < |s| ==> !IsSep(s[j])
    decreases |s| - i
  {
    if i < |s| && IsSep(s[i]) then SepRunEnd(s, i + 1) else i
  }

  /**
   * `s.split(/[\s,]+/)`: the pieces between maximal runs of whitespace and
   * commas, keeping the empty piece before a leading run and after a trailing one.
   */
  function Fields(s: string): (r: seq<string>)
    ensures |r| >= 1
    ensures r[0] == s[..FirstSep(s)]
    decreases |s|
  {
    var i := FirstSep(s);
    if i == |s| then [s]
    else [s[..i]] + Fields(s[SepRunEnd(s, i + 1)..])
  }

  /** The separator runs `split(/[\s,]+/)` consumes, in order. */
  function Seps(s: string): seq<string>
    decreases |s|
  {
    var i := FirstSep(s);
    if i == |s| then []
    else
      var j := SepRunEnd(s, i + 1);
      [s[i..j]] + Seps(s[j..])
  }

  /** A non-empty string of `[\s,]` characters. */
  predicate SepRun(t: string) {
    t != [] && forall k :: 0 <= k < |t| ==> IsSep(t[k])
  }

  /** `fs[0] + ss[0] + fs[1] + ss[1] + … + fs[n]`. */
  function Interleave(fs: seq<string>, ss: seq<string>): string
    requires |fs| == |ss| + 1
  {
    if ss == [] then fs[0] else fs[0] + ss[0] + Interleave(fs[1..], ss[1..])
  }

  /** There is one separator run fewer than there are fields. */
  lemma {:induction false} SepsCount(s: string)
    ensures |Seps(s)| == |Fields(s)| - 1
    decreases |s|
  {
    if FirstSep(s) < |s| {
      FieldsUnfold(s);
      SepsUnfold(s);
      SepsCount(s[SepRunEnd(s, FirstSep(s) + 1)..]);
    }
  }

  /** Every separator run is non-empty and made only of `[\s,]` characters. */
  lemma {:induction false} SepsAreRuns(s: string)
    ensures forall k :: 0 <= k < |Seps(s)| ==> SepRun(Seps(s)[k])
    decreases |s|
  {
    var i := FirstSep(s);
    if i < |s| {
      var j := SepRunEnd(s, i + 1);
      SepsUnfold(s);
      SepsAreRuns(s[j..]);
      RunSlice(s, i);
      RunsCons(s[i..j], Seps(s[j..]));
    }
  }

  /**
   * The fields, with the separator runs put back between them, rebuild the
   * string. With `SepsAreRuns` and `FieldsNoSep` this pins down every field.
   */
  lemma {:induction false} FieldsRoundTrip(s: string)
    ensures |Seps(s)| == |Fields(s)| - 1
    ensures Interleave(Fields(s), Seps(s)) == s
    decreases |s|
  {
    SepsCount(s);
    var i := FirstSep(s);
    if i == |s| {
      assert s[..i] == s;
    } else {
      var j := SepRunEnd(s, i + 1);
      var rest := s[j..];
      FieldsRoundTrip(rest);
      FieldsUnfold(s);
      SepsUnfold(s);
      InterleaveCons(s[..i], s[i..j], Fields(rest), Seps(rest));
      ThreeSlices(s, i, j);
    }
  }

  lemma ThreeSlices(s: string, i: nat, j: nat)
    requires i <= j <= |s|
    ensures s[..i] + s[i..j] + s[j..] == s
  {
    assert s[..i] + s[i..j] == s[..j];
  }

  lemma SepsUnfold(s: string)
    requires FirstSep(s) < |s|
    ensures Seps(s) == [s[FirstSep(s)..SepRunEnd(s, FirstSep(s) + 1)]] + Seps(s[SepRunEnd(s, FirstSep(s) + 1)..])
  {
  }

  /** The separator `s[i]` and the run after it form one run. */
  lemma RunSlice(s: string, i: nat)
    requires i < |s| && IsSep(s[i])
    ensures SepRun(s[i..SepRunEnd(s, i + 1)])
  {
    var t := s[i..SepRunEnd(s, i + 1)];
    forall k | 0 <= k < |t|
      ensures IsSep(t[k])
    {
      assert t[k] == s[i + k];
    }
  }

  lemma InterleaveCons(f: string, t: string, fs: seq<string>, ss: seq<string>)
    requires |fs| == |ss| + 1
    ensures Interleave([f] + fs, [t] + ss) == f + t + Interleave(fs, ss)
  {
    assert ([f] + fs)[1..] == fs && ([t] + ss)[1..] == ss;
  }

  lemma RunsCons(t: string, ss: seq<string>)
    requires SepRun(t) && forall k :: 0 <= k < |ss| ==> SepRun(ss[k])
    ensures forall k :: 0 <= k < |[t] + ss| ==> SepRun(([t] + ss)[k])
  {
    forall k | 0 < k < |[t] + ss|
      ensures ([t] + ss)[k] == ss[k - 1]
    {
    }
  }

  /** No field contains a separator. */
  lemma {:induction false} FieldsNoSep(s: string, k: nat)
    requires k < |Fields(s)|
    ensures NoSep(Fields(s)[k])
    decreases |s|
  {
    if FirstSep(s) == |s| {
      FieldsWhole(s);
    } else if k > 0 {
      FieldsTail(s, k);
      FieldsNoSep(s[SepRunEnd(s, FirstSep(s) + 1)..], k - 1);
    }
  }

  /** A string without separators is its own single field. */
  lemma FieldsWhole(s: string)
    requires FirstSep(s) == |s|
    ensures Fields(s) == [s] && NoSep(s)
  {
    assert s[..|s|] == s;
  }

  /** Field `k > 0` of `s` is field `k - 1` of what follows the first separator run. */
  lemma FieldsTail(s: string, k: nat)
    requires FirstSep(s) < |s| && 0 < k < |Fields(s)|
    ensures var rest := s[SepRunEnd(s, FirstSep(s) + 1)..];
            k - 1 < |Fields(rest)| && Fields(s)[k] == Fields(rest)[k - 1]
  {
    FieldsUnfold(s);
  }

  /** Runs are maximal, so only the first and the last field can be empty. */
  lemma {:induction false} FieldsInnerNonEmpty(s: string)
    ensures forall k :: 0 < k < |Fields(s)| - 1 ==> Fields(s)[k] != []
    decreases |s|
  {
    var i := FirstSep(s);
    if i < |s| {
      var j := SepRunEnd(s, i + 1);
      var rest := s[j..];
      FieldsInnerNonEmpty(rest);
      var f := Fields(s);
      assert f == [s[..i]] + Fields(rest);
      forall k | 0 < k < |f| - 1
        ensures f[k] != []
      {
        assert f[k] == Fields(rest)[k - 1];
        if k == 1 {
          assert !IsSep(rest[0]);
          assert FirstSep(rest) > 0;
        }
      }
    }
  }

  /** The characters of `s` that are not `[\s,]`, in order. */
  function Unseparated(s: string): string {
    if s == [] then [] else (if IsSep(s[0]) then [] else [s[0]]) + Unseparated(s[1..])
  }

  /** Concatenation of a sequence of strings. */
  function Concat(parts: seq<string>): string {
    if parts == [] then [] else parts[0] + Concat(parts[1..])
  }

  lemma {:induction false} UnseparatedNoSep(a: string)
    requires NoSep(a)
    ensures Unseparated(a) == a
  {
    if a != [] {
      UnseparatedNoSep(a[1..]);
    }
  }

  /**
   * The fields together hold exactly the non-separator characters of `s`,
   * in order: nothing is lost or reordered by the split.
   */
  lemma {:induction false} FieldsConcat(s: string)
    ensures Concat(Fields(s)) == Unseparated(s)
    decreases |s|
  {
    var i := FirstSep(s);
    if i == |s| {
      assert s[..i] == s;
      UnseparatedNoSep(s);
    } else {
      var j := SepRunEnd(s, i + 1);
      var rest := Fields(s[j..]);
      FieldsUnfold(s);
      ConcatCons(s[..i], rest);
      FieldsConcat(s[j..]);
      SplitAtRun(s, i, j);
    }
  }

  lemma FieldsUnfold(s: string)
    requires FirstSep(s) < |s|
    ensures Fields(s) == [s[..FirstSep(s)]] + Fields(s[SepRunEnd(s, FirstSep(s) + 1)..])
  {
  }

  lemma ConcatCons(a: string, rest: seq<string>)
    ensures Concat([a] + rest) == a + Concat(rest)
  {
    assert ([a] + rest)[1..] == rest;
  }

  /** A separator-free prefix survives whole, and the run of separators after it vanishes. */
  lemma {:induction false} SplitAtRun(s: string, i: nat, j: nat)
    requires i < j <= |s|
    requires NoSep(s[..i])
    requires forall k :: i <= k < j ==> IsSep(s[k])
    ensures Unseparated(s) == s[..i] + Unseparated(s[j..])
  {
    if i == 0 {
      SkipRun(s, j);
    } else {
      assert !IsSep(s[..i][0]);
      assert s[1..][..i - 1] == s[1..i] && s[1..][j - 1..] == s[j..];
      SplitAtRun(s[1..], i - 1, j - 1);
      assert [s[0]] + s[1..i] == s[..i];
    }
  }

  lemma {:induction false} SkipRun(s: string, j: nat)
    requires j <= |s|
    requires forall k :: 0 <= k < j ==> IsSep(s[k])
    ensures Unseparated(s) == Unseparated(s[j..])
  {
    if j > 0 {
      assert s[1..][j - 1..] == s[j..];
      SkipRun(s[1..], j - 1);
    }
  }

  /** A string splits into two or more fields exactly when it contains a separator. */
  lemma {:induction false} FieldsCount(s: string)
    ensures |Fields(s)| >= 2 <==> exists k :: 0 <= k < |s| && IsSep(s[k])
  {
    var i := FirstSep(s);
    if i == |s| {
      assert s[..i] == s;
      assert forall k :: 0 <= k < |s| ==> !IsSep(s[k]);
    }
  }
}
