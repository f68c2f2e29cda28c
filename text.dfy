/**
 * String primitives used by the job-search library: ASCII lower-casing,
 * substring containment (`String.prototype.includes`), splitting on the
 * regular expression `/\W+/`, `trim`, `join` and decimal rendering.
 */
module Text {

  /** `\w` in a JavaScript regular expression without the `u` flag. */
  predicate IsWordChar(c: char) {
    ('a' <= c <= 'z') || ('A' <= c <= 'Z') || ('0' <= c <= '9') || c == '_'
  }

  /** `toLowerCase` restricted to ASCII letters. */
  function LowerChar(c: char): (r: char)
    ensures 'A' <= c <= 'Z' ==> 'a' <= r <= 'z' && r as int == c as int + 32
    ensures !('A' <= c <= 'Z') ==> r == c
  {
    if 'A' <= c <= 'Z' then (c as int + 32) as char else c
  }

  function Lower(s: string): (r: string)
    ensures |r| == |s| && forall i :: 0 <= i < |s| ==> r[i] == LowerChar(s[i])
  {
    seq(|s|, i requires 0 <= i < |s| => LowerChar(s[i]))
  }

  lemma LowerIdempotent(s: string)
    ensures Lower(Lower(s)) == Lower(s)
  {
  }

  predicate StartsWith(s: string, prefix: string) {
    |prefix| <= |s| && s[..|prefix|] == prefix
  }

  /** `hay.includes(needle)`. */
  predicate Contains(hay: string, needle: string)
    decreases |hay|
  {
    StartsWith(hay, needle) || (|hay| > 0 && Contains(hay[1..], needle))
  }

  lemma ContainsEmpty(hay: string)
    ensures Contains(hay, "")
  {
    assert hay[..0] == "";
  }

  /** `needle` occurs in `hay` at offset `k`. */
  predicate OccursAt(hay: string, needle: string, k: int) {
    0 <= k <= |hay| - |needle| && hay[k..k + |needle|] == needle
  }

  /** Containment is exactly the existence of an occurrence at some offset. */
  lemma {:induction false} ContainsAt(hay: string, needle: string)
    ensures Contains(hay, needle) <==> exists k :: OccursAt(hay, needle, k)
  {
    if StartsWith(hay, needle) {
      assert OccursAt(hay, needle, 0);
    }
    if |hay| > 0 {
      ContainsAt(hay[1..], needle);
      if Contains(hay[1..], needle) {
        var k :| OccursAt(hay[1..], needle, k);
        assert hay[k + 1..k + 1 + |needle|] == hay[1..][k..k + |needle|];
        assert OccursAt(hay, needle, k + 1);
      }
      if exists k :: OccursAt(hay, needle, k) {
        var k :| OccursAt(hay, needle, k);
        if k > 0 {
          assert hay[1..][k - 1..k - 1 + |needle|] == hay[k..k + |needle|];
          assert OccursAt(hay[1..], needle, k - 1);
        } else {
          assert StartsWith(hay, needle);
        }
      }
    } else {
      if exists k :: OccursAt(hay, needle, k) {
        var k :| OccursAt(hay, needle, k);
        assert StartsWith(hay, needle);
      }
    }
  }

  /** The first position at or after `from` that holds a word character, or `|s|`. */
  function SeparatorsEnd(s: string, from: nat): (r: nat)
    requires from <= |s|
    ensures from <= r <= |s| && (r == |s| || IsWordChar(s[r]))
    ensures forall i :: from <= i < r ==> !IsWordChar(s[i])
    decreases |s| - from
  {
    if from == |s| || IsWordChar(s[from]) then from else SeparatorsEnd(s, from + 1)
  }

  /** Drops the leading run of non-word characters. */
  function SkipSeparators(s: string): (r: string)
    ensures |r| <= |s| && r == s[|s| - |r|..]
    ensures r == [] || IsWordChar(r[0])
    ensures forall i :: 0 <= i < |s| - |r| ==> !IsWordChar(s[i])
    ensures s != [] && !IsWordChar(s[0]) ==> |r| < |s|
  {
    s[SeparatorsEnd(s, 0)..]
  }

  /**
   * `s.split(/\W+/)`: the maximal runs of word characters between
   * separator runs, with an empty piece before a leading separator run,
   * after a trailing one, and for the empty string.
   */
  function Split(s: string): (r: seq<string>)
    ensures |r| >= 1
    decreases |s|
  {
    if s == [] then [""]
    else if IsWordChar(s[0]) then
      var rest := Split(s[1..]);
      [[s[0]] + rest[0]] + rest[1..]
    else
      [""] + Split(SkipSeparators(s))
  }

  /** The first piece is empty exactly when the text is empty or opens with a separator. */
  lemma {:induction false} SplitFirstEmpty(s: string)
    ensures Split(s)[0] == "" <==> s == [] || !IsWordChar(s[0])
  {
  }

  /** A later piece is empty exactly when the text closes with a separator. */
  lemma {:induction false} SplitLaterEmpty(s: string)
    ensures "" in Split(s)[1..] <==> s != [] && !IsWordChar(s[|s| - 1])
    decreases |s|, 1
  {
    if s != [] {
      if IsWordChar(s[0]) {
        SplitLaterEmptyAfterWord(s);
      } else {
        SplitLaterEmptyAfterSeparator(s);
      }
    }
  }

  lemma {:induction false} SplitLaterEmptyAfterWord(s: string)
    requires s != [] && IsWordChar(s[0])
    ensures "" in Split(s)[1..] <==> !IsWordChar(s[|s| - 1])
    decreases |s|, 0
  {
    var rest := Split(s[1..]);
    SplitLaterEmpty(s[1..]);
    assert Split(s) == [[s[0]] + rest[0]] + rest[1..];
    assert Split(s)[1..] == rest[1..];
    if |s| == 1 {
      assert rest == [""];
    } else {
      assert s[1..][|s| - 2] == s[|s| - 1];
    }
  }

  lemma {:induction false} SplitLaterEmptyAfterSeparator(s: string)
    requires s != [] && !IsWordChar(s[0])
    ensures "" in Split(s)[1..] <==> !IsWordChar(s[|s| - 1])
    decreases |s|, 0
  {
    var t := SkipSeparators(s);
    SplitFirstEmpty(t);
    SplitLaterEmpty(t);
    assert Split(s)[1..] == Split(t);
    assert Split(t) == [Split(t)[0]] + Split(t)[1..];
    if t != [] {
      assert t[|t| - 1] == s[|s| - 1];
    }
  }

  /** Position `k` of `s` holds a word character. */
  predicate WordAt(s: string, k: int) {
    0 <= k < |s| && IsWordChar(s[k])
  }

  /** `s[i..j]` is a maximal run of word characters of `s`. */
  predicate IsWordRun(s: string, i: int, j: int) {
    && 0 <= i < j <= |s|
    && (forall k :: i <= k < j ==> WordAt(s, k))
    && (i == 0 || !IsWordChar(s[i - 1]))
    && (j == |s| || !IsWordChar(s[j]))
  }

  /** The first position at or after `from` that does not hold a word character, or `|s|`. */
  function WordRunEnd(s: string, from: nat): (r: nat)
    requires from <= |s|
    ensures from <= r <= |s| && (r == |s| || !IsWordChar(s[r]))
    ensures forall k :: from <= k < r ==> WordAt(s, k)
    decreases |s| - from
  {
    if from == |s| || !IsWordChar(s[from]) then from else WordRunEnd(s, from + 1)
  }

  /** The length of the leading run of word characters. */
  function WordPrefixLength(s: string): (r: nat)
    ensures r <= |s| && (forall k :: 0 <= k < r ==> WordAt(s, k)) && (r == |s| || !IsWordChar(s[r]))
  {
    WordRunEnd(s, 0)
  }

  /** A run of word characters from `from` that cannot be extended ends where `WordRunEnd` says. */
  lemma {:induction false} WordRunEndIs(s: string, from: nat, j: nat)
    requires from <= j <= |s| && (forall k :: from <= k < j ==> WordAt(s, k))
    requires j == |s| || !IsWordChar(s[j])
    ensures WordRunEnd(s, from) == j
    decreases j - from
  {
    if from < j {
      assert WordAt(s, from);
      WordRunEndIs(s, from + 1, j);
    }
  }

  /** A leading run of word characters that cannot be extended is the whole leading run. */
  lemma WordPrefixIs(s: string, j: nat)
    requires j <= |s| && (forall k :: 0 <= k < j ==> WordAt(s, k)) && (j == |s| || !IsWordChar(s[j]))
    ensures WordPrefixLength(s) == j
  {
    WordRunEndIs(s, 0, j);
  }

  /** The first piece is the leading run of word characters. */
  lemma {:induction false} SplitFirstPiece(s: string)
    ensures Split(s)[0] == s[..WordPrefixLength(s)]
    decreases |s|
  {
    if s != [] && IsWordChar(s[0]) {
      SplitFirstPiece(s[1..]);
      var n := WordPrefixLength(s[1..]);
      assert forall k :: 1 <= k < n + 1 ==> WordAt(s[1..], k - 1) && s[k] == s[1..][k - 1];
      WordPrefixIs(s, n + 1);
      assert s[..n + 1] == [s[0]] + s[1..][..n];
    }
  }

  /** The position in the pieces of a maximal run: the first piece for a run at the start, a later one otherwise. */
  lemma {:induction false} WordRunIsPiece(s: string, i: int, j: int) returns (k: int)
    requires IsWordRun(s, i, j)
    ensures 0 <= k < |Split(s)| && Split(s)[k] == s[i..j]
    ensures k == 0 <==> i == 0
    decreases |s|, 1
  {
    if i == 0 {
      WordPrefixIs(s, j);
      SplitFirstPiece(s);
      k := 0;
    } else if IsWordChar(s[0]) {
      k := LaterRunAfterWord(s, i, j);
    } else {
      k := LaterRunAfterSeparator(s, i, j);
    }
  }

  /** `WordRunIsPiece` for a run not at the start of a text that opens with a word character. */
  lemma {:induction false} LaterRunAfterWord(s: string, i: int, j: int) returns (k: int)
    requires IsWordRun(s, i, j) && i > 0 && IsWordChar(s[0])
    ensures 0 < k < |Split(s)| && Split(s)[k] == s[i..j]
    decreases |s|, 0
  {
    assert i > 1;
    RunOfSuffix(s, 1, i, j);
    var k' := WordRunIsPiece(s[1..], i - 1, j - 1);
    SplitAfterWord(s);
    k := k';
  }

  /** `WordRunIsPiece` for a run in a text that opens with a separator. */
  lemma {:induction false} LaterRunAfterSeparator(s: string, i: int, j: int) returns (k: int)
    requires IsWordRun(s, i, j) && i > 0 && !IsWordChar(s[0])
    ensures 0 < k < |Split(s)| && Split(s)[k] == s[i..j]
    decreases |s|, 0
  {
    var t := SkipSeparators(s);
    var d := |s| - |t|;
    assert WordAt(s, i);
    SeparatorsEndBefore(s, i);
    RunOfSuffix(s, d, i, j);
    assert t == s[d..];
    var k' := WordRunIsPiece(t, i - d, j - d);
    PieceAfterSeparators(s, k');
    k := k' + 1;
  }

  /** A word character lies at or after the end of the leading separators. */
  lemma SeparatorsEndBefore(s: string, i: int)
    requires 0 <= i < |s| && IsWordChar(s[i])
    ensures i >= |s| - |SkipSeparators(s)|
  {
  }

  /** For a text opening with a separator, piece `k` of the rest after the separators is piece `k + 1`. */
  lemma PieceAfterSeparators(s: string, k: int)
    requires s != [] && !IsWordChar(s[0]) && 0 <= k < |Split(SkipSeparators(s))|
    ensures k + 1 < |Split(s)| && Split(s)[k + 1] == Split(SkipSeparators(s))[k]
  {
  }

  /** A run of a suffix that does not start right after a word character is a run of the whole text. */
  lemma RunInSuffix(s: string, d: int, i: int, j: int)
    requires 0 <= d <= |s| && IsWordRun(s[d..], i, j)
    requires i == 0 ==> d == 0 || !IsWordChar(s[d - 1])
    ensures IsWordRun(s, i + d, j + d) && s[d..][i..j] == s[i + d..j + d]
  {
    var t := s[d..];
    forall m | i + d <= m < j + d ensures WordAt(s, m) {
      assert WordAt(t, m - d) && s[m] == t[m - d];
    }
    if i > 0 {
      assert s[i + d - 1] == t[i - 1];
    }
    if j < |t| {
      assert s[j + d] == t[j];
    }
  }

  /** A run of the text that starts at or after `d` is a run of the suffix from `d`. */
  lemma RunOfSuffix(s: string, d: int, i: int, j: int)
    requires IsWordRun(s, i, j) && 0 <= d <= i
    ensures IsWordRun(s[d..], i - d, j - d) && s[d..][i - d..j - d] == s[i..j]
  {
    var t := s[d..];
    forall m | i - d <= m < j - d ensures WordAt(t, m) {
      assert WordAt(s, m + d) && t[m] == s[m + d];
    }
    if i - d > 0 {
      assert t[i - d - 1] == s[i - 1];
    }
    if j - d < |t| {
      assert t[j - d] == s[j];
    }
  }

  /** The bounds of the maximal run a non-empty piece is; the first piece starts the text, a later one does not. */
  lemma {:induction false} PieceIsWordRun(s: string, k: int) returns (i: int, j: int)
    requires 0 <= k < |Split(s)| && Split(s)[k] != ""
    ensures IsWordRun(s, i, j) && Split(s)[k] == s[i..j]
    ensures i == 0 <==> k == 0
    decreases |s|, 1
  {
    if k == 0 {
      SplitFirstPiece(s);
      WordPrefixRun(s);
      i, j := 0, WordPrefixLength(s);
    } else {
      assert s != [];
      if IsWordChar(s[0]) {
        i, j := LaterPieceAfterWord(s, k);
      } else {
        i, j := LaterPieceAfterSeparator(s, k);
      }
    }
  }

  /** `PieceIsWordRun` for a later piece of a text that opens with a word character. */
  lemma {:induction false} LaterPieceAfterWord(s: string, k: int) returns (i: int, j: int)
    requires 0 < k < |Split(s)| && Split(s)[k] != "" && s != [] && IsWordChar(s[0])
    ensures IsWordRun(s, i, j) && Split(s)[k] == s[i..j] && i > 0
    decreases |s|, 0
  {
    SplitAfterWord(s);
    var i', j' := PieceIsWordRun(s[1..], k);
    RunInSuffix(s, 1, i', j');
    i, j := i' + 1, j' + 1;
  }

  /** `PieceIsWordRun` for a later piece of a text that opens with a separator. */
  lemma {:induction false} LaterPieceAfterSeparator(s: string, k: int) returns (i: int, j: int)
    requires 0 < k < |Split(s)| && Split(s)[k] != "" && s != [] && !IsWordChar(s[0])
    ensures IsWordRun(s, i, j) && Split(s)[k] == s[i..j] && i > 0
    decreases |s|, 0
  {
    var t := SkipSeparators(s);
    var d := |s| - |t|;
    SplitAfterSeparator(s);
    var i', j' := PieceIsWordRun(t, k - 1);
    RunInSuffix(s, d, i', j');
    i, j := i' + d, j' + d;
  }

  /** A non-empty leading run of word characters is a maximal run. */
  lemma WordPrefixRun(s: string)
    requires WordPrefixLength(s) > 0
    ensures IsWordRun(s, 0, WordPrefixLength(s))
  {
  }

  /** The pieces of a text opening with a word character. */
  lemma SplitAfterWord(s: string)
    requires s != [] && IsWordChar(s[0])
    ensures |Split(s)| == |Split(s[1..])|
    ensures Split(s)[0] == [s[0]] + Split(s[1..])[0]
    ensures forall k :: 1 <= k < |Split(s)| ==> Split(s)[k] == Split(s[1..])[k]
  {
  }

  /** The pieces of a text opening with a separator. */
  lemma SplitAfterSeparator(s: string)
    requires s != [] && !IsWordChar(s[0])
    ensures SkipSeparators(s) == s[|s| - |SkipSeparators(s)|..] && |SkipSeparators(s)| < |s|
    ensures |Split(s)| == |Split(SkipSeparators(s))| + 1 && Split(s)[0] == ""
    ensures forall k :: 1 <= k < |Split(s)| ==> Split(s)[k] == Split(SkipSeparators(s))[k - 1]
  {
  }

  /**
   * The pieces of `split(/\W+/)` are the word runs of the text: every
   * maximal run of word characters is a piece, every non-empty piece is such
   * a run, and every piece occurs in the text.
   */
  lemma SplitIsWordRuns(s: string)
    ensures forall i, j :: IsWordRun(s, i, j) ==> s[i..j] in Split(s)
    ensures forall w :: w in Split(s) && w != "" ==> exists i, j :: IsWordRun(s, i, j) && w == s[i..j]
    ensures forall w :: w in Split(s) ==> exists k :: OccursAt(s, w, k)
  {
    forall i, j | IsWordRun(s, i, j) ensures s[i..j] in Split(s) {
      var k := WordRunIsPiece(s, i, j);
    }
    forall w | w in Split(s) ensures (w != "" ==> exists i, j :: IsWordRun(s, i, j) && w == s[i..j]) && exists k :: OccursAt(s, w, k) {
      var k :| 0 <= k < |Split(s)| && Split(s)[k] == w;
      if w == "" {
        assert OccursAt(s, w, 0);
      } else {
        var i, j := PieceIsWordRun(s, k);
        assert OccursAt(s, w, i);
      }
    }
  }

  /** `split(/\W+/)` yields an empty piece exactly at an empty or separator-bounded text. */
  lemma SplitHasEmptyPiece(s: string)
    ensures "" in Split(s) <==> s == [] || !IsWordChar(s[0]) || !IsWordChar(s[|s| - 1])
  {
    SplitFirstEmpty(s);
    SplitLaterEmpty(s);
    assert Split(s) == [Split(s)[0]] + Split(s)[1..];
  }

  /** The white space and line terminators that `String.prototype.trim` removes. */
  predicate IsTrimmable(c: char) {
    c == '\t' || c == '\n' || c == '\U{B}' || c == '\U{C}' || c == '\r' || c == ' ' ||
    c == '\U{A0}' || c == '\U{1680}' || ('\U{2000}' <= c <= '\U{200A}') ||
    c == '\U{2028}' || c == '\U{2029}' || c == '\U{202F}' || c == '\U{205F}' ||
    c == '\U{3000}' || c == '\U{FEFF}'
  }

  function TrimStart(s: string): (r: string)
    ensures |r| <= |s| && r == s[|s| - |r|..]
    ensures r == [] || !IsTrimmable(r[0])
    ensures forall i :: 0 <= i < |s| - |r| ==> IsTrimmable(s[i])
  {
    if s != [] && IsTrimmable(s[0]) then TrimStart(s[1..]) else s
  }

  function TrimEnd(s: string): (r: string)
    ensures |r| <= |s| && r == s[..|r|]
    ensures r == [] || !IsTrimmable(r[|r| - 1])
    ensures forall i :: |r| <= i < |s| ==> IsTrimmable(s[i])
  {
    if s != [] && IsTrimmable(s[|s| - 1]) then TrimEnd(s[..|s| - 1]) else s
  }

  /** `s.trim()`: the infix left after removing white space from both ends. */
  function Trim(s: string): (r: string)
    ensures exists i, j :: 0 <= i <= j <= |s| && r == s[i..j] &&
                           (forall k :: 0 <= k < i ==> IsTrimmable(s[k])) &&
                           (forall k :: j <= k < |s| ==> IsTrimmable(s[k]))
    ensures r == [] || (!IsTrimmable(r[0]) && !IsTrimmable(r[|r| - 1]))
  {
    var t := TrimStart(s);
    var r := TrimEnd(t);
    var i := |s| - |t|;
    assert r == s[i..i + |r|];
    r
  }

  lemma TrimIdempotent(s: string)
    ensures Trim(Trim(s)) == Trim(s)
  {
    var r := Trim(s);
    assert TrimStart(r) == r;
    assert TrimEnd(r) == r;
  }

  /** `parts.join(sep)`. */
  function Join(parts: seq<string>, sep: string): string {
    if parts == [] then ""
    else if |parts| == 1 then parts[0]
    else parts[0] + sep + Join(parts[1..], sep)
  }

  /** An occurrence in the left operand of a concatenation is one in the whole. */
  lemma OccursInLeft(a: string, b: string, w: string, q: int)
    requires OccursAt(a, w, q)
    ensures OccursAt(a + b, w, q)
  {
    assert (a + b)[q..q + |w|] == a[q..q + |w|];
  }

  /** An occurrence in the right operand of a concatenation is one in the whole, shifted by the left operand. */
  lemma OccursInRight(a: string, b: string, w: string, q: int)
    requires OccursAt(b, w, q)
    ensures OccursAt(a + b, w, |a| + q)
  {
    assert (a + b)[|a| + q..|a| + q + |w|] == b[q..q + |w|];
  }

  /** Every part occurs in the joined text; the offset is returned. */
  lemma {:induction false} JoinHasParts(parts: seq<string>, sep: string, k: int) returns (p: int)
    requires 0 <= k < |parts|
    ensures OccursAt(Join(parts, sep), parts[k], p)
    decreases |parts|
  {
    if |parts| == 1 {
      p := 0;
      assert Join(parts, sep)[0..|parts[0]|] == parts[0];
    } else if k == 0 {
      p := 0;
      assert OccursAt(parts[0], parts[0], 0);
      OccursInLeft(parts[0], sep + Join(parts[1..], sep), parts[0], 0);
      assert parts[0] + (sep + Join(parts[1..], sep)) == Join(parts, sep);
    } else {
      var q := JoinHasParts(parts[1..], sep, k - 1);
      OccursInRight(parts[0] + sep, Join(parts[1..], sep), parts[k], q);
      p := |parts[0] + sep| + q;
    }
  }

  function DigitChar(d: nat): (c: char)
    requires d < 10
    ensures '0' <= c <= '9' && c as int - '0' as int == d
  {
    ('0' as int + d) as char
  }

  /** The number a string of decimal digits denotes, most significant digit first. */
  function DecimalValue(s: string): int {
    if s == [] then 0 else 10 * DecimalValue(s[..|s| - 1]) + (s[|s| - 1] as int - '0' as int)
  }

  /** `s` is a decimal numeral for `n`: digits only, denoting `n`, with no leading zero. */
  predicate IsDecimalOf(s: string, n: nat) {
    && |s| >= 1
    && (forall i :: 0 <= i < |s| ==> '0' <= s[i] <= '9')
    && DecimalValue(s) == n
    && (s[0] == '0' <==> n == 0)
    && (|s| > 1 ==> s[0] != '0')
  }

  /**
   * The decimal rendering of a natural number, as template literals produce
   * it: digits denoting `n`, with no leading zero.
   */
  function DecimalString(n: nat): (r: string)
    ensures |r| >= 1
    ensures forall i :: 0 <= i < |r| ==> '0' <= r[i] <= '9'
    ensures DecimalValue(r) == n
    ensures r[0] == '0' <==> n == 0
    ensures |r| > 1 ==> r[0] != '0'
    ensures n == 0 ==> r == "0"
  {
    if n < 10 then [DigitChar(n)]
    else
      var prefix := DecimalString(n / 10);
      var r := prefix + [DigitChar(n % 10)];
      assert r[..|r| - 1] == prefix;
      r
  }
}
