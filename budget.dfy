/**
 * `estimateTokens` and the token budget of `parseResume`
 * (src/lib/apis/ioNet.ts). `text.length / 2.5` and `text.length * 0.2` are
 * taken as exact rationals, so the estimate of `n` characters is
 * `ceil(2n / 5) + ceil(n / 5)`.
 */
module Budget {
  import opened Arith

  /** `estimateTokens` of a text of `n` characters: about three fifths of `n`, rounded up per summand. */
  function Tokens(n: nat): (r: nat)
    ensures r == 0 <==> n == 0
    ensures 3 * n <= 5 * r <= 3 * n + 8
  {
    (2 * n + 4) / 5 + (n + 4) / 5
  }

  /** `estimateTokens(text)`: zero only for the empty text, otherwise close to three fifths of its length. */
  function EstimateTokens(text: string): (r: nat)
    ensures r == 0 <==> text == ""
    ensures 3 * |text| <= 5 * r <= 3 * |text| + 8
  {
    Tokens(|text|)
  }

  /** The two summands are the ceilings of `n / 2.5` and `n * 0.2`. */
  lemma TokensAreCeilings(n: nat)
    ensures var base, overhead := (2 * n + 4) / 5, (n + 4) / 5;
      && 5 * base >= 2 * n > 5 * (base - 1)
      && 5 * overhead >= n > 5 * (overhead - 1)
      && Tokens(n) == base + overhead
  {
  }

  lemma TokensMonotone(n1: nat, n2: nat)
    requires n1 <= n2
    ensures Tokens(n1) <= Tokens(n2)
  {
    DivMonotone(2 * n1 + 4, 2 * n2 + 4, 5);
    DivMonotone(n1 + 4, n2 + 4, 5);
  }

  /** The request's context ceiling. */
  const MaxContextTokens := 128000
  /** The completion tokens requested. */
  const MaxCompletionTokens := 1500
  /** The safety margin kept free. */
  const BufferTokens := 3000
  /** Length of `JSON.stringify` of the system message `{role, content}` sent with the resume. */
  const SystemMessageChars := 568
  const SystemTokens := Tokens(SystemMessageChars)
  const MaxUserTokens := MaxContextTokens - SystemTokens - MaxCompletionTokens - BufferTokens
  /** `Math.floor(maxUserTokens * 2.5)`. */
  const MaxChars := (5 * MaxUserTokens) / 2

  lemma BudgetConstants()
    ensures SystemTokens == 342 && MaxUserTokens == 123158 && MaxChars == 307895
  {
  }

  /** The length of the user content after the truncation step: `substring(0, maxChars)` clamps to the text. */
  function TruncatedLength(n: nat): (r: nat)
    ensures r <= n
    ensures r < n <==> Tokens(n) > MaxUserTokens && n > MaxChars
    ensures r < n ==> r == MaxChars
  {
    if Tokens(n) > MaxUserTokens then Min(n, MaxChars) else n
  }

  /**
   * The total-token check, `systemTokens + userTokens + maxCompletionTokens
   * <= maxContextTokens`: with this system message it admits a user text
   * exactly when it has at most 210262 characters.
   */
  predicate Fits(userChars: nat): (r: bool)
    ensures r <==> userChars <= 210262
  {
    TotalCheckUpTo(userChars);
    SystemTokens + Tokens(userChars) + MaxCompletionTokens <= MaxContextTokens
  }

  /**
   * For any system prompt below 117500 tokens, a user text cut to
   * `floor(2.5 * M)` characters estimates at about `1.5 * M` tokens and so
   * always fails the total-token check, where `M = 123500 - systemTokens`.
   */
  lemma {:induction false} CutTextNeverFits(systemTokens: nat)
    requires systemTokens < 117500
    ensures var m := MaxContextTokens - systemTokens - MaxCompletionTokens - BufferTokens;
      systemTokens + Tokens((5 * m) / 2) + MaxCompletionTokens > MaxContextTokens
  {
    var m := MaxContextTokens - systemTokens - MaxCompletionTokens - BufferTokens;
    var len := (5 * m) / 2;
    assert 2 * len >= 5 * m - 1;
  }

  /**
   * The truncation never lets a shortened text through: the total-token
   * check passes after truncation exactly when the whole text passes it, and
   * then nothing was cut.
   */
  lemma {:induction false} AdmissionKeepsWholeText(n: nat)
    ensures Fits(TruncatedLength(n)) <==> Fits(n)
    ensures Fits(TruncatedLength(n)) ==> TruncatedLength(n) == n
  {
    BudgetConstants();
    if TruncatedLength(n) < n {
      CutTextNeverFits(SystemTokens);
      TokensMonotone(MaxChars, n);
    }
  }

  /** The threshold of the total-token check: the estimate of 210262 characters fits, that of 210263 does not. */
  lemma {:induction false} TotalCheckUpTo(n: nat)
    ensures SystemTokens + Tokens(n) + MaxCompletionTokens <= MaxContextTokens <==> n <= 210262
  {
    BudgetConstants();
    assert Tokens(210262) == 126158;
    assert Tokens(210263) == 126159;
    if n <= 210262 {
      TokensMonotone(n, 210262);
    } else {
      TokensMonotone(210263, n);
    }
  }
}
