/** The abstract token counter the hybrid chunker budgets with. */
module Tokenizers {
  import opened Text

  /**
   * `Tokenizer`: `countTokens` is a function, so equal texts always get equal counts;
   * `maxTokens` is the model's token limit.
   */
  datatype Tokenizer = Tokenizer(countTokens: string -> nat, maxTokens: nat)

  /** `usize::div_ceil`. */
  function DivCeil(a: nat, b: nat): (q: nat)
    requires b > 0
    ensures a <= q * b && (q == 0 || (q - 1) * b < a)
  {
    a / b + (if a % b == 0 then 0 else 1)
  }

  /** The reference counter used throughout the tests: one token per started block of 4 bytes. */
  function MockCount(text: string): (n: nat)
    ensures ByteLen(text) <= 4 * n && (n == 0 || 4 * (n - 1) < ByteLen(text))
  {
    DivCeil(ByteLen(text), 4)
  }

  /** The reference tokenizer with the given limit. */
  function Mock(maxTokens: nat): (t: Tokenizer)
    ensures t.maxTokens == maxTokens
    ensures forall s :: t.countTokens(s) == MockCount(s)
  {
    Tokenizer(MockCount, maxTokens)
  }

  /** The `(len + 3) / 4` counter of the hybrid-chunker tests is the same function. */
  lemma MockCountIsRoundedQuarter(s: string)
    ensures MockCount(s) == (ByteLen(s) + 3) / 4
  {
  }

  /** The empty text has no tokens, and only the empty text. */
  lemma MockCountZeroIffEmpty(s: string)
    ensures MockCount(s) == 0 <==> s == []
  {
    ByteLenBounds(s);
  }

  /** The count does not depend on the tokenizer's limit. */
  lemma MockCountIgnoresLimit(m1: nat, m2: nat, s: string)
    ensures Mock(m1).countTokens(s) == Mock(m2).countTokens(s)
  {
  }

  /** Counting is monotone in byte length. */
  lemma MockCountMonotone(s: string, t: string)
    requires ByteLen(s) <= ByteLen(t)
    ensures MockCount(s) <= MockCount(t)
  {
  }

  /** "Hello world" is 11 bytes, so 3 tokens. */
  lemma MockCountHelloWorld()
    ensures MockCount("Hello world") == 3
  {
    assert ByteLen("Hello world") == 11;
  }
}
