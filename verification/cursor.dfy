/** The cursor helpers of the parser: prefix test, `match` and `skipWhitespace`.
    The cursor is a plain `nat` threaded through by value. */
module Cursor {
  import opened Chars

  /** `input.startsWith(lit, pos)`: every character of `lit` sits at the
      corresponding offset from `pos`. False when `lit` would run past the end. */
  predicate StartsWith(input: string, pos: nat, lit: string) {
    && pos + |lit| <= |input|
    && forall k :: 0 <= k < |lit| ==> input[pos + k] == lit[k]
  }

  /** A prefix test on `a + b` splits into one on `a` and one on `b` right after it. */
  lemma StartsWithConcat(input: string, pos: nat, a: string, b: string)
    ensures StartsWith(input, pos, a + b) <==> StartsWith(input, pos, a) && StartsWith(input, pos + |a|, b)
  {
    if StartsWith(input, pos, a) && StartsWith(input, pos + |a|, b) {
      forall k | 0 <= k < |a + b|
        ensures input[pos + k] == (a + b)[k]
      {
        if k >= |a| {
          assert input[pos + |a| + (k - |a|)] == b[k - |a|];
        }
      }
    }
    if StartsWith(input, pos, a + b) {
      forall k | 0 <= k < |a|
        ensures input[pos + k] == a[k]
      {
        assert (a + b)[k] == a[k];
      }
      forall k | 0 <= k < |b|
        ensures input[pos + |a| + k] == b[k]
      {
        assert input[pos + (|a| + k)] == (a + b)[|a| + k];
      }
    }
  }

  /** A prefix test that holds fixes the character under the cursor. */
  lemma StartsWithHead(input: string, pos: nat, lit: string)
    requires |lit| >= 1
    ensures StartsWith(input, pos, lit) ==> pos < |input| && input[pos] == lit[0]
  {
    if StartsWith(input, pos, lit) {
      assert input[pos + 0] == lit[0];
    }
  }

  /** Java's `startsWith(lit, pos)` is `regionMatches`: the prefix test holds
      exactly when the slice of `input` from `pos` with the length of `lit`
      exists and equals `lit`. */
  lemma StartsWithSlice(input: string, pos: nat, lit: string)
    ensures StartsWith(input, pos, lit) <==> pos + |lit| <= |input| && input[pos..pos + |lit|] == lit
  {
    if pos + |lit| <= |input| && input[pos..pos + |lit|] == lit {
      forall k | 0 <= k < |lit|
        ensures input[pos + k] == lit[k]
      {
        assert input[pos..pos + |lit|][k] == lit[k];
      }
    }
  }

  /** `match(lit)`: on success the cursor moves past exactly the characters of
      `lit`; on failure it stays put and `input` does not start with `lit` there. */
  function Match(input: string, pos: nat, lit: string): (r: (bool, nat))
    ensures r.0 ==> r.1 == pos + |lit| <= |input|
    ensures !r.0 ==> r.1 == pos
  {
    if StartsWith(input, pos, lit) then (true, pos + |lit|) else (false, pos)
  }

  /** What `match` consumes is exactly `lit`; when it declines, the text at the
      cursor is not `lit`. */
  lemma MatchConsumesLiteral(input: string, pos: nat, lit: string)
    ensures var r := Match(input, pos, lit);
      r.0 ==> input[pos..r.1] == lit
    ensures var r := Match(input, pos, lit);
      !r.0 ==> !(pos + |lit| <= |input| && input[pos..pos + |lit|] == lit)
  {
  }

  /** `skipWhitespace()`: the cursor moves forward over whitespace only and stops
      at the end of input or on the first non-whitespace character. */
  function SkipWhitespace(input: string, pos: nat): (r: nat)
    ensures pos <= r
    ensures pos <= |input| ==> r <= |input|
    ensures pos > |input| ==> r == pos
    ensures pos <= |input| ==> (r == |input| || !IsWhitespace(input[r]))
    decreases |input| - pos
  {
    if pos >= |input| || !IsWhitespace(input[pos]) then pos else SkipWhitespace(input, pos + 1)
  }

  /** Everything `skipWhitespace` steps over is whitespace. */
  lemma {:induction false} SkipWhitespaceOverBlanks(input: string, pos: nat)
    ensures forall i | pos <= i < SkipWhitespace(input, pos) :: IsWhitespace(input[i])
    decreases |input| - pos
  {
    if pos < |input| && IsWhitespace(input[pos]) {
      SkipWhitespaceOverBlanks(input, pos + 1);
    }
  }

  /** Skipping whitespace twice is the same as skipping it once. */
  lemma SkipWhitespaceIdempotent(input: string, pos: nat)
    ensures SkipWhitespace(input, SkipWhitespace(input, pos)) == SkipWhitespace(input, pos)
  {
  }

  /** At a non-whitespace character (or past the end) skipping does nothing. */
  lemma SkipWhitespaceAtNonBlank(input: string, pos: nat)
    requires pos < |input| ==> !IsWhitespace(input[pos])
    ensures SkipWhitespace(input, pos) == pos
  {
  }
}
