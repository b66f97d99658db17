/** What the string and number productions read, stated against the input. */
module Lexemes {
  import opened Chars
  import opened Translator

  /** `parseString()` succeeds exactly when a '"' follows the skipped
      character; it then returns everything strictly between the two, which
      holds no quote, and stops one past the closing quote. Otherwise it fails
      with "Cadena sin cerrar." at the end of input, or one past the skipped
      character when that already lies beyond the end. */
  lemma ParseStringSpec(input: string, pos: nat)
    ensures var r := ParseString(input, pos);
      r.Err? <==> forall i | pos < i < |input| :: input[i] != '"'
    ensures var r := ParseString(input, pos);
      r.Ok? ==>
        && r.pos == pos + |r.text| + 2 <= |input|
        && input[pos + 1..r.pos - 1] == r.text
        && input[r.pos - 1] == '"'
        && '"' !in r.text
    ensures var r := ParseString(input, pos);
      r.Err? ==> r == Err(if pos + 1 < |input| then |input| else pos + 1, UnterminatedString)
  {
    QuoteEndSkipsNoQuote(input, pos + 1);
    var stop := QuoteEnd(input, pos + 1);
    if stop < |input| {
      var t := input[pos + 1..stop];
      assert forall k | 0 <= k < |t| :: t[k] == input[pos + 1 + k];
    }
  }

  /** The string scanner steps over no quote. */
  lemma {:induction false} QuoteEndSkipsNoQuote(input: string, pos: nat)
    ensures forall i | pos <= i < QuoteEnd(input, pos) :: input[i] != '"'
    decreases |input| - pos
  {
    if pos < |input| && input[pos] != '"' {
      QuoteEndSkipsNoQuote(input, pos + 1);
    }
  }

  /** Any index obeying the scanning loop's exit facts is where it stops. */
  lemma {:induction false} QuoteEndUnique(input: string, pos: nat, q: nat)
    requires pos <= q <= |input|
    requires forall i | pos <= i < q :: input[i] != '"'
    requires q < |input| ==> input[q] == '"'
    ensures QuoteEnd(input, pos) == q
    decreases q - pos
  {
    if pos < q {
      assert input[pos] != '"';
      QuoteEndUnique(input, pos + 1, q);
    }
  }

  /** `parseNumber()` returns the maximal run of digits and dots at the cursor. */
  lemma ParseNumberSpec(input: string, pos: nat)
    requires pos <= |input|
    ensures var r := ParseNumber(input, pos);
      && r.Ok?
      && r.text == input[pos..r.pos]
      && (forall i | 0 <= i < |r.text| :: IsNumberChar(r.text[i]))
      && (r.pos == |input| || !IsNumberChar(input[r.pos]))
  {
    NumberEndSkipsNumberChars(input, pos);
    var stop := NumberEnd(input, pos);
    var t := input[pos..stop];
    assert forall k | 0 <= k < |t| :: t[k] == input[pos + k];
  }

  /** The number scanner steps over digits and dots only. */
  lemma {:induction false} NumberEndSkipsNumberChars(input: string, pos: nat)
    ensures forall i | pos <= i < NumberEnd(input, pos) :: IsNumberChar(input[i])
    decreases |input| - pos
  {
    if pos < |input| && IsNumberChar(input[pos]) {
      NumberEndSkipsNumberChars(input, pos + 1);
    }
  }

  /** Any index obeying the number loop's exit facts is where it stops. */
  lemma {:induction false} NumberEndUnique(input: string, pos: nat, q: nat)
    requires pos <= q <= |input|
    requires forall i | pos <= i < q :: IsNumberChar(input[i])
    requires q < |input| ==> !IsNumberChar(input[q])
    ensures NumberEnd(input, pos) == q
    decreases q - pos
  {
    if pos < q {
      assert IsNumberChar(input[pos]);
      NumberEndUnique(input, pos + 1, q);
    }
  }

  /** A leading '-' ends the number at once: the text is empty and the
      cursor stays on the '-'. */
  lemma MinusNotConsumed(input: string, pos: nat)
    requires pos < |input| && input[pos] == '-'
    ensures ParseNumber(input, pos) == Ok("", pos)
  {
  }
}
