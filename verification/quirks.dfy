/** The parser's corner cases as the code has them, stated as whole-call
    outcomes of `parse()`. */
module Quirks {
  import opened Chars
  import opened Cursor
  import opened Translator
  import opened Dispatch
  import opened Lexemes
  import opened JsonTree
  import opened Lines

  /** Skipping from the start of an input that is all whitespace reaches its end. */
  lemma {:induction false} SkipAllBlanks(input: string, pos: nat)
    requires pos <= |input|
    requires forall i | pos <= i < |input| :: IsWhitespace(input[i])
    ensures SkipWhitespace(input, pos) == |input|
    decreases |input| - pos
  {
    if pos < |input| {
      SkipAllBlanks(input, pos + 1);
    }
  }

  /** Empty or whitespace-only input reaches `charAt` past the end: the one
      error is the JVM's out-of-range failure at the input's length, and no
      text is returned. */
  lemma BlankInput(input: string, outOfRange: string)
    requires forall i | 0 <= i < |input| :: IsWhitespace(input[i])
    ensures Parse(input, outOfRange) == Translation("", [ErrorLine(|input|, outOfRange)])
  {
    SkipAllBlanks(input, 0);
    DispatchEnd(input, 0);
  }

  /** A file of blank lines is read as the empty document, which fails
      with the out-of-range error at position 0. */
  lemma BlankFile(lines: seq<string>, outOfRange: string)
    requires forall i | 0 <= i < |lines| :: AllTrimmable(lines[i])
    ensures Parse(JoinLines(lines), outOfRange) == Translation("", [ErrorLine(0, outOfRange)])
  {
    BlankLinesJoinEmpty(lines);
    BlankInput("", outOfRange);
  }

  /** A document that is `null`: the element is `<null/>` but the cursor never
      left its 'n', so the end check fails at the lookahead. */
  lemma NullDocument(input: string, outOfRange: string)
    requires StartsWith(input, Lookahead(input, 0), "null")
    ensures Parse(input, outOfRange)
      == Translation("<null/>", [ErrorLine(Lookahead(input, 0), "Contenido inesperado al final del archivo.")])
  {
    var p := Lookahead(input, 0);
    DispatchNull(input, 0);
  }

  /** A round of the array loop that starts on `null` ends the loop on its
      'n': the ',' test after the element sees the 'n' itself. */
  lemma NullEndsItems(input: string, pos: nat)
    requires pos <= |input|
    requires StartsWith(input, SkipWhitespace(input, pos), "null")
    ensures ArrayItems(input, pos) == Ok("<null/>", SkipWhitespace(input, pos))
  {
    var p := SkipWhitespace(input, pos);
    StartsWithHead(input, p, "null");
    DispatchNull(input, pos);
    ItemsRound(input, pos, "<null/>", p);
    SkipWhitespaceAtNonBlank(input, p);
    ItemsNextStop(input, "<null/>", p);
  }

  /** A `null` after any ',' of the array loop: the loop returns what it had
      read plus `<null/>`, and stops on the 'n'. */
  lemma NullAfterComma(input: string, item: string, q: nat)
    requires q < |input| && input[q] == ','
    requires StartsWith(input, SkipWhitespace(input, q + 1), "null")
    ensures ItemsNext(input, item, q) == Ok(item + "<null/>", SkipWhitespace(input, q + 1))
  {
    ItemsNextComma(input, item, q);
    NullEndsItems(input, q + 1);
  }

  /** Wherever the array loop stops on a `null`, the ']' test fails on its
      'n', so the array fails there. */
  lemma LoopOnNullFails(input: string, pos: nat, xml: string, n: nat)
    requires pos <= |input|
    requires var p := SkipWhitespace(input, pos); !(p < |input| && input[p] == ']')
    requires ArrayItems(input, SkipWhitespace(input, pos)) == Ok(xml, n)
    requires StartsWith(input, n, "null")
    ensures ParseArray(input, pos) == Err(n, ExpectedCloseBracket)
  {
    StartsWithHead(input, n, "null");
    ArrayBody(input, pos);
  }

  /** An array whose first element is `null` can never close: the loop stops
      on the 'n' and the ']' test fails there. */
  lemma NullFirstItem(input: string, pos: nat)
    requires pos <= |input|
    requires var p := SkipWhitespace(input, pos); StartsWith(input, p, "null")
    ensures ParseArray(input, pos) == Err(SkipWhitespace(input, pos), ExpectedCloseBracket)
  {
    var p := SkipWhitespace(input, pos);
    StartsWithHead(input, p, "null");
    SkipWhitespaceIdempotent(input, pos);
    NullEndsItems(input, p);
    LoopOnNullFails(input, pos, "<null/>", p);
  }

  /** A document that is an array opening on `null` fails with the missing
      ']' at the 'n', and returns no text. */
  lemma NullInArrayDocument(input: string, outOfRange: string)
    requires |input| >= 1 && input[0] == '['
    requires StartsWith(input, SkipWhitespace(input, 1), "null")
    ensures Parse(input, outOfRange)
      == Translation("", [ErrorLine(SkipWhitespace(input, 1), "Se esperaba ']' al final del arreglo.")])
  {
    var p := SkipWhitespace(input, 1);
    NullArrayElement(input, p);
  }

  /** The element of such a document: the array fails at the 'n'. */
  lemma NullArrayElement(input: string, p: nat)
    requires |input| >= 1 && input[0] == '['
    requires p == SkipWhitespace(input, 1) && StartsWith(input, p, "null")
    ensures ParseElement(input, 0) == Err(p, ExpectedCloseBracket)
  {
    ArrayAt(input, 0);
    NullFirstItem(input, 1);
  }

  /** A `null` as a member value: the member is read with `<null/>` as its
      value, and the loop stops on the 'n', since no ',' follows the
      cursor the null production left there. */
  lemma NullMemberValue(input: string, name: string, c: nat)
    requires c < |input| && input[c] == ':'
    requires StartsWith(input, Lookahead(input, c + 1), "null")
    ensures MemberValue(input, name, c) == Ok("<" + name + "><null/></" + name + ">", Lookahead(input, c + 1))
  {
    var n := Lookahead(input, c + 1);
    var member := "<" + name + "><null/></" + name + ">";
    DispatchNull(input, c + 1);
    MemberValueOk(input, name, c, "<null/>", n, member);
    StartsWithHead(input, n, "null");
    SkipWhitespaceAtNonBlank(input, n);
    MembersNextStop(input, member, n);
  }

  /** Wherever the object loop stops on a `null`, the '}' test fails on its
      'n', so the object fails there. */
  lemma ObjectLoopOnNullFails(input: string, pos: nat, xml: string, n: nat)
    requires pos <= |input|
    requires var p := SkipWhitespace(input, pos); !(p < |input| && input[p] == '}')
    requires ObjectMembers(input, SkipWhitespace(input, pos)) == Ok(xml, n)
    requires StartsWith(input, n, "null")
    ensures ParseObject(input, pos) == Err(n, ExpectedCloseBrace)
  {
    StartsWithHead(input, n, "null");
    ObjectBody(input, pos);
  }

  /** An object whose first member's value is `null` can never close: the
      loop stops on the 'n' and the '}' test fails there. */
  lemma NullMemberObject(input: string, pos: nat, name: string, a: nat)
    requires pos <= |input|
    requires var k := SkipWhitespace(input, pos); k < |input| && input[k] != '}'
    requires ParseString(input, SkipWhitespace(input, pos)) == Ok(name, a)
    requires var c := SkipWhitespace(input, a);
      c < |input| && input[c] == ':' && StartsWith(input, Lookahead(input, c + 1), "null")
    ensures ParseObject(input, pos) == Err(Lookahead(input, SkipWhitespace(input, a) + 1), ExpectedCloseBrace)
  {
    var k := SkipWhitespace(input, pos);
    var c := SkipWhitespace(input, a);
    SkipWhitespaceIdempotent(input, pos);
    MembersRound(input, k, name, a);
    NullMemberValue(input, name, c);
    ObjectLoopOnNullFails(input, pos, "<" + name + "><null/></" + name + ">", Lookahead(input, c + 1));
  }

  /** `{"a":null}`: the object fails with the missing '}' reported at the
      'n', and the translation returns no text. */
  lemma NullMemberExample(input: string, outOfRange: string)
    requires input == "{\"a\":null}"
    ensures Parse(input, outOfRange)
      == Translation("", [ErrorLine(5, "Se esperaba '}' al final del objeto.")])
  {
    assert ParseElement(input, 0) == Err(5, ExpectedCloseBrace) by {
      ObjectAt(input, 0);
      OneCharString(input, 1);
      SkipWhitespaceAtNonBlank(input, 1);
      SkipWhitespaceAtNonBlank(input, 4);
      SkipWhitespaceAtNonBlank(input, 5);
      assert StartsWith(input, 5, "null");
      NullMemberObject(input, 1, input[2..3], 4);
    }
  }

  /** A document whose lookahead is '-': the number production reads nothing,
      so the element is an empty `<number></number>` and the end check fails
      on the '-' itself. */
  lemma MinusDocument(input: string, outOfRange: string)
    requires var p := Lookahead(input, 0); p < |input| && input[p] == '-'
    ensures Parse(input, outOfRange)
      == Translation("<number></number>", [ErrorLine(Lookahead(input, 0), "Contenido inesperado al final del archivo.")])
  {
    var p := Lookahead(input, 0);
    DispatchNumber(input, 0);
    assert NumberEnd(input, p) == p;
    assert input[p..p] == "";
  }

  /** `[1,2,]`: after the ',' the loop parses an element at ']', which is no
      element at all. */
  lemma TrailingCommaExample(input: string, outOfRange: string)
    requires input == "[1,2,]"
    ensures Parse(input, outOfRange) == Translation("", [ErrorLine(5, "Elemento inválido.")])
  {
    TrailingCommaElement(input);
  }

  /** The element of `[d,d,]` for any digits: the array fails where its
      loop does. */
  lemma TrailingCommaElement(input: string)
    requires |input| == 6 && input[0] == '[' && input[2] == ',' && input[4] == ',' && input[5] == ']'
    requires IsDigit(input[1]) && IsDigit(input[3])
    ensures ParseElement(input, 0) == Err(5, InvalidElement)
  {
    TrailingCommaItems(input);
    ArrayAt(input, 0);
    SkipWhitespaceAtNonBlank(input, 1);
    ArrayBody(input, 1);
  }

  /** The loop of `[d,d,]`: each ',' starts another round, and the round at
      ']' fails. */
  lemma TrailingCommaItems(input: string)
    requires |input| == 6 && input[2] == ',' && input[4] == ',' && input[5] == ']'
    requires IsDigit(input[1]) && IsDigit(input[3])
    ensures ArrayItems(input, 1) == Err(5, InvalidElement)
  {
    SkipWhitespaceAtNonBlank(input, 5);
    DispatchInvalid(input, 5);
    DigitThenComma(input, 3);
    DigitThenComma(input, 1);
  }

  /** Any ',' of the array loop that a ']' follows, with only whitespace
      between: the next round parses an element at the ']', which is no
      element at all, and the loop fails there. */
  lemma TrailingCommaFails(input: string, item: string, q: nat)
    requires q < |input| && input[q] == ','
    requires var p := Lookahead(input, q + 1); p < |input| && input[p] == ']'
    ensures ItemsNext(input, item, q) == Err(Lookahead(input, q + 1), InvalidElement)
  {
    var p := Lookahead(input, q + 1);
    StartsWithHead(input, p, "true");
    StartsWithHead(input, p, "false");
    StartsWithHead(input, p, "null");
    DispatchInvalid(input, q + 1);
    ItemsNextComma(input, item, q);
  }

  /** A one-digit array item followed by ',' hands over to the next round. */
  lemma DigitThenComma(input: string, p: nat)
    requires p + 2 <= |input| && IsDigit(input[p]) && input[p + 1] == ','
    ensures ArrayItems(input, p) == Prepend("<number>" + [input[p]] + "</number>", ArrayItems(input, p + 2))
  {
    var item := "<number>" + [input[p]] + "</number>";
    NumberAt(input, p, p + 1);
    ItemsRound(input, p, item, p + 1);
    SkipWhitespaceAtNonBlank(input, p + 1);
    ItemsNextComma(input, item, p + 1);
  }

  /** A one-digit number right at `p`, delimited by the character after it. */
  lemma NumberAt(input: string, p: nat, q: nat)
    requires q == p + 1 < |input|
    requires IsDigit(input[p]) && !IsNumberChar(input[q])
    ensures ParseElement(input, p) == Ok("<number>" + [input[p]] + "</number>", q)
  {
    SkipWhitespaceAtNonBlank(input, p);
    DispatchNumber(input, p);
    assert NumberEnd(input, q) == q;
    assert input[p..q] == [input[p]];
  }

  /** A quoted one-character text right after the skipped character. */
  lemma OneCharString(input: string, pos: nat)
    requires pos + 2 < |input| && input[pos + 1] != '"' && input[pos + 2] == '"'
    ensures ParseString(input, pos) == Ok(input[pos + 1..pos + 2], pos + 3)
  {
    assert QuoteEnd(input, pos + 2) == pos + 2;
  }

  /** `{"k": "v"`: the member is read, the loop stops at the end of input,
      and the missing '}' is reported at the input's length. */
  lemma UnclosedObjectExample(input: string, outOfRange: string)
    requires input == "{\"k\": \"v\""
    ensures Parse(input, outOfRange)
      == Translation("", [ErrorLine(9, "Se esperaba '}' al final del objeto.")])
  {
    var name, value := input[2..3], "<string>" + input[7..8] + "</string>";
    var member := "<" + name + ">" + value + "</" + name + ">";
    UnclosedObjectMember(input, name, value, member);
    assert ParseElement(input, 0) == Err(9, ExpectedCloseBrace) by {
      ObjectAt(input, 0);
      SkipWhitespaceAtNonBlank(input, 1);
      ObjectBody(input, 1);
    }
  }

  /** The one round of the object loop in `{"k": "v"`. */
  lemma UnclosedObjectMember(input: string, name: string, value: string, member: string)
    requires |input| == 9 && input[1] == '"' && input[2] != '"' && input[3] == '"' && input[4] == ':'
    requires input[5] == ' ' && input[6] == '"' && input[7] != '"' && input[8] == '"'
    requires name == input[2..3] && value == "<string>" + input[7..8] + "</string>"
    requires member == "<" + name + ">" + value + "</" + name + ">"
    ensures ObjectMembers(input, 1) == Ok(member, 9)
  {
    OneCharString(input, 1);
    assert ParseElement(input, 5) == Ok(value, 9) by {
      assert SkipWhitespace(input, 6) == 6;
      assert Lookahead(input, 5) == 6;
      DispatchString(input, 5);
      OneCharString(input, 6);
    }
    SkipWhitespaceAtNonBlank(input, 1);
    SkipWhitespaceAtNonBlank(input, 4);
    MembersRound(input, 1, name, 4);
    MemberValueOk(input, name, 4, value, 9, member);
    MembersNextStop(input, member, 9);
  }

  /** `{`: the key reader skips the character past the end and finds no quote;
      the position reported is one past the input's length. */
  lemma LoneBraceExample(input: string, outOfRange: string)
    requires input == "{"
    ensures Parse(input, outOfRange) == Translation("", [ErrorLine(2, "Cadena sin cerrar.")])
  {
    assert ParseElement(input, 0) == Err(2, UnterminatedString) by {
      ObjectAt(input, 0);
      ObjectBody(input, 1);
    }
  }

  /** A document that is a digit followed by digits and dots, with no
      whitespace around it, is translated verbatim as one number. */
  lemma NumberDocument(input: string, outOfRange: string)
    requires |input| >= 1 && IsDigit(input[0])
    requires forall i | 0 <= i < |input| :: IsNumberChar(input[i])
    ensures Parse(input, outOfRange) == Translation("<number>" + input + "</number>", [])
  {
    NumberEndUnique(input, 0, |input|);
    assert input[0..|input|] == input;
    SkipWhitespaceAtNonBlank(input, 0);
    DispatchNumber(input, 0);
  }

  /** `1.2.3` is one number: dots are taken wherever they fall. */
  lemma DottedNumberExample(input: string, outOfRange: string)
    requires input == "1.2.3"
    ensures Parse(input, outOfRange) == Translation("<number>1.2.3</number>", [])
  {
    NumberDocument(input, outOfRange);
  }

  /** `{xk":1}`: the key reader skips the 'x' unchecked, so the key is `k`
      and the translation is that of `{"k":1}`. */
  lemma UncheckedKeyQuoteExample(input: string, outOfRange: string)
    requires input == "{xk\":1}"
    ensures Parse(input, outOfRange) == Translation(ToXml(JObject([Member("k", JNumber("1"))])), [])
  {
    var name := input[2..3];
    var value := "<number>" + [input[5]] + "</number>";
    var member := "<" + name + ">" + value + "</" + name + ">";
    UncheckedKeyMember(input, name, value, member);
    assert ParseElement(input, 0) == Ok("<object>" + member + "</object>", 7) by {
      ObjectAt(input, 0);
      ObjectFilled(input, 1, member, 6, "<object>" + member + "</object>");
    }
    assert name == "k" && [input[5]] == "1";
    assert MembersXml([Member("k", JNumber("1"))]) == member;
  }

  /** The one round of the object loop in `{xk":1}`. */
  lemma UncheckedKeyMember(input: string, name: string, value: string, member: string)
    requires |input| == 7 && input[2] != '"' && input[3] == '"' && input[4] == ':'
    requires !IsWhitespace(input[1])
    requires IsDigit(input[5]) && input[6] == '}'
    requires name == input[2..3] && value == "<number>" + [input[5]] + "</number>"
    requires member == "<" + name + ">" + value + "</" + name + ">"
    ensures ObjectMembers(input, 1) == Ok(member, 6)
  {
    OneCharString(input, 1);
    SkipWhitespaceAtNonBlank(input, 1);
    SkipWhitespaceAtNonBlank(input, 4);
    MembersRound(input, 1, name, 4);
    NumberAt(input, 5, 6);
    MemberValueOk(input, name, 4, value, 6, member);
    SkipWhitespaceAtNonBlank(input, 6);
    MembersNextStop(input, member, 6);
  }
}
