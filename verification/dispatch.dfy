/** The parser's control flow stated character by character: which production
    the lookahead selects, and what one round of each `do … while` loop does. */
module Dispatch {
  import opened Chars
  import opened Cursor
  import opened Translator

  /** The character the dispatch looks at: the first non-whitespace one. */
  function Lookahead(input: string, pos: nat): (p: nat)
    requires pos <= |input|
    ensures pos <= p <= |input|
    ensures p < |input| ==> !IsWhitespace(input[p])
  {
    SkipWhitespace(input, pos)
  }

  lemma DispatchObject(input: string, pos: nat)
    requires pos <= |input|
    requires var p := Lookahead(input, pos); p < |input| && input[p] == '{'
    ensures ParseElement(input, pos) == ParseObject(input, Lookahead(input, pos) + 1)
  {
    assert StartsWith(input, Lookahead(input, pos), "{");
  }

  lemma DispatchArray(input: string, pos: nat)
    requires pos <= |input|
    requires var p := Lookahead(input, pos); p < |input| && input[p] == '['
    ensures ParseElement(input, pos) == ParseArray(input, Lookahead(input, pos) + 1)
  {
    var p := Lookahead(input, pos);
    StartsWithHead(input, p, "{");
    assert StartsWith(input, p, "[");
  }

  /** An element that starts right on '{' is the object after it. */
  lemma ObjectAt(input: string, pos: nat)
    requires pos < |input| && input[pos] == '{'
    ensures ParseElement(input, pos) == ParseObject(input, pos + 1)
  {
    assert Lookahead(input, pos) == pos by {
      SkipWhitespaceAtNonBlank(input, pos);
    }
    DispatchObject(input, pos);
  }

  /** An element that starts right on '[' is the array after it. */
  lemma ArrayAt(input: string, pos: nat)
    requires pos < |input| && input[pos] == '['
    ensures ParseElement(input, pos) == ParseArray(input, pos + 1)
  {
    assert Lookahead(input, pos) == pos by {
      SkipWhitespaceAtNonBlank(input, pos);
    }
    DispatchArray(input, pos);
  }

  /** Any lookahead other than '{' and '[' is handled by the scalar branches. */
  lemma DispatchScalar(input: string, pos: nat)
    requires pos <= |input|
    requires var p := Lookahead(input, pos); !(p < |input| && input[p] in {'{', '['})
    ensures ParseElement(input, pos) == Scalar(input, Lookahead(input, pos))
  {
    var p := Lookahead(input, pos);
    StartsWithHead(input, p, "{");
    StartsWithHead(input, p, "[");
  }

  lemma ScalarString(input: string, p: nat)
    requires p < |input| && input[p] == '"'
    ensures Scalar(input, p) == Wrap("<string>", ParseString(input, p), "</string>")
  {
    assert StartsWith(input, p, "\"");
  }

  lemma DispatchString(input: string, pos: nat)
    requires pos <= |input|
    requires var p := Lookahead(input, pos); p < |input| && input[p] == '"'
    ensures ParseElement(input, pos) == Wrap("<string>", ParseString(input, Lookahead(input, pos)), "</string>")
  {
    DispatchScalar(input, pos);
    ScalarString(input, Lookahead(input, pos));
  }

  lemma ScalarTrue(input: string, p: nat)
    requires p <= |input|
    requires StartsWith(input, p, "true")
    ensures Scalar(input, p) == Ok("<boolean>true</boolean>", p + 4)
  {
    StartsWithHead(input, p, "true");
    StartsWithHead(input, p, "\"");
  }

  /** `true` is taken on its prefix alone: no boundary check. */
  lemma DispatchTrue(input: string, pos: nat)
    requires pos <= |input|
    requires StartsWith(input, Lookahead(input, pos), "true")
    ensures ParseElement(input, pos) == Ok("<boolean>true</boolean>", Lookahead(input, pos) + 4)
  {
    StartsWithHead(input, Lookahead(input, pos), "true");
    DispatchScalar(input, pos);
    ScalarTrue(input, Lookahead(input, pos));
  }

  lemma ScalarFalse(input: string, p: nat)
    requires p <= |input|
    requires StartsWith(input, p, "false")
    ensures Scalar(input, p) == Ok("<boolean>false</boolean>", p + 5)
  {
    StartsWithHead(input, p, "false");
    StartsWithHead(input, p, "\"");
    StartsWithHead(input, p, "true");
  }

  /** `false` is taken on its prefix alone: no boundary check. */
  lemma DispatchFalse(input: string, pos: nat)
    requires pos <= |input|
    requires StartsWith(input, Lookahead(input, pos), "false")
    ensures ParseElement(input, pos) == Ok("<boolean>false</boolean>", Lookahead(input, pos) + 5)
  {
    StartsWithHead(input, Lookahead(input, pos), "false");
    DispatchScalar(input, pos);
    ScalarFalse(input, Lookahead(input, pos));
  }

  lemma ScalarNull(input: string, p: nat)
    requires p <= |input|
    requires StartsWith(input, p, "null")
    ensures Scalar(input, p) == Ok("<null/>", p)
  {
    StartsWithHead(input, p, "null");
    StartsWithHead(input, p, "\"");
    StartsWithHead(input, p, "true");
    StartsWithHead(input, p, "false");
  }

  /** `null` yields `<null/>` and leaves the cursor on its 'n'. */
  lemma DispatchNull(input: string, pos: nat)
    requires pos <= |input|
    requires StartsWith(input, Lookahead(input, pos), "null")
    ensures ParseElement(input, pos) == Ok("<null/>", Lookahead(input, pos))
  {
    StartsWithHead(input, Lookahead(input, pos), "null");
    DispatchScalar(input, pos);
    ScalarNull(input, Lookahead(input, pos));
  }

  lemma ScalarNumber(input: string, p: nat)
    requires p < |input| && (IsDigit(input[p]) || input[p] == '-')
    ensures Scalar(input, p) == Ok("<number>" + input[p..NumberEnd(input, p)] + "</number>", NumberEnd(input, p))
  {
    StartsWithHead(input, p, "\"");
    StartsWithHead(input, p, "true");
    StartsWithHead(input, p, "false");
    StartsWithHead(input, p, "null");
  }

  /** A digit or '-' selects the number production, which never consumes the '-'. */
  lemma DispatchNumber(input: string, pos: nat)
    requires pos <= |input|
    requires var p := Lookahead(input, pos); p < |input| && (IsDigit(input[p]) || input[p] == '-')
    ensures var p := Lookahead(input, pos);
      ParseElement(input, pos) == Ok("<number>" + input[p..NumberEnd(input, p)] + "</number>", NumberEnd(input, p))
  {
    DispatchScalar(input, pos);
    ScalarNumber(input, Lookahead(input, pos));
  }

  /** At the end of input the dispatch reads past it: the JVM's out-of-range
      failure, not "Elemento inválido.". */
  lemma DispatchEnd(input: string, pos: nat)
    requires pos <= |input|
    requires Lookahead(input, pos) == |input|
    ensures ParseElement(input, pos) == Err(|input|, IndexOutOfRange)
  {
    DispatchScalar(input, pos);
  }

  lemma ScalarInvalid(input: string, p: nat)
    requires p < |input|
    requires input[p] !in {'{', '[', '"', '-'} && !IsDigit(input[p])
    requires !StartsWith(input, p, "true") && !StartsWith(input, p, "false") && !StartsWith(input, p, "null")
    ensures Scalar(input, p) == Err(p, InvalidElement)
  {
    StartsWithHead(input, p, "\"");
  }

  /** Any other lookahead character is an invalid element at its own index. */
  lemma DispatchInvalid(input: string, pos: nat)
    requires pos <= |input|
    requires var p := Lookahead(input, pos);
      && p < |input|
      && input[p] !in {'{', '[', '"', '-'}
      && !IsDigit(input[p])
      && !StartsWith(input, p, "true") && !StartsWith(input, p, "false") && !StartsWith(input, p, "null")
    ensures ParseElement(input, pos) == Err(Lookahead(input, pos), InvalidElement)
  {
    DispatchScalar(input, pos);
    ScalarInvalid(input, Lookahead(input, pos));
  }

  /** A round of the array loop: the element, then the loop test after its
      trailing whitespace. */
  lemma ItemsRound(input: string, pos: nat, item: string, q: nat)
    requires pos <= |input|
    requires ParseElement(input, pos) == Ok(item, q)
    ensures ArrayItems(input, pos) == ItemsNext(input, item, SkipWhitespace(input, q))
  {
  }

  /** A round of the object loop: the key after optional whitespace, then the
      rest of the member after the key's trailing whitespace. */
  lemma MembersRound(input: string, pos: nat, name: string, afterKey: nat)
    requires pos <= |input|
    requires ParseString(input, SkipWhitespace(input, pos)) == Ok(name, afterKey)
    ensures ObjectMembers(input, pos) == MemberValue(input, name, SkipWhitespace(input, afterKey))
  {
  }

  /** The array loop goes round again after a ','. */
  lemma ItemsNextComma(input: string, item: string, q: nat)
    requires q < |input| && input[q] == ','
    ensures ItemsNext(input, item, q) == Prepend(item, ArrayItems(input, q + 1))
  {
    assert StartsWith(input, q, ",");
  }

  /** The array loop ends at anything but a ','. */
  lemma ItemsNextStop(input: string, item: string, q: nat)
    requires q <= |input|
    requires !(q < |input| && input[q] == ',')
    ensures ItemsNext(input, item, q) == Ok(item, q)
  {
    StartsWithHead(input, q, ",");
  }

  /** The object loop goes round again after a ','. */
  lemma MembersNextComma(input: string, member: string, q: nat)
    requires q < |input| && input[q] == ','
    ensures MembersNext(input, member, q) == Prepend(member, ObjectMembers(input, q + 1))
  {
    assert StartsWith(input, q, ",");
  }

  /** The object loop ends at anything but a ','. */
  lemma MembersNextStop(input: string, member: string, q: nat)
    requires q <= |input|
    requires !(q < |input| && input[q] == ',')
    ensures MembersNext(input, member, q) == Ok(member, q)
  {
    StartsWithHead(input, q, ",");
  }

  /** After a key, anything but ':' is a missing colon, reported where the
      ':' was expected. */
  lemma MemberValueNoColon(input: string, name: string, c: nat)
    requires c <= |input|
    requires !(c < |input| && input[c] == ':')
    ensures MemberValue(input, name, c) == Err(c, ExpectedColon)
  {
    StartsWithHead(input, c, ":");
  }

  /** After a key and ':', the value's failure is the member's failure. */
  lemma MemberValueFails(input: string, name: string, c: nat)
    requires c < |input| && input[c] == ':'
    requires ParseElement(input, c + 1).Err?
    ensures MemberValue(input, name, c) == ParseElement(input, c + 1)
  {
    assert StartsWith(input, c, ":");
  }

  /** After a key, ':' and a value, the loop's test follows the value's
      trailing whitespace. */
  lemma MemberValueOk(input: string, name: string, c: nat, value: string, q: nat, member: string)
    requires c < |input| && input[c] == ':'
    requires ParseElement(input, c + 1) == Ok(value, q)
    requires member == "<" + name + ">" + value + "</" + name + ">"
    ensures MemberValue(input, name, c) == MembersNext(input, member, SkipWhitespace(input, q))
  {
    assert StartsWith(input, c, ":");
  }

  /** The object loop after a member that a ',' follows: the member's XML in
      front of what the rest of the loop returns. */
  lemma MembersStep(input: string, pos: nat, member: string, e: nat, rest: string, q: nat, all: string)
    requires pos <= |input| && e <= |input|
    requires ObjectMembers(input, pos) == MembersNext(input, member, SkipWhitespace(input, e))
    requires e < |input| && input[e] == ','
    requires ObjectMembers(input, e + 1) == Ok(rest, q)
    requires all == member + rest
    ensures ObjectMembers(input, pos) == Ok(all, q)
  {
    SkipWhitespaceAtNonBlank(input, e);
    MembersNextComma(input, member, e);
  }

  /** The object loop after a member that neither ',' nor whitespace follows:
      the loop ends there with that member alone. */
  lemma MembersLast(input: string, pos: nat, member: string, e: nat, all: string)
    requires pos <= |input| && e <= |input|
    requires ObjectMembers(input, pos) == MembersNext(input, member, SkipWhitespace(input, e))
    requires e < |input| ==> input[e] != ',' && !IsWhitespace(input[e])
    requires all == member
    ensures ObjectMembers(input, pos) == Ok(all, e)
  {
    SkipWhitespaceAtNonBlank(input, e);
    MembersNextStop(input, member, e);
  }

  /** The array loop after an item that a ',' follows. */
  lemma ItemsStep(input: string, pos: nat, item: string, e: nat, rest: string, q: nat, all: string)
    requires pos <= |input| && e <= |input|
    requires ArrayItems(input, pos) == ItemsNext(input, item, SkipWhitespace(input, e))
    requires e < |input| && input[e] == ','
    requires ArrayItems(input, e + 1) == Ok(rest, q)
    requires all == item + rest
    ensures ArrayItems(input, pos) == Ok(all, q)
  {
    SkipWhitespaceAtNonBlank(input, e);
    ItemsNextComma(input, item, e);
  }

  /** The array loop after an item that neither ',' nor whitespace follows. */
  lemma ItemsLast(input: string, pos: nat, item: string, e: nat, all: string)
    requires pos <= |input| && e <= |input|
    requires ArrayItems(input, pos) == ItemsNext(input, item, SkipWhitespace(input, e))
    requires e < |input| ==> input[e] != ',' && !IsWhitespace(input[e])
    requires all == item
    ensures ArrayItems(input, pos) == Ok(all, e)
  {
    SkipWhitespaceAtNonBlank(input, e);
    ItemsNextStop(input, item, e);
  }

  /** A whole round of the object loop at a key that starts right at `pos`:
      key, ':' right after it, then a value; the loop's test follows the
      value's trailing whitespace. */
  lemma MemberRound(input: string, pos: nat, name: string, c: nat, value: string, q: nat, member: string)
    requires pos < |input| && input[pos] == '"'
    requires ParseString(input, pos) == Ok(name, c)
    requires c < |input| && input[c] == ':'
    requires ParseElement(input, c + 1) == Ok(value, q)
    requires member == "<" + name + ">" + value + "</" + name + ">"
    ensures ObjectMembers(input, pos) == MembersNext(input, member, SkipWhitespace(input, q))
  {
    SkipWhitespaceAtNonBlank(input, pos);
    SkipWhitespaceAtNonBlank(input, c);
    MembersRound(input, pos, name, c);
    MemberValueOk(input, name, c, value, q, member);
  }

  /** An array whose body is not immediately ']' runs the loop and then
      needs a ']'. */
  lemma ArrayBody(input: string, pos: nat)
    requires pos <= |input|
    requires var p := SkipWhitespace(input, pos); !(p < |input| && input[p] == ']')
    ensures ParseArray(input, pos) ==
      match ArrayItems(input, SkipWhitespace(input, pos))
      case Err(at, fault) => Err(at, fault)
      case Ok(items, q) =>
        if q < |input| && input[q] == ']' then Ok("<array>" + items + "</array>", q + 1)
        else Err(q, ExpectedCloseBracket)
  {
    var p := SkipWhitespace(input, pos);
    StartsWithHead(input, p, "]");
    match ArrayItems(input, p)
    case Err(_, _) =>
    case Ok(_, q) =>
      StartsWithHead(input, q, "]");
      if q < |input| && input[q] == ']' {
        assert StartsWith(input, q, "]");
      }
  }

  /** An array body that starts on an item and whose loop stops right on a
      ']' closes there. */
  lemma ArrayFilled(input: string, pos: nat, items: string, q: nat, all: string)
    requires pos < |input| && input[pos] != ']' && !IsWhitespace(input[pos])
    requires ArrayItems(input, pos) == Ok(items, q)
    requires q < |input| && input[q] == ']'
    requires all == "<array>" + items + "</array>"
    ensures ParseArray(input, pos) == Ok(all, q + 1)
  {
    SkipWhitespaceAtNonBlank(input, pos);
    ArrayBody(input, pos);
  }

  /** An object body that starts on a member and whose loop stops right on a
      '}' closes there. */
  lemma ObjectFilled(input: string, pos: nat, members: string, q: nat, all: string)
    requires pos < |input| && input[pos] != '}' && !IsWhitespace(input[pos])
    requires ObjectMembers(input, pos) == Ok(members, q)
    requires q < |input| && input[q] == '}'
    requires all == "<object>" + members + "</object>"
    ensures ParseObject(input, pos) == Ok(all, q + 1)
  {
    SkipWhitespaceAtNonBlank(input, pos);
    ObjectBody(input, pos);
  }

  /** An object whose body is not immediately '}' runs the loop and then
      needs a '}'. */
  lemma ObjectBody(input: string, pos: nat)
    requires pos <= |input|
    requires var p := SkipWhitespace(input, pos); !(p < |input| && input[p] == '}')
    ensures ParseObject(input, pos) ==
      match ObjectMembers(input, SkipWhitespace(input, pos))
      case Err(at, fault) => Err(at, fault)
      case Ok(members, q) =>
        if q < |input| && input[q] == '}' then Ok("<object>" + members + "</object>", q + 1)
        else Err(q, ExpectedCloseBrace)
  {
    var p := SkipWhitespace(input, pos);
    StartsWithHead(input, p, "}");
    match ObjectMembers(input, p)
    case Err(_, _) =>
    case Ok(_, q) =>
      StartsWithHead(input, q, "}");
      if q < |input| && input[q] == '}' {
        assert StartsWith(input, q, "}");
      }
  }

  /** A body that starts right on ']' is the empty array. */
  lemma EmptyArrayAt(input: string, pos: nat)
    requires pos < |input| && input[pos] == ']'
    ensures ParseArray(input, pos) == Ok("<array></array>", pos + 1)
  {
    SkipWhitespaceAtNonBlank(input, pos);
    EmptyContainers(input, pos);
  }

  /** A body that starts right on '}' is the empty object. */
  lemma EmptyObjectAt(input: string, pos: nat)
    requires pos < |input| && input[pos] == '}'
    ensures ParseObject(input, pos) == Ok("<object></object>", pos + 1)
  {
    SkipWhitespaceAtNonBlank(input, pos);
    EmptyContainers(input, pos);
  }

  /** `[` then only whitespace then `]` is the empty array; likewise for objects. */
  lemma EmptyContainers(input: string, pos: nat)
    requires pos <= |input|
    ensures var p := SkipWhitespace(input, pos);
      p < |input| && input[p] == ']' ==> ParseArray(input, pos) == Ok("<array></array>", p + 1)
    ensures var p := SkipWhitespace(input, pos);
      p < |input| && input[p] == '}' ==> ParseObject(input, pos) == Ok("<object></object>", p + 1)
  {
    var p := SkipWhitespace(input, pos);
    if p < |input| && input[p] == ']' {
      assert StartsWith(input, p, "]");
    }
    if p < |input| && input[p] == '}' {
      assert StartsWith(input, p, "}");
    }
  }
}
