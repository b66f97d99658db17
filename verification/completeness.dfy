/** Every well-formed tree, written as compact JSON, is translated into its
    reference XML with no error: the parser accepts all it is meant to. */
module Completeness {
  import opened Chars
  import opened Cursor
  import opened Translator
  import opened JsonTree
  import opened Dispatch
  import opened Lexemes

  /** The character at `k`, if any, cannot extend a number. */
  predicate Delimited(input: string, k: nat) {
    k < |input| ==> !IsNumberChar(input[k])
  }

  /** The compact text of a well-formed value is never empty and starts with
      one of the dispatch characters. */
  lemma FirstChar(j: Json)
    requires Wf(j)
    ensures |Serialize(j)| >= 1
    ensures var c := Serialize(j)[0];
      c == '{' || c == '[' || c == '"' || c == 't' || c == 'f' || IsDigit(c)
  {
  }

  /** `parseString()` reads a quoted text without quotes inside back verbatim. */
  lemma StringComplete(input: string, pos: nat, s: string)
    requires StringText(s)
    requires StartsWith(input, pos, "\"" + s + "\"")
    ensures ParseString(input, pos) == Ok(s, pos + |s| + 2)
  {
    StartsWithConcat(input, pos, "\"" + s, "\"");
    StartsWithConcat(input, pos, "\"", s);
    StartsWithSlice(input, pos + 1, s);
    forall i | pos + 1 <= i < pos + 1 + |s|
      ensures input[i] != '"'
    {
      assert input[pos + 1 + (i - pos - 1)] == s[i - pos - 1];
    }
    StartsWithHead(input, pos + 1 + |s|, "\"");
    QuoteEndUnique(input, pos + 1, pos + 1 + |s|);
  }

  /** The number production reads a well-formed number text back verbatim
      when the character after it cannot continue it. */
  lemma NumberComplete(input: string, pos: nat, d: string)
    requires NumberText(d)
    requires StartsWith(input, pos, d)
    requires Delimited(input, pos + |d|)
    ensures NumberEnd(input, pos) == pos + |d|
    ensures input[pos..pos + |d|] == d
  {
    StartsWithSlice(input, pos, d);
    forall i | pos <= i < pos + |d|
      ensures IsNumberChar(input[i])
    {
      assert input[pos + (i - pos)] == d[i - pos];
    }
    NumberEndUnique(input, pos, pos + |d|);
  }

  lemma TrueElementComplete(input: string, pos: nat)
    requires StartsWith(input, pos, Serialize(JBool(true)))
    ensures ParseElement(input, pos) == Ok(ToXml(JBool(true)), pos + |Serialize(JBool(true))|)
  {
    assert Serialize(JBool(true)) == "true";
    StartsWithHead(input, pos, "true");
    SkipWhitespaceAtNonBlank(input, pos);
    DispatchTrue(input, pos);
  }

  lemma FalseElementComplete(input: string, pos: nat)
    requires StartsWith(input, pos, Serialize(JBool(false)))
    ensures ParseElement(input, pos) == Ok(ToXml(JBool(false)), pos + |Serialize(JBool(false))|)
  {
    assert Serialize(JBool(false)) == "false";
    StartsWithHead(input, pos, "false");
    SkipWhitespaceAtNonBlank(input, pos);
    DispatchFalse(input, pos);
  }

  lemma NumberElementComplete(input: string, pos: nat, d: string)
    requires NumberText(d)
    requires StartsWith(input, pos, Serialize(JNumber(d)))
    requires Delimited(input, pos + |Serialize(JNumber(d))|)
    ensures ParseElement(input, pos) == Ok(ToXml(JNumber(d)), pos + |Serialize(JNumber(d))|)
  {
    StartsWithHead(input, pos, d);
    SkipWhitespaceAtNonBlank(input, pos);
    NumberComplete(input, pos, d);
    DispatchNumber(input, pos);
  }

  lemma StringElementComplete(input: string, pos: nat, s: string)
    requires StringText(s)
    requires StartsWith(input, pos, Serialize(JString(s)))
    ensures ParseElement(input, pos) == Ok(ToXml(JString(s)), pos + |Serialize(JString(s))|)
  {
    StartsWithHead(input, pos, "\"" + s + "\"");
    SkipWhitespaceAtNonBlank(input, pos);
    StringComplete(input, pos, s);
    DispatchString(input, pos);
  }

  lemma {:induction false} ElementComplete(input: string, pos: nat, j: Json)
    requires Wf(j)
    requires StartsWith(input, pos, Serialize(j))
    requires Delimited(input, pos + |Serialize(j)|)
    ensures ParseElement(input, pos) == Ok(ToXml(j), pos + |Serialize(j)|)
    decreases j, 5
  {
    match j
    case JBool(b) =>
      if b {
        TrueElementComplete(input, pos);
      } else {
        FalseElementComplete(input, pos);
      }
    case JNumber(d) =>
      NumberElementComplete(input, pos, d);
    case JString(s) =>
      StringElementComplete(input, pos, s);
    case JArray(items) =>
      ArrayElementComplete(input, pos, items);
    case JObject(ms) =>
      ObjectElementComplete(input, pos, ms);
  }

  lemma {:induction false} ArrayElementComplete(input: string, pos: nat, items: seq<Json>)
    requires ItemsWf(items)
    requires StartsWith(input, pos, Serialize(JArray(items)))
    ensures ParseElement(input, pos) == Ok(ToXml(JArray(items)), pos + |Serialize(JArray(items))|)
    decreases items, 4
  {
    var body := SerializeItems(items) + "]";
    assert Serialize(JArray(items)) == "[" + body;
    StartsWithHead(input, pos, "[" + body);
    ArrayAt(input, pos);
    assert ParseArray(input, pos + 1) == Ok(ToXml(JArray(items)), pos + |Serialize(JArray(items))|) by {
      StartsWithConcat(input, pos, "[", body);
      ArrayComplete(input, pos + 1, items);
    }
  }

  lemma {:induction false} ObjectElementComplete(input: string, pos: nat, ms: seq<Member>)
    requires MembersWf(ms)
    requires StartsWith(input, pos, Serialize(JObject(ms)))
    ensures ParseElement(input, pos) == Ok(ToXml(JObject(ms)), pos + |Serialize(JObject(ms))|)
    decreases ms, 4
  {
    var body := SerializeMembers(ms) + "}";
    assert Serialize(JObject(ms)) == "{" + body;
    StartsWithHead(input, pos, "{" + body);
    ObjectAt(input, pos);
    assert ParseObject(input, pos + 1) == Ok(ToXml(JObject(ms)), pos + |Serialize(JObject(ms))|) by {
      StartsWithConcat(input, pos, "{", body);
      ObjectComplete(input, pos + 1, ms);
    }
  }

  /** `parseArray()` entered just after the '[' of a compact array. */
  lemma {:induction false} ArrayComplete(input: string, pos: nat, items: seq<Json>)
    requires ItemsWf(items)
    requires StartsWith(input, pos, SerializeItems(items) + "]")
    ensures ParseArray(input, pos) == Ok("<array>" + ItemsXml(items) + "</array>", pos + |SerializeItems(items)| + 1)
    decreases items, 3
  {
    var q := pos + |SerializeItems(items)|;
    ArrayText(input, pos, items, q);
    if items == [] {
      EmptyArrayAt(input, pos);
    } else {
      ItemsComplete(input, pos, items);
      ArrayFilled(input, pos, ItemsXml(items), q, "<array>" + ItemsXml(items) + "</array>");
    }
  }

  /** The compact text of an array body: the items, then the ']' right after
      them; a non-empty body starts on an item. */
  lemma ArrayText(input: string, pos: nat, items: seq<Json>, q: nat)
    requires ItemsWf(items)
    requires StartsWith(input, pos, SerializeItems(items) + "]")
    requires q == pos + |SerializeItems(items)|
    ensures StartsWith(input, pos, SerializeItems(items))
    ensures q < |input| && input[q] == ']'
    ensures items != [] ==> pos < |input| && input[pos] != ']' && !IsWhitespace(input[pos])
  {
    var body := SerializeItems(items);
    StartsWithConcat(input, pos, body, "]");
    StartsWithHead(input, q, "]");
    if items != [] {
      FirstChar(items[0]);
      assert body[0] == Serialize(items[0])[0];
      StartsWithHead(input, pos, body);
    }
  }

  /** The compact text of two or more items: the first item, a ',' and the rest. */
  lemma ItemsText(input: string, pos: nat, items: seq<Json>, e: nat)
    requires |items| >= 2
    requires StartsWith(input, pos, SerializeItems(items))
    requires e == pos + |Serialize(items[0])|
    ensures && StartsWith(input, pos, Serialize(items[0]))
      && e < |input| && input[e] == ','
      && StartsWith(input, e + 1, SerializeItems(items[1..]))
      && pos + |SerializeItems(items)| == e + 1 + |SerializeItems(items[1..])|
  {
    var head := Serialize(items[0]);
    var rest := SerializeItems(items[1..]);
    assert SerializeItems(items) == head + "," + rest;
    StartsWithConcat(input, pos, head + ",", rest);
    StartsWithConcat(input, pos, head, ",");
    StartsWithHead(input, pos + |head|, ",");
  }

  lemma ItemsWfTail(items: seq<Json>)
    requires |items| >= 1 && ItemsWf(items)
    ensures Wf(items[0]) && ItemsWf(items[1..])
  {
    forall i | 0 <= i < |items[1..]| ensures Wf(items[1..][i]) {
      assert items[1..][i] == items[i + 1];
    }
  }

  lemma {:induction false} ItemsComplete(input: string, pos: nat, items: seq<Json>)
    requires |items| >= 1 && ItemsWf(items)
    requires StartsWith(input, pos, SerializeItems(items))
    requires StartsWith(input, pos + |SerializeItems(items)|, "]")
    ensures ArrayItems(input, pos) == Ok(ItemsXml(items), pos + |SerializeItems(items)|)
    decreases items, 2
  {
    if |items| == 1 {
      LastItemComplete(input, pos, items);
    } else {
      NextItemsComplete(input, pos, items);
    }
  }

  /** The last item of an array: the loop stops at the ']' after it. */
  lemma {:induction false} LastItemComplete(input: string, pos: nat, items: seq<Json>)
    requires |items| == 1 && ItemsWf(items)
    requires StartsWith(input, pos, SerializeItems(items))
    requires StartsWith(input, pos + |SerializeItems(items)|, "]")
    ensures ArrayItems(input, pos) == Ok(ItemsXml(items), pos + |SerializeItems(items)|)
    decreases items, 1
  {
    var e := pos + |Serialize(items[0])|;
    ItemsWfTail(items);
    assert SerializeItems(items) == Serialize(items[0]);
    StartsWithHead(input, e, "]");
    ElementComplete(input, pos, items[0]);
    ItemsRound(input, pos, ToXml(items[0]), e);
    assert ItemsXml(items) == ToXml(items[0]) + ItemsXml([]);
    ItemsLast(input, pos, ToXml(items[0]), e, ItemsXml(items));
  }

  /** An item that a ',' and further items follow. */
  lemma {:induction false} NextItemsComplete(input: string, pos: nat, items: seq<Json>)
    requires |items| >= 2 && ItemsWf(items)
    requires StartsWith(input, pos, SerializeItems(items))
    requires StartsWith(input, pos + |SerializeItems(items)|, "]")
    ensures ArrayItems(input, pos) == Ok(ItemsXml(items), pos + |SerializeItems(items)|)
    decreases items, 1
  {
    var e := pos + |Serialize(items[0])|;
    ItemsWfTail(items);
    NextItemsText(input, pos, items, e);
    ItemsComplete(input, e + 1, items[1..]);
    ElementComplete(input, pos, items[0]);
    NextItemsJoin(input, pos, items, e);
  }

  /** What the compact text of two or more items tells the two recursive
      steps: the first item up to a ',', the rest up to the ']'. */
  lemma NextItemsText(input: string, pos: nat, items: seq<Json>, e: nat)
    requires |items| >= 2
    requires StartsWith(input, pos, SerializeItems(items))
    requires StartsWith(input, pos + |SerializeItems(items)|, "]")
    requires e == pos + |Serialize(items[0])|
    ensures StartsWith(input, pos, Serialize(items[0])) && Delimited(input, e)
    ensures StartsWith(input, e + 1, SerializeItems(items[1..]))
    ensures StartsWith(input, e + 1 + |SerializeItems(items[1..])|, "]")
    ensures e < |input| && input[e] == ','
    ensures pos + |SerializeItems(items)| == e + 1 + |SerializeItems(items[1..])|
  {
    ItemsText(input, pos, items, e);
  }

  /** The two recursive steps put together: the first item's XML in front of
      the rest's. */
  lemma NextItemsJoin(input: string, pos: nat, items: seq<Json>, e: nat)
    requires |items| >= 2 && pos <= |input|
    requires e == pos + |Serialize(items[0])|
    requires e < |input| && input[e] == ','
    requires pos + |SerializeItems(items)| == e + 1 + |SerializeItems(items[1..])|
    requires ParseElement(input, pos) == Ok(ToXml(items[0]), pos + |Serialize(items[0])|)
    requires ArrayItems(input, e + 1) == Ok(ItemsXml(items[1..]), e + 1 + |SerializeItems(items[1..])|)
    ensures ArrayItems(input, pos) == Ok(ItemsXml(items), pos + |SerializeItems(items)|)
  {
    ItemsRound(input, pos, ToXml(items[0]), e);
    ItemsStep(input, pos, ToXml(items[0]), e, ItemsXml(items[1..]), pos + |SerializeItems(items)|, ItemsXml(items));
  }

  /** `parseObject()` entered just after the '{' of a compact object. */
  lemma {:induction false} ObjectComplete(input: string, pos: nat, ms: seq<Member>)
    requires MembersWf(ms)
    requires StartsWith(input, pos, SerializeMembers(ms) + "}")
    ensures ParseObject(input, pos) == Ok("<object>" + MembersXml(ms) + "</object>", pos + |SerializeMembers(ms)| + 1)
    decreases ms, 3
  {
    var q := pos + |SerializeMembers(ms)|;
    ObjectText(input, pos, ms, q);
    if ms == [] {
      EmptyObjectAt(input, pos);
    } else {
      MembersComplete(input, pos, ms);
      ObjectFilled(input, pos, MembersXml(ms), q, "<object>" + MembersXml(ms) + "</object>");
    }
  }

  /** The compact text of an object body: the members, then the '}' right
      after them; a non-empty body starts on the '"' of a key. */
  lemma ObjectText(input: string, pos: nat, ms: seq<Member>, q: nat)
    requires StartsWith(input, pos, SerializeMembers(ms) + "}")
    requires q == pos + |SerializeMembers(ms)|
    ensures StartsWith(input, pos, SerializeMembers(ms))
    ensures q < |input| && input[q] == '}'
    ensures ms != [] ==> pos < |input| && input[pos] == '"'
  {
    var body := SerializeMembers(ms);
    StartsWithConcat(input, pos, body, "}");
    StartsWithHead(input, q, "}");
    if ms != [] {
      assert SerializeMember(ms[0])[0] == '"';
      assert body[0] == '"';
      StartsWithHead(input, pos, body);
    }
  }

  /** The compact text of a member: the quoted key, then ':' right after it,
      then the value. */
  lemma MemberText(input: string, pos: nat, m: Member, c: nat)
    requires StringText(m.key)
    requires StartsWith(input, pos, SerializeMember(m))
    requires c == pos + |m.key| + 2
    ensures && pos < |input| && input[pos] == '"'
      && ParseString(input, pos) == Ok(m.key, c)
      && c < |input| && input[c] == ':'
      && StartsWith(input, c + 1, Serialize(m.value))
      && pos + |SerializeMember(m)| == c + 1 + |Serialize(m.value)|
  {
    var quoted := "\"" + m.key + "\"";
    assert SerializeMember(m) == quoted + ":" + Serialize(m.value);
    StartsWithConcat(input, pos, quoted + ":", Serialize(m.value));
    StartsWithConcat(input, pos, quoted, ":");
    StartsWithHead(input, pos, quoted);
    StringComplete(input, pos, m.key);
    StartsWithHead(input, pos + |quoted|, ":");
  }

  /** One member `"key":value` at `pos`: the object loop's round up to the
      point where it tests for ','. */
  lemma {:induction false} MemberComplete(input: string, pos: nat, m: Member)
    requires StringText(m.key) && Wf(m.value)
    requires StartsWith(input, pos, SerializeMember(m))
    requires Delimited(input, pos + |SerializeMember(m)|)
    ensures ObjectMembers(input, pos) ==
      MembersNext(input, MemberXml(m), SkipWhitespace(input, pos + |SerializeMember(m)|))
    decreases m, 0
  {
    var c := pos + |m.key| + 2;
    MemberText(input, pos, m, c);
    ElementComplete(input, c + 1, m.value);
    MemberRound(input, pos, m.key, c, ToXml(m.value), pos + |SerializeMember(m)|, MemberXml(m));
    assert ObjectMembers(input, pos) == MembersNext(input, MemberXml(m), SkipWhitespace(input, pos + |SerializeMember(m)|));
  }

  /** The compact text of two or more members: the first member, a ',' and
      the rest. */
  lemma MembersText(input: string, pos: nat, ms: seq<Member>, e: nat)
    requires |ms| >= 2
    requires StartsWith(input, pos, SerializeMembers(ms))
    requires e == pos + |SerializeMember(ms[0])|
    ensures && StartsWith(input, pos, SerializeMember(ms[0]))
      && e < |input| && input[e] == ','
      && StartsWith(input, e + 1, SerializeMembers(ms[1..]))
      && pos + |SerializeMembers(ms)| == e + 1 + |SerializeMembers(ms[1..])|
  {
    var head := SerializeMember(ms[0]);
    var rest := SerializeMembers(ms[1..]);
    assert SerializeMembers(ms) == head + "," + rest;
    StartsWithConcat(input, pos, head + ",", rest);
    StartsWithConcat(input, pos, head, ",");
    StartsWithHead(input, pos + |head|, ",");
  }

  lemma MembersWfTail(ms: seq<Member>)
    requires |ms| >= 1 && MembersWf(ms)
    ensures StringText(ms[0].key) && Wf(ms[0].value) && MembersWf(ms[1..])
  {
    forall i | 0 <= i < |ms[1..]| ensures StringText(ms[1..][i].key) && Wf(ms[1..][i].value) {
      assert ms[1..][i] == ms[i + 1];
    }
  }

  lemma {:induction false} MembersComplete(input: string, pos: nat, ms: seq<Member>)
    requires |ms| >= 1 && MembersWf(ms)
    requires StartsWith(input, pos, SerializeMembers(ms))
    requires StartsWith(input, pos + |SerializeMembers(ms)|, "}")
    ensures ObjectMembers(input, pos) == Ok(MembersXml(ms), pos + |SerializeMembers(ms)|)
    decreases ms, 2
  {
    if |ms| == 1 {
      LastMemberComplete(input, pos, ms);
    } else {
      NextMembersComplete(input, pos, ms);
    }
  }

  /** The last member of an object: the loop stops at the '}' after it. */
  lemma {:induction false} LastMemberComplete(input: string, pos: nat, ms: seq<Member>)
    requires |ms| == 1 && MembersWf(ms)
    requires StartsWith(input, pos, SerializeMembers(ms))
    requires StartsWith(input, pos + |SerializeMembers(ms)|, "}")
    ensures ObjectMembers(input, pos) == Ok(MembersXml(ms), pos + |SerializeMembers(ms)|)
    decreases ms, 1
  {
    var e := pos + |SerializeMember(ms[0])|;
    MembersWfTail(ms);
    assert SerializeMembers(ms) == SerializeMember(ms[0]);
    StartsWithHead(input, e, "}");
    MemberComplete(input, pos, ms[0]);
    assert MembersXml(ms) == MemberXml(ms[0]) + MembersXml([]);
    MembersLast(input, pos, MemberXml(ms[0]), e, MembersXml(ms));
  }

  /** A member that a ',' and further members follow. */
  lemma {:induction false} NextMembersComplete(input: string, pos: nat, ms: seq<Member>)
    requires |ms| >= 2 && MembersWf(ms)
    requires StartsWith(input, pos, SerializeMembers(ms))
    requires StartsWith(input, pos + |SerializeMembers(ms)|, "}")
    ensures ObjectMembers(input, pos) == Ok(MembersXml(ms), pos + |SerializeMembers(ms)|)
    decreases ms, 1
  {
    var e := pos + |SerializeMember(ms[0])|;
    MembersWfTail(ms);
    NextMembersText(input, pos, ms, e);
    MembersComplete(input, e + 1, ms[1..]);
    NextMembersJoin(input, pos, ms[0], e, MembersXml(ms[1..]), e + 1 + |SerializeMembers(ms[1..])|);
  }

  /** What the compact text of two or more members tells the two recursive
      steps: the first member up to a ',', the rest up to the '}'. */
  lemma NextMembersText(input: string, pos: nat, ms: seq<Member>, e: nat)
    requires |ms| >= 2
    requires StartsWith(input, pos, SerializeMembers(ms))
    requires StartsWith(input, pos + |SerializeMembers(ms)|, "}")
    requires e == pos + |SerializeMember(ms[0])|
    ensures StartsWith(input, pos, SerializeMember(ms[0])) && Delimited(input, e)
    ensures StartsWith(input, e + 1, SerializeMembers(ms[1..]))
    ensures StartsWith(input, e + 1 + |SerializeMembers(ms[1..])|, "}")
    ensures e < |input| && input[e] == ','
    ensures pos + |SerializeMembers(ms)| == e + 1 + |SerializeMembers(ms[1..])|
  {
    MembersText(input, pos, ms, e);
  }

  /** The two recursive steps put together: the first member's XML in front
      of the rest's. */
  lemma NextMembersJoin(input: string, pos: nat, m: Member, e: nat, rest: string, z: nat)
    requires pos <= |input|
    requires e == pos + |SerializeMember(m)| && e < |input| && input[e] == ','
    requires StringText(m.key) && Wf(m.value)
    requires StartsWith(input, pos, SerializeMember(m))
    requires ObjectMembers(input, e + 1) == Ok(rest, z)
    ensures ObjectMembers(input, pos) == Ok(MemberXml(m) + rest, z)
    decreases m, 1
  {
    MemberComplete(input, pos, m);
    MembersStep(input, pos, MemberXml(m), e, rest, z, MemberXml(m) + rest);
  }

  /** A whole document that is the compact text of a well-formed tree
      translates to that tree's XML, with an empty error list. */
  lemma TranslateSerialized(j: Json, outOfRange: string)
    requires Wf(j)
    ensures Parse(Serialize(j), outOfRange) == Translation(ToXml(j), [])
  {
    var input := Serialize(j);
    ElementComplete(input, 0, j);
  }

  /** The end check skips no whitespace: one trailing space after an otherwise
      translatable document is reported as unexpected content at its index,
      and the returned text is still the whole element's XML. */
  lemma TrailingSpaceRejected(j: Json, outOfRange: string)
    requires Wf(j)
    ensures var n := |Serialize(j)|;
      Parse(Serialize(j) + " ", outOfRange)
      == Translation(ToXml(j), [ErrorLine(n, "Contenido inesperado al final del archivo.")])
  {
    var input := Serialize(j) + " ";
    var xml, n := ToXml(j), |Serialize(j)|;
    assert ParseElement(input, 0) == Ok(xml, n) by {
      StartsWithConcat(input, 0, Serialize(j), " ");
      assert input[|Serialize(j)|] == ' ';
      ElementComplete(input, 0, j);
    }
  }
}
