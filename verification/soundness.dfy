/** Every input a translation accepts spells a well-formed tree, and the XML
    it returns is that tree's: the accepted documents are exactly the texts
    of the well-formed layouts of `Layout`. The two scalar productions that
    leave the cursor where they started (`null`, and a number read at '-')
    are what keeps this from holding element by element: they succeed, but
    whatever encloses them then fails. */
module Soundness {
  import opened Chars
  import opened Cursor
  import opened Translator
  import opened JsonTree
  import opened Dispatch
  import opened Lexemes
  import opened Layout
  import Completeness
  import LayoutCompleteness

  /** The cursor rests on the 'n' of a `null` or on a '-': the position a
      production that consumed nothing leaves behind. No loop test, closing
      bracket or end check accepts it. */
  predicate Stuck(input: string, q: nat) {
    q < |input| && (input[q] == 'n' || input[q] == '-')
  }

  /** Whitespace skipping does not move off a stuck position. */
  lemma SkipAtStuck(input: string, q: nat)
    ensures Stuck(input, q) ==> SkipWhitespace(input, q) == q
  {
    if Stuck(input, q) {
      SkipWhitespaceAtNonBlank(input, q);
    }
  }

  // ---------------------------------------------------------------------
  // Putting the text back together
  // ---------------------------------------------------------------------

  /** What a skip steps over is a whitespace run that sits in the input. */
  lemma Gap(input: string, a: nat) returns (w: string)
    requires a <= |input|
    ensures Blank(w) && StartsWith(input, a, w) && a + |w| == SkipWhitespace(input, a)
  {
    var b := SkipWhitespace(input, a);
    w := input[a..b];
    SkipWhitespaceOverBlanks(input, a);
    StartsWithSlice(input, a, w);
    forall i | 0 <= i < |w|
      ensures IsWhitespace(w[i])
    {
      assert w[i] == input[a + i];
    }
  }

  /** The text `parseString()` read, with the character it skipped and the
      closing quote around it. */
  lemma QuotedText(input: string, p: nat, s: string)
    requires p < |input| && input[p] == '"'
    requires p + |s| + 2 <= |input| && input[p + 1..p + 1 + |s|] == s && input[p + 1 + |s|] == '"'
    ensures StartsWith(input, p, "\"" + s + "\"")
  {
    StartsWithSlice(input, p + 1, s);
    assert StartsWith(input, p, "\"");
    assert StartsWith(input, p + 1 + |s|, "\"");
    StartsWithConcat(input, p, "\"", s);
    StartsWithConcat(input, p, "\"" + s, "\"");
  }

  /** Brackets around whitespace and the children's text. */
  lemma BracketsJoin(input: string, p: nat, open: string, inner: string, children: string, close: string)
    requires StartsWith(input, p, open)
    requires StartsWith(input, p + |open|, inner)
    requires StartsWith(input, p + |open| + |inner|, children)
    requires StartsWith(input, p + |open| + |inner| + |children|, close)
    ensures StartsWith(input, p, open + inner + children + close)
  {
    StartsWithConcat(input, p, open, inner);
    StartsWithConcat(input, p, open + inner, children);
    StartsWithConcat(input, p, open + inner + children, close);
  }

  /** A compact scalar after whitespace. */
  lemma CompactJoin(input: string, pos: nat, w: string, v: Json) returns (d: Doc)
    requires Blank(w) && StartsWith(input, pos, w) && Wf(v)
    requires StartsWith(input, pos + |w|, Serialize(v))
    ensures d == Compact(w, v) && DocWf(d) && Erase(d) == v
    ensures StartsWith(input, pos, Text(d)) && |Text(d)| == |w| + |Serialize(v)|
  {
    d := Compact(w, v);
    StartsWithConcat(input, pos, w, Serialize(v));
  }

  /** An array after whitespace: the '[' at `pos + |w|`, the whitespace
      `inner`, the elements and the ']'. */
  lemma ArrayJoin(input: string, pos: nat, w: string, inner: string, items: seq<Item>) returns (d: Doc)
    requires Blank(w) && StartsWith(input, pos, w)
    requires pos + |w| < |input| && input[pos + |w|] == '['
    requires Blank(inner) && ItemsDocWf(items)
    requires StartsWith(input, pos + |w| + 1, inner)
    requires StartsWith(input, pos + |w| + 1 + |inner|, ItemsText(items))
    requires StartsWith(input, pos + |w| + 1 + |inner| + |ItemsText(items)|, "]")
    ensures d == ArrayDoc(w, inner, items) && DocWf(d) && Erase(d) == JArray(ItemsErase(items))
    ensures StartsWith(input, pos, Text(d)) && pos + |Text(d)| == pos + |w| + 1 + |inner| + |ItemsText(items)| + 1
  {
    d := ArrayDoc(w, inner, items);
    assert StartsWith(input, pos + |w|, "[");
    BracketsJoin(input, pos + |w|, "[", inner, ItemsText(items), "]");
    StartsWithConcat(input, pos, w, Body(d));
  }

  /** An object after whitespace: the '{' at `pos + |w|`, the whitespace
      `inner`, the members and the '}'. */
  lemma ObjectJoin(input: string, pos: nat, w: string, inner: string, fields: seq<Field>) returns (d: Doc)
    requires Blank(w) && StartsWith(input, pos, w)
    requires pos + |w| < |input| && input[pos + |w|] == '{'
    requires Blank(inner) && FieldsDocWf(fields) && (fields != [] ==> fields[0].open != '}')
    requires StartsWith(input, pos + |w| + 1, inner)
    requires StartsWith(input, pos + |w| + 1 + |inner|, FieldsText(fields))
    requires StartsWith(input, pos + |w| + 1 + |inner| + |FieldsText(fields)|, "}")
    ensures d == ObjectDoc(w, inner, fields) && DocWf(d) && Erase(d) == JObject(FieldsErase(fields))
    ensures StartsWith(input, pos, Text(d)) && pos + |Text(d)| == pos + |w| + 1 + |inner| + |FieldsText(fields)| + 1
  {
    d := ObjectDoc(w, inner, fields);
    assert StartsWith(input, pos + |w|, "{");
    BracketsJoin(input, pos + |w|, "{", inner, FieldsText(fields), "}");
    StartsWithConcat(input, pos, w, Body(d));
  }

  /** One member, token by token: `k` is where the character opening the
      key sits, `a` is just after the key's closing '"', `c` is where the
      ':' sits, `q` is just after the value and `e` after the whitespace
      that follows it. */
  lemma FieldJoin(input: string, pos: nat, f: Field, k: nat, a: nat, c: nat, q: nat, e: nat)
    requires k == pos + |f.keyPre| && a == k + 1 + |f.key| + 1
    requires c == a + |f.colonPre| && q == c + 1 + |Text(f.value)| && e == q + |f.post|
    requires StartsWith(input, pos, f.keyPre) && k < |input| && input[k] == f.open
    requires StartsWith(input, k + 1, f.key) && StartsWith(input, k + 1 + |f.key|, "\"")
    requires StartsWith(input, a, f.colonPre) && c < |input| && input[c] == ':'
    requires StartsWith(input, c + 1, Text(f.value)) && StartsWith(input, q, f.post)
    ensures StartsWith(input, pos, FieldText(f)) && pos + |FieldText(f)| == e
  {
    var t1 := f.keyPre + [f.open];
    var t2 := t1 + f.key;
    var t3 := t2 + "\"";
    var t4 := t3 + f.colonPre;
    var t5 := t4 + ":";
    var t6 := t5 + Text(f.value);
    assert StartsWith(input, k, [f.open]);
    assert StartsWith(input, c, ":");
    StartsWithConcat(input, pos, f.keyPre, [f.open]);
    StartsWithConcat(input, pos, t1, f.key);
    StartsWithConcat(input, pos, t2, "\"");
    StartsWithConcat(input, pos, t3, f.colonPre);
    StartsWithConcat(input, pos, t4, ":");
    StartsWithConcat(input, pos, t5, Text(f.value));
    StartsWithConcat(input, pos, t6, f.post);
  }

  /** An element with its whitespace in front of further elements, as text
      and as XML. */
  lemma ItemsConsJoin(input: string, pos: nat, it: Item, e: nat, rest: seq<Item>, item: string, restXml: string, whole: string)
    returns (items: seq<Item>)
    requires DocWf(it.value) && Blank(it.post) && |rest| >= 1 && ItemsDocWf(rest)
    requires StartsWith(input, pos, Text(it.value)) && StartsWith(input, pos + |Text(it.value)|, it.post)
    requires e == pos + |Text(it.value)| + |it.post| && e < |input| && input[e] == ','
    requires StartsWith(input, e + 1, ItemsText(rest))
    requires ToXml(Erase(it.value)) == item && ItemsXml(ItemsErase(rest)) == restXml && whole == item + restXml
    ensures items == [it] + rest && |items| >= 1 && ItemsDocWf(items)
    ensures StartsWith(input, pos, ItemsText(items)) && pos + |ItemsText(items)| == e + 1 + |ItemsText(rest)|
    ensures ItemsXml(ItemsErase(items)) == whole
  {
    items := [it] + rest;
    assert items[0] == it && items[1..] == rest;
    ItemsTextCons(input, pos, items, e);
    LayoutCompleteness.ItemsXmlCons(items);
    forall i | 0 <= i < |items|
      ensures DocWf(items[i].value) && Blank(items[i].post)
    {
      if i > 0 {
        assert items[i] == rest[i - 1];
      }
    }
  }

  /** The text of an element list with at least two elements. */
  lemma ItemsTextCons(input: string, pos: nat, items: seq<Item>, e: nat)
    requires |items| >= 2
    requires StartsWith(input, pos, Text(items[0].value))
    requires StartsWith(input, pos + |Text(items[0].value)|, items[0].post)
    requires e == pos + |Text(items[0].value)| + |items[0].post| && e < |input| && input[e] == ','
    requires StartsWith(input, e + 1, ItemsText(items[1..]))
    ensures StartsWith(input, pos, ItemsText(items)) && pos + |ItemsText(items)| == e + 1 + |ItemsText(items[1..])|
  {
    var x := items[0];
    assert StartsWith(input, e, ",");
    StartsWithConcat(input, pos, Text(x.value), x.post);
    StartsWithConcat(input, pos, Text(x.value) + x.post, ",");
    StartsWithConcat(input, pos, Text(x.value) + x.post + ",", ItemsText(items[1..]));
  }

  /** A single element with its whitespace, as text and as XML. */
  lemma ItemsOneJoin(input: string, pos: nat, it: Item, item: string, whole: string) returns (items: seq<Item>)
    requires DocWf(it.value) && Blank(it.post)
    requires StartsWith(input, pos, Text(it.value)) && StartsWith(input, pos + |Text(it.value)|, it.post)
    requires ToXml(Erase(it.value)) == item && whole == item
    ensures items == [it] && ItemsDocWf(items)
    ensures StartsWith(input, pos, ItemsText(items)) && pos + |ItemsText(items)| == pos + |Text(it.value)| + |it.post|
    ensures ItemsXml(ItemsErase(items)) == whole
  {
    items := [it];
    StartsWithConcat(input, pos, Text(it.value), it.post);
    LayoutCompleteness.ItemsXmlCons(items);
    assert ItemsErase(items[1..]) == [];
  }

  /** A member in front of further members, as text and as XML. */
  lemma FieldsConsJoin(input: string, pos: nat, f: Field, e: nat, rest: seq<Field>, member: string, restXml: string, whole: string)
    returns (fields: seq<Field>)
    requires Blank(f.keyPre) && !IsWhitespace(f.open) && StringText(f.key) && Blank(f.colonPre)
    requires DocWf(f.value) && Blank(f.post)
    requires |rest| >= 1 && FieldsDocWf(rest)
    requires StartsWith(input, pos, FieldText(f)) && e == pos + |FieldText(f)| && e < |input| && input[e] == ','
    requires StartsWith(input, e + 1, FieldsText(rest))
    requires MemberXml(Member(f.key, Erase(f.value))) == member && MembersXml(FieldsErase(rest)) == restXml
    requires whole == member + restXml
    ensures fields == [f] + rest && |fields| >= 1 && FieldsDocWf(fields)
    ensures StartsWith(input, pos, FieldsText(fields)) && pos + |FieldsText(fields)| == e + 1 + |FieldsText(rest)|
    ensures MembersXml(FieldsErase(fields)) == whole
  {
    fields := [f] + rest;
    assert fields[0] == f && fields[1..] == rest;
    assert StartsWith(input, e, ",");
    StartsWithConcat(input, pos, FieldText(f), ",");
    StartsWithConcat(input, pos, FieldText(f) + ",", FieldsText(rest));
    LayoutCompleteness.FieldsXmlCons(fields);
    forall i | 0 <= i < |fields|
      ensures
        && Blank(fields[i].keyPre) && !IsWhitespace(fields[i].open)
        && StringText(fields[i].key) && Blank(fields[i].colonPre)
        && DocWf(fields[i].value) && Blank(fields[i].post)
    {
      if i > 0 {
        assert fields[i] == rest[i - 1];
      }
    }
  }

  /** A single member, as text and as XML. */
  lemma FieldsOneJoin(f: Field, member: string, whole: string) returns (fields: seq<Field>)
    requires Blank(f.keyPre) && !IsWhitespace(f.open) && StringText(f.key) && Blank(f.colonPre)
    requires DocWf(f.value) && Blank(f.post)
    requires MemberXml(Member(f.key, Erase(f.value))) == member && whole == member
    ensures fields == [f] && FieldsDocWf(fields) && FieldsText(fields) == FieldText(f)
    ensures MembersXml(FieldsErase(fields)) == whole
  {
    fields := [f];
    LayoutCompleteness.FieldsXmlCons(fields);
    assert FieldsErase(fields[1..]) == [];
  }

  // ---------------------------------------------------------------------
  // What one step of the parser read
  // ---------------------------------------------------------------------

  /** A scalar that succeeds and leaves the cursor somewhere it can go on
      from read the compact text of a string, a boolean or a number that
      starts with a digit, and returned that value's XML. */
  lemma ScalarSound(input: string, p: nat) returns (v: Json)
    requires p <= |input|
    requires Scalar(input, p).Ok? && !Stuck(input, Scalar(input, p).pos)
    ensures Wf(v) && ToXml(v) == Scalar(input, p).text
    ensures StartsWith(input, p, Serialize(v)) && p + |Serialize(v)| == Scalar(input, p).pos
  {
    if p < |input| && input[p] == '"' {
      ScalarString(input, p);
      ParseStringSpec(input, p);
      var s := ParseString(input, p).text;
      QuotedText(input, p, s);
      v := JString(s);
    } else if StartsWith(input, p, "true") {
      ScalarTrue(input, p);
      v := JBool(true);
    } else if StartsWith(input, p, "false") {
      ScalarFalse(input, p);
      v := JBool(false);
    } else {
      assert p < |input| && IsDigit(input[p]) by {
        StartsWithHead(input, p, "\"");
        StartsWithHead(input, p, "null");
      }
      ScalarNumber(input, p);
      NumberEndSkipsNumberChars(input, p);
      var t := input[p..NumberEnd(input, p)];
      assert t[0] == input[p];
      StartsWithSlice(input, p, t);
      v := JNumber(t);
    }
  }

  /** A successful array that is not empty ran its loop to a ']'. */
  lemma ArrayBodyOk(input: string, pos: nat)
    requires pos <= |input|
    requires ParseArray(input, pos).Ok?
    requires var p := SkipWhitespace(input, pos); !(p < |input| && input[p] == ']')
    ensures var r := ArrayItems(input, SkipWhitespace(input, pos));
      && r.Ok?
      && r.pos < |input| && input[r.pos] == ']'
      && ParseArray(input, pos) == Ok("<array>" + r.text + "</array>", r.pos + 1)
  {
    ArrayBody(input, pos);
  }

  /** A successful object that is not empty ran its loop to a '}'. */
  lemma ObjectBodyOk(input: string, pos: nat)
    requires pos <= |input|
    requires ParseObject(input, pos).Ok?
    requires var p := SkipWhitespace(input, pos); !(p < |input| && input[p] == '}')
    ensures var r := ObjectMembers(input, SkipWhitespace(input, pos));
      && r.Ok?
      && r.pos < |input| && input[r.pos] == '}'
      && ParseObject(input, pos) == Ok("<object>" + r.text + "</object>", r.pos + 1)
  {
    ObjectBody(input, pos);
  }

  /** The array loop succeeds only if its first element does. */
  lemma ItemsHead(input: string, pos: nat)
    requires pos <= |input|
    requires ArrayItems(input, pos).Ok?
    ensures ParseElement(input, pos).Ok?
  {
  }

  /** After a successful element the array loop either goes round again
      after a ',' or stops on the element's trailing whitespace; either way
      the element itself did not get stuck. */
  lemma ItemsTail(input: string, pos: nat, item: string, q: nat, e: nat, more: bool)
    requires pos <= |input|
    requires ParseElement(input, pos) == Ok(item, q)
    requires e == SkipWhitespace(input, q)
    requires more == (e < |input| && input[e] == ',')
    requires ArrayItems(input, pos).Ok? && !Stuck(input, ArrayItems(input, pos).pos)
    ensures !Stuck(input, q)
    ensures more ==>
      && ArrayItems(input, e + 1).Ok?
      && !Stuck(input, ArrayItems(input, e + 1).pos)
      && ArrayItems(input, e + 1).pos == ArrayItems(input, pos).pos
      && ArrayItems(input, pos).text == item + ArrayItems(input, e + 1).text
    ensures !more ==> ArrayItems(input, pos) == Ok(item, e)
  {
    ItemsRound(input, pos, item, q);
    SkipAtStuck(input, q);
    if more {
      ItemsNextComma(input, item, e);
    } else {
      ItemsNextStop(input, item, e);
    }
  }

  /** One successful round of the object loop that does not end stuck: the
      key read after the skip, a value that is not stuck, and either another
      round after a ',' that ends where this loop ends, or the end of the
      loop. */
  lemma MembersRoundSound(input: string, pos: nat)
    returns (name: string, a: nat, c: nat, value: string, q: nat, e: nat, more: bool)
    requires pos <= |input|
    requires ObjectMembers(input, pos).Ok? && !Stuck(input, ObjectMembers(input, pos).pos)
    ensures var k := SkipWhitespace(input, pos);
      && k < |input| && !IsWhitespace(input[k])
      && a == k + |name| + 2 <= |input| && input[k + 1..a - 1] == name && input[a - 1] == '"'
    ensures StringText(name)
    ensures c == SkipWhitespace(input, a) && c < |input| && input[c] == ':'
    ensures ParseElement(input, c + 1) == Ok(value, q) && !Stuck(input, q)
    ensures e == SkipWhitespace(input, q)
    ensures more == (e < |input| && input[e] == ',')
    ensures var member := "<" + name + ">" + value + "</" + name + ">";
      && (more ==>
        && ObjectMembers(input, e + 1).Ok? && !Stuck(input, ObjectMembers(input, e + 1).pos)
        && ObjectMembers(input, e + 1).pos == ObjectMembers(input, pos).pos
        && ObjectMembers(input, pos).text == member + ObjectMembers(input, e + 1).text)
      && (!more ==> ObjectMembers(input, pos) == Ok(member, e))
  {
    name, a, c := MembersHead(input, pos);
    q := ParseElement(input, c + 1).pos;
    value := ParseElement(input, c + 1).text;
    e := SkipWhitespace(input, q);
    more := e < |input| && input[e] == ',';
    MembersTail(input, pos, name, c, value, q, "<" + name + ">" + value + "</" + name + ">", e, more);
  }

  /** The object loop succeeds only if it reads a key without quotes, finds
      a ':' after more whitespace and then a successful value. */
  lemma MembersHead(input: string, pos: nat) returns (name: string, a: nat, c: nat)
    requires pos <= |input|
    requires ObjectMembers(input, pos).Ok?
    ensures var k := SkipWhitespace(input, pos);
      && k < |input| && !IsWhitespace(input[k])
      && a == k + |name| + 2 <= |input| && input[k + 1..a - 1] == name && input[a - 1] == '"'
    ensures StringText(name)
    ensures c == SkipWhitespace(input, a) && c < |input| && input[c] == ':'
    ensures ParseElement(input, c + 1).Ok?
    ensures ObjectMembers(input, pos) == MemberValue(input, name, c)
  {
    var k := SkipWhitespace(input, pos);
    ParseStringSpec(input, k);
    name := ParseString(input, k).text;
    a := ParseString(input, k).pos;
    c := SkipWhitespace(input, a);
    MembersRound(input, pos, name, a);
    ColonHead(input, name, c);
  }

  /** A member succeeds only on a ':' followed by a successful value. */
  lemma ColonHead(input: string, name: string, c: nat)
    requires c <= |input|
    requires MemberValue(input, name, c).Ok?
    ensures c < |input| && input[c] == ':'
    ensures ParseElement(input, c + 1).Ok?
  {
    StartsWithHead(input, c, ":");
  }

  /** After a member the object loop either goes round again after a ',' or
      stops on the value's trailing whitespace; either way the value itself
      did not get stuck. */
  lemma MembersTail(input: string, pos: nat, name: string, c: nat, value: string, q: nat, member: string, e: nat, more: bool)
    requires pos <= |input|
    requires c < |input| && input[c] == ':'
    requires ObjectMembers(input, pos) == MemberValue(input, name, c)
    requires ParseElement(input, c + 1) == Ok(value, q)
    requires member == "<" + name + ">" + value + "</" + name + ">"
    requires e == SkipWhitespace(input, q)
    requires more == (e < |input| && input[e] == ',')
    requires ObjectMembers(input, pos).Ok? && !Stuck(input, ObjectMembers(input, pos).pos)
    ensures !Stuck(input, q)
    ensures more ==>
      && ObjectMembers(input, e + 1).Ok?
      && ObjectMembers(input, e + 1).pos == ObjectMembers(input, pos).pos
      && ObjectMembers(input, pos).text == member + ObjectMembers(input, e + 1).text
    ensures !more ==> ObjectMembers(input, pos) == Ok(member, e)
  {
    MemberValueOk(input, name, c, value, q, member);
    SkipAtStuck(input, q);
    if more {
      MembersNextComma(input, member, e);
    } else {
      MembersNextStop(input, member, e);
    }
  }

  // ---------------------------------------------------------------------
  // The induction
  // ---------------------------------------------------------------------

  /** An element that succeeds and is not stuck read a well-formed layout
      from where it started to where it stopped, and returned the XML of
      the tree that layout spells. */
  lemma {:induction false} ElementSound(input: string, pos: nat) returns (d: Doc)
    requires pos <= |input|
    requires ParseElement(input, pos).Ok? && !Stuck(input, ParseElement(input, pos).pos)
    ensures DocWf(d) && ToXml(Erase(d)) == ParseElement(input, pos).text
    ensures StartsWith(input, pos, Text(d)) && pos + |Text(d)| == ParseElement(input, pos).pos
    decreases |input| - pos, 1
  {
    var w := Gap(input, pos);
    var p := pos + |w|;
    if p < |input| && input[p] == '{' {
      d := ElementObject(input, pos, w);
    } else if p < |input| && input[p] == '[' {
      d := ElementArray(input, pos, w);
    } else {
      d := ElementScalar(input, pos, w);
    }
  }

  /** An element that dispatches to an object read whitespace and then the
      object's layout. */
  lemma {:induction false} ElementObject(input: string, pos: nat, w: string) returns (d: Doc)
    requires pos <= |input|
    requires Blank(w) && StartsWith(input, pos, w) && pos + |w| == SkipWhitespace(input, pos)
    requires pos + |w| < |input| && input[pos + |w|] == '{'
    requires ParseElement(input, pos).Ok?
    ensures DocWf(d) && ToXml(Erase(d)) == ParseElement(input, pos).text
    ensures StartsWith(input, pos, Text(d)) && pos + |Text(d)| == ParseElement(input, pos).pos
    decreases |input| - pos, 0
  {
    DispatchObject(input, pos);
    var inner, fields := ObjectSound(input, pos + |w| + 1);
    d := ObjectJoin(input, pos, w, inner, fields);
  }

  /** An element that dispatches to an array read whitespace and then the
      array's layout. */
  lemma {:induction false} ElementArray(input: string, pos: nat, w: string) returns (d: Doc)
    requires pos <= |input|
    requires Blank(w) && StartsWith(input, pos, w) && pos + |w| == SkipWhitespace(input, pos)
    requires pos + |w| < |input| && input[pos + |w|] == '['
    requires ParseElement(input, pos).Ok?
    ensures DocWf(d) && ToXml(Erase(d)) == ParseElement(input, pos).text
    ensures StartsWith(input, pos, Text(d)) && pos + |Text(d)| == ParseElement(input, pos).pos
    decreases |input| - pos, 0
  {
    DispatchArray(input, pos);
    var inner, items := ArraySound(input, pos + |w| + 1);
    d := ArrayJoin(input, pos, w, inner, items);
  }

  /** An element that dispatches to a scalar and is not stuck read a compact
      scalar after whitespace. */
  lemma ElementScalar(input: string, pos: nat, w: string) returns (d: Doc)
    requires pos <= |input|
    requires Blank(w) && StartsWith(input, pos, w) && pos + |w| == SkipWhitespace(input, pos)
    requires var p := pos + |w|; !(p < |input| && input[p] in {'{', '['})
    requires ParseElement(input, pos).Ok? && !Stuck(input, ParseElement(input, pos).pos)
    ensures DocWf(d) && ToXml(Erase(d)) == ParseElement(input, pos).text
    ensures StartsWith(input, pos, Text(d)) && pos + |Text(d)| == ParseElement(input, pos).pos
  {
    DispatchScalar(input, pos);
    var v := ScalarSound(input, pos + |w|);
    d := CompactJoin(input, pos, w, v);
  }

  /** A successful array, entered after its '[', read whitespace, a list of
      elements in a well-formed layout and the ']', and returned their XML
      wrapped in `<array>`. */
  lemma {:induction false} ArraySound(input: string, pos: nat) returns (inner: string, items: seq<Item>)
    requires pos <= |input|
    requires ParseArray(input, pos).Ok?
    ensures Blank(inner) && ItemsDocWf(items)
    ensures StartsWith(input, pos, inner) && StartsWith(input, pos + |inner|, ItemsText(items))
    ensures var z := pos + |inner| + |ItemsText(items)|;
      StartsWith(input, z, "]") && ParseArray(input, pos).pos == z + 1
    ensures ParseArray(input, pos).text == ToXml(JArray(ItemsErase(items)))
    decreases |input| - pos, 4
  {
    inner := Gap(input, pos);
    var p := pos + |inner|;
    if p < |input| && input[p] == ']' {
      EmptyContainers(input, pos);
      items := [];
      assert StartsWith(input, p, "]");
    } else {
      ArrayBodyOk(input, pos);
      items := ItemsSound(input, p);
      var z := ArrayItems(input, p).pos;
      assert StartsWith(input, z, "]");
    }
  }

  /** A successful array loop that stops somewhere it can go on from read
      one or more elements in a well-formed layout, separated by ',', and
      returned their XML in order. */
  lemma {:induction false} ItemsSound(input: string, pos: nat) returns (items: seq<Item>)
    requires pos <= |input|
    requires ArrayItems(input, pos).Ok? && !Stuck(input, ArrayItems(input, pos).pos)
    ensures |items| >= 1 && ItemsDocWf(items)
    ensures StartsWith(input, pos, ItemsText(items)) && pos + |ItemsText(items)| == ArrayItems(input, pos).pos
    ensures ItemsXml(ItemsErase(items)) == ArrayItems(input, pos).text
    decreases |input| - pos, 2
  {
    ItemsHead(input, pos);
    var item, q := ParseElement(input, pos).text, ParseElement(input, pos).pos;
    var e := SkipWhitespace(input, q);
    var more := e < |input| && input[e] == ',';
    ItemsTail(input, pos, item, q, e, more);
    var d := ElementSound(input, pos);
    var post := Gap(input, q);
    if more {
      var rest := ItemsSound(input, e + 1);
      items := ItemsConsJoin(input, pos, Item(d, post), e, rest, item, ArrayItems(input, e + 1).text, ArrayItems(input, pos).text);
    } else {
      items := ItemsOneJoin(input, pos, Item(d, post), item, ArrayItems(input, pos).text);
    }
  }

  /** A successful object, entered after its '{', read whitespace, a list of
      members in a well-formed layout and the '}', and returned their XML
      wrapped in `<object>`. */
  lemma {:induction false} ObjectSound(input: string, pos: nat) returns (inner: string, fields: seq<Field>)
    requires pos <= |input|
    requires ParseObject(input, pos).Ok?
    ensures Blank(inner) && FieldsDocWf(fields) && (fields != [] ==> fields[0].open != '}')
    ensures StartsWith(input, pos, inner) && StartsWith(input, pos + |inner|, FieldsText(fields))
    ensures var z := pos + |inner| + |FieldsText(fields)|;
      StartsWith(input, z, "}") && ParseObject(input, pos).pos == z + 1
    ensures ParseObject(input, pos).text == ToXml(JObject(FieldsErase(fields)))
    decreases |input| - pos, 4
  {
    inner := Gap(input, pos);
    var p := pos + |inner|;
    if p < |input| && input[p] == '}' {
      EmptyContainers(input, pos);
      fields := [];
      assert StartsWith(input, p, "}");
    } else {
      ObjectBodyOk(input, pos);
      SkipWhitespaceIdempotent(input, pos);
      fields := MembersSound(input, p);
      var z := ObjectMembers(input, p).pos;
      assert StartsWith(input, z, "}");
    }
  }

  /** A successful object loop that stops somewhere it can go on from read
      one or more members in a well-formed layout, separated by ',', and
      returned their XML in order. The first member's key opens on the
      first character after the skip. */
  lemma {:induction false} MembersSound(input: string, pos: nat) returns (fields: seq<Field>)
    requires pos <= |input|
    requires ObjectMembers(input, pos).Ok? && !Stuck(input, ObjectMembers(input, pos).pos)
    ensures |fields| >= 1 && FieldsDocWf(fields)
    ensures SkipWhitespace(input, pos) < |input| && fields[0].open == input[SkipWhitespace(input, pos)]
    ensures StartsWith(input, pos, FieldsText(fields)) && pos + |FieldsText(fields)| == ObjectMembers(input, pos).pos
    ensures MembersXml(FieldsErase(fields)) == ObjectMembers(input, pos).text
    decreases |input| - pos, 3
  {
    var f, e, more := FieldSound(input, pos);
    if more {
      var rest := MembersSound(input, e + 1);
      fields := FieldsConsJoin(input, pos, f, e, rest, MemberXml(Member(f.key, Erase(f.value))),
                               ObjectMembers(input, e + 1).text, ObjectMembers(input, pos).text);
    } else {
      fields := FieldsOneJoin(f, MemberXml(Member(f.key, Erase(f.value))), ObjectMembers(input, pos).text);
    }
  }

  /** One round of the object loop, read back as a member with its layout:
      the whitespace and the unchecked character before the key, the key,
      the whitespace before ':', the value, and the whitespace after it. */
  lemma {:induction false} FieldSound(input: string, pos: nat) returns (f: Field, e: nat, more: bool)
    requires pos <= |input|
    requires ObjectMembers(input, pos).Ok? && !Stuck(input, ObjectMembers(input, pos).pos)
    ensures Blank(f.keyPre) && !IsWhitespace(f.open) && StringText(f.key) && Blank(f.colonPre)
    ensures DocWf(f.value) && Blank(f.post)
    ensures SkipWhitespace(input, pos) < |input| && f.open == input[SkipWhitespace(input, pos)]
    ensures StartsWith(input, pos, FieldText(f)) && e == pos + |FieldText(f)|
    ensures more ==>
      && e < |input| && input[e] == ','
      && ObjectMembers(input, e + 1).Ok? && !Stuck(input, ObjectMembers(input, e + 1).pos)
      && ObjectMembers(input, e + 1).pos == ObjectMembers(input, pos).pos
      && ObjectMembers(input, pos).text == MemberXml(Member(f.key, Erase(f.value))) + ObjectMembers(input, e + 1).text
    ensures !more ==> ObjectMembers(input, pos) == Ok(MemberXml(Member(f.key, Erase(f.value))), e)
    decreases |input| - pos, 2
  {
    var name, a, c, value, q, e0, more0 := MembersRoundSound(input, pos);
    var d := ElementSound(input, c + 1);
    f := FieldBuild(input, pos, name, a, c, d, q);
    e, more := e0, more0;
  }

  /** The member the object loop read, put back together from its tokens. */
  lemma FieldBuild(input: string, pos: nat, name: string, a: nat, c: nat, d: Doc, q: nat) returns (f: Field)
    requires pos <= |input|
    requires var k := SkipWhitespace(input, pos);
      && k < |input| && !IsWhitespace(input[k])
      && a == k + |name| + 2 <= |input| && input[k + 1..a - 1] == name && input[a - 1] == '"'
    requires StringText(name)
    requires c == SkipWhitespace(input, a) && c < |input| && input[c] == ':'
    requires DocWf(d) && StartsWith(input, c + 1, Text(d)) && c + 1 + |Text(d)| == q <= |input|
    ensures f.key == name && f.value == d
    ensures Blank(f.keyPre) && !IsWhitespace(f.open) && StringText(f.key) && Blank(f.colonPre)
    ensures DocWf(f.value) && Blank(f.post)
    ensures f.open == input[SkipWhitespace(input, pos)]
    ensures StartsWith(input, pos, FieldText(f)) && pos + |FieldText(f)| == SkipWhitespace(input, q)
  {
    var keyPre := Gap(input, pos);
    var k := pos + |keyPre|;
    var colonPre := Gap(input, a);
    var post := Gap(input, q);
    f := Field(keyPre, input[k], name, colonPre, d, post);
    StartsWithSlice(input, k + 1, name);
    assert StartsWith(input, a - 1, "\"");
    FieldJoin(input, pos, f, k, a, c, q, SkipWhitespace(input, q));
  }

  // ---------------------------------------------------------------------
  // Whole documents
  // ---------------------------------------------------------------------

  /** `parse()` reports no error only for a document that is a well-formed
      layout in full, and it then returns the XML of the tree that layout
      spells. */
  lemma ParseSound(input: string, outOfRange: string)
    ensures !HasErrors(Parse(input, outOfRange)) ==>
      exists d :: DocWf(d) && Text(d) == input && Parse(input, outOfRange).xml == ToXml(Erase(d))
  {
    if !HasErrors(Parse(input, outOfRange)) {
      var d := ElementSound(input, 0);
      StartsWithSlice(input, 0, Text(d));
      assert input[0..|input|] == input;
      assert Text(d) == input;
    }
  }

  /** The documents translated without error are exactly the texts of the
      well-formed layouts, and each is translated to the XML of the tree it
      spells. */
  lemma Accepted(input: string, outOfRange: string)
    ensures !HasErrors(Parse(input, outOfRange)) <==> exists d :: DocWf(d) && Text(d) == input
    ensures forall d | DocWf(d) && Text(d) == input :: Parse(input, outOfRange) == Translation(ToXml(Erase(d)), [])
  {
    ParseSound(input, outOfRange);
    forall d | DocWf(d) && Text(d) == input
      ensures Parse(input, outOfRange) == Translation(ToXml(Erase(d)), [])
    {
      LayoutCompleteness.TranslateDoc(d, outOfRange);
    }
  }

  /** No document translated without error holds a `null` value: the tree it
      spells is well-formed, and `Wf` excludes `JNull` at every depth. */
  lemma NoNullAccepted(input: string, outOfRange: string)
    ensures !HasErrors(Parse(input, outOfRange)) ==>
      exists d :: DocWf(d) && Text(d) == input && Wf(Erase(d))
  {
    if !HasErrors(Parse(input, outOfRange)) {
      ParseSound(input, outOfRange);
      var d :| DocWf(d) && Text(d) == input && Parse(input, outOfRange).xml == ToXml(Erase(d));
      LayoutCompleteness.DocWfErases(d);
    }
  }

  /** The texts error-free translations return are exactly the reference XML
      of the well-formed trees. */
  lemma Outputs(xml: string, outOfRange: string)
    ensures (exists input :: !HasErrors(Parse(input, outOfRange)) && Parse(input, outOfRange).xml == xml)
        <==> (exists j :: Wf(j) && ToXml(j) == xml)
  {
    if exists input :: !HasErrors(Parse(input, outOfRange)) && Parse(input, outOfRange).xml == xml {
      var input :| !HasErrors(Parse(input, outOfRange)) && Parse(input, outOfRange).xml == xml;
      ParseSound(input, outOfRange);
      var d :| DocWf(d) && Text(d) == input && Parse(input, outOfRange).xml == ToXml(Erase(d));
      LayoutCompleteness.DocWfErases(d);
      assert Wf(Erase(d)) && ToXml(Erase(d)) == xml;
    }
    if exists j :: Wf(j) && ToXml(j) == xml {
      var j :| Wf(j) && ToXml(j) == xml;
      Completeness.TranslateSerialized(j, outOfRange);
      assert !HasErrors(Parse(Serialize(j), outOfRange)) && Parse(Serialize(j), outOfRange).xml == xml;
    }
  }
}
