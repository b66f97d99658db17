/** Completeness over every layout: a well-formed tree written with any
    whitespace before any of its tokens translates to the tree's XML with no
    error. Only whitespace after the last token is refused (see
    `Completeness.TrailingSpaceRejected`).

    The proofs keep three kinds of steps apart: where the tokens sit in the
    text (peeled off in the order `Layout` concatenates them), what the
    parser does at those positions (stated over plain strings and
    positions), and the induction that joins the two. */
module LayoutCompleteness {
  import opened Chars
  import opened Cursor
  import opened Translator
  import opened JsonTree
  import opened Dispatch
  import Completeness
  import Lexemes
  import opened Layout

  /** The characters a value's first token can start with. */
  predicate Opener(c: char) {
    c == '{' || c == '[' || c == '"' || c == 't' || c == 'f' || IsDigit(c)
  }

  // ---------------------------------------------------------------------
  // Whitespace runs
  // ---------------------------------------------------------------------

  /** Skipping from the start of a whitespace run ends where skipping from
      its end does. */
  lemma {:induction false} SkipOverBlank(input: string, pos: nat, w: string)
    requires StartsWith(input, pos, w) && Blank(w)
    ensures SkipWhitespace(input, pos) == SkipWhitespace(input, pos + |w|)
    decreases |w|
  {
    if w != [] {
      assert input[pos + 0] == w[0];
      assert StartsWith(input, pos + 1, w[1..]) by {
        forall k | 0 <= k < |w[1..]|
          ensures input[pos + 1 + k] == w[1..][k]
        {
          assert input[pos + (k + 1)] == w[k + 1];
        }
      }
      assert Blank(w[1..]) by {
        forall i | 0 <= i < |w[1..]|
          ensures IsWhitespace(w[1..][i])
        {
          assert w[1..][i] == w[i + 1];
        }
      }
      SkipOverBlank(input, pos + 1, w[1..]);
    }
  }

  /** A whitespace run followed by a token: skipping stops on the token. */
  lemma SkipToToken(input: string, pos: nat, w: string)
    requires StartsWith(input, pos, w) && Blank(w)
    requires pos + |w| < |input| && !IsWhitespace(input[pos + |w|])
    ensures SkipWhitespace(input, pos) == pos + |w|
  {
    SkipOverBlank(input, pos, w);
    SkipWhitespaceAtNonBlank(input, pos + |w|);
  }

  /** `parseElement()` skips leading whitespace itself, so starting it before
      or after a whitespace run is the same. */
  lemma ElementAfterBlank(input: string, pos: nat, w: string)
    requires StartsWith(input, pos, w) && Blank(w)
    ensures ParseElement(input, pos) == ParseElement(input, pos + |w|)
  {
    SkipOverBlank(input, pos, w);
  }

  /** Whitespace, then the one-character token `close` that is neither
      whitespace nor part of a number: the skip stops on it, and a number
      written right before the whitespace ends there. */
  lemma BlankThenToken(input: string, q: nat, w: string, close: string)
    requires Blank(w) && |close| == 1 && !IsWhitespace(close[0]) && !IsNumberChar(close[0])
    requires StartsWith(input, q, w) && StartsWith(input, q + |w|, close)
    ensures q + |w| < |input| && input[q + |w|] == close[0]
    ensures SkipWhitespace(input, q) == q + |w|
    ensures Completeness.Delimited(input, q)
  {
    StartsWithHead(input, q + |w|, close);
    if |w| > 0 {
      assert input[q + 0] == w[0];
    }
    SkipToToken(input, q, w);
  }

  // ---------------------------------------------------------------------
  // Where the tokens sit
  // ---------------------------------------------------------------------

  /** The first token of a well-formed value is one the dispatch recognises. */
  lemma DocHead(d: Doc)
    requires DocWf(d)
    ensures |Body(d)| >= 1 && Opener(Body(d)[0])
  {
    match d
    case Compact(_, v) =>
      Completeness.FirstChar(v);
    case ArrayDoc(_, _, _) =>
    case ObjectDoc(_, _, _) =>
  }

  /** A value's text: its whitespace, then its body. */
  lemma DocText(input: string, pos: nat, d: Doc)
    requires StartsWith(input, pos, Text(d))
    ensures StartsWith(input, pos, d.pre) && StartsWith(input, pos + |d.pre|, Body(d))
    ensures |Text(d)| == |d.pre| + |Body(d)|
  {
    StartsWithConcat(input, pos, d.pre, Body(d));
  }

  /** The text of a compact value: whitespace, then the tree as
      `Serialize` writes it. */
  lemma CompactText(input: string, pos: nat, d: Doc)
    requires d.Compact? && DocWf(d)
    requires StartsWith(input, pos, Text(d))
    ensures Wf(d.value) && Blank(d.pre) && StartsWith(input, pos, d.pre)
    ensures StartsWith(input, pos + |d.pre|, Serialize(d.value))
    ensures |Text(d)| == |d.pre| + |Serialize(d.value)| && ToXml(Erase(d)) == ToXml(d.value)
  {
    DocText(input, pos, d);
  }

  /** The body of a container: the opening bracket, whitespace, the
      children's text and the closing bracket. */
  lemma BracketsText(input: string, p: nat, open: string, inner: string, children: string, close: string)
    requires StartsWith(input, p, open + inner + children + close)
    ensures StartsWith(input, p, open)
    ensures StartsWith(input, p + |open|, inner)
    ensures StartsWith(input, p + |open| + |inner|, children)
    ensures StartsWith(input, p + |open| + |inner| + |children|, close)
  {
    StartsWithConcat(input, p, open + inner + children, close);
    StartsWithConcat(input, p, open + inner, children);
    StartsWithConcat(input, p, open, inner);
  }

  /** The text of an array value, token by token. */
  lemma ArrayDocText(input: string, pos: nat, d: Doc)
    requires d.ArrayDoc? && DocWf(d)
    requires StartsWith(input, pos, Text(d))
    ensures Blank(d.pre) && StartsWith(input, pos, d.pre)
    ensures pos + |d.pre| < |input| && input[pos + |d.pre|] == '['
    ensures Blank(d.inner) && ItemsDocWf(d.items)
    ensures StartsWith(input, pos + |d.pre| + 1, d.inner)
    ensures StartsWith(input, pos + |d.pre| + 1 + |d.inner|, ItemsText(d.items))
    ensures StartsWith(input, pos + |d.pre| + 1 + |d.inner| + |ItemsText(d.items)|, "]")
    ensures |Text(d)| == |d.pre| + 1 + |d.inner| + |ItemsText(d.items)| + 1
  {
    DocText(input, pos, d);
    BracketsText(input, pos + |d.pre|, "[", d.inner, ItemsText(d.items), "]");
    StartsWithHead(input, pos + |d.pre|, "[");
  }

  /** The text of an object value, token by token. */
  lemma ObjectDocText(input: string, pos: nat, d: Doc)
    requires d.ObjectDoc? && DocWf(d)
    requires StartsWith(input, pos, Text(d))
    ensures Blank(d.pre) && StartsWith(input, pos, d.pre)
    ensures pos + |d.pre| < |input| && input[pos + |d.pre|] == '{'
    ensures Blank(d.inner) && FieldsDocWf(d.fields) && (d.fields != [] ==> d.fields[0].open != '}')
    ensures StartsWith(input, pos + |d.pre| + 1, d.inner)
    ensures StartsWith(input, pos + |d.pre| + 1 + |d.inner|, FieldsText(d.fields))
    ensures StartsWith(input, pos + |d.pre| + 1 + |d.inner| + |FieldsText(d.fields)|, "}")
    ensures |Text(d)| == |d.pre| + 1 + |d.inner| + |FieldsText(d.fields)| + 1
  {
    DocText(input, pos, d);
    BracketsText(input, pos + |d.pre|, "{", d.inner, FieldsText(d.fields), "}");
    StartsWithHead(input, pos + |d.pre|, "{");
  }

  /** The elements after the first one are well-formed too. */
  lemma ItemsTailWf(items: seq<Item>)
    requires |items| >= 1 && ItemsDocWf(items)
    ensures ItemsDocWf(items[1..])
  {
    forall i | 0 <= i < |items[1..]|
      ensures DocWf(items[1..][i].value) && Blank(items[1..][i].post)
    {
      assert items[1..][i] == items[i + 1];
    }
  }

  /** The members after the first one are well-formed too. */
  lemma FieldsTailWf(fields: seq<Field>)
    requires |fields| >= 1 && FieldsDocWf(fields)
    ensures FieldsDocWf(fields[1..])
  {
    forall i | 0 <= i < |fields[1..]|
      ensures var g := fields[1..][i];
        Blank(g.keyPre) && !IsWhitespace(g.open) && StringText(g.key) && Blank(g.colonPre)
        && DocWf(g.value) && Blank(g.post)
    {
      assert fields[1..][i] == fields[i + 1];
    }
  }

  /** A one-element body: the element's text, its whitespace, then ']'. */
  lemma OneItemText(input: string, pos: nat, items: seq<Item>, e: nat, f: nat)
    requires |items| == 1
    requires StartsWith(input, pos, ItemsText(items))
    requires StartsWith(input, pos + |ItemsText(items)|, "]")
    requires e == pos + |Text(items[0].value)| && f == e + |items[0].post|
    ensures StartsWith(input, pos, Text(items[0].value)) && StartsWith(input, e, items[0].post)
    ensures StartsWith(input, f, "]") && f == pos + |ItemsText(items)|
  {
    StartsWithConcat(input, pos, Text(items[0].value), items[0].post);
  }

  /** A body of two or more elements: the first one's text, its whitespace,
      ',', then the others'. */
  lemma MoreItemsText(input: string, pos: nat, items: seq<Item>, e: nat, f: nat)
    requires |items| >= 2
    requires StartsWith(input, pos, ItemsText(items))
    requires e == pos + |Text(items[0].value)| && f == e + |items[0].post|
    ensures StartsWith(input, pos, Text(items[0].value)) && StartsWith(input, e, items[0].post)
    ensures StartsWith(input, f, ",") && StartsWith(input, f + 1, ItemsText(items[1..]))
    ensures pos + |ItemsText(items)| == f + 1 + |ItemsText(items[1..])|
  {
    var x := items[0];
    StartsWithConcat(input, pos, Text(x.value) + x.post + ",", ItemsText(items[1..]));
    StartsWithConcat(input, pos, Text(x.value) + x.post, ",");
    StartsWithConcat(input, pos, Text(x.value), x.post);
  }

  /** A non-empty array body starts with its first element's text. */
  lemma FirstItemText(input: string, pos: nat, items: seq<Item>)
    requires |items| >= 1
    requires StartsWith(input, pos, ItemsText(items))
    ensures StartsWith(input, pos, Text(items[0].value))
  {
    var e := pos + |Text(items[0].value)|;
    if |items| == 1 {
      StartsWithConcat(input, pos, Text(items[0].value), items[0].post);
    } else {
      MoreItemsText(input, pos, items, e, e + |items[0].post|);
    }
  }

  /** A non-empty object body starts with its first member's text. */
  lemma FirstFieldText(input: string, pos: nat, fields: seq<Field>)
    requires |fields| >= 1
    requires StartsWith(input, pos, FieldsText(fields))
    ensures StartsWith(input, pos, FieldText(fields[0]))
  {
    if |fields| >= 2 {
      MoreFieldsText(input, pos, fields, pos + |FieldText(fields[0])|);
    }
  }

  /** The first element of an array body: where its text sits, and the
      whitespace after it ending on a ']' after the last element and on a
      ',' otherwise, with a number element ending before it. */
  lemma ItemHead(input: string, pos: nat, items: seq<Item>, e: nat, f: nat)
    requires |items| >= 1 && ItemsDocWf(items)
    requires StartsWith(input, pos, ItemsText(items))
    requires StartsWith(input, pos + |ItemsText(items)|, "]")
    requires e == pos + |Text(items[0].value)| && f == e + |items[0].post|
    ensures DocWf(items[0].value) && StartsWith(input, pos, Text(items[0].value))
    ensures Completeness.Delimited(input, e) && f < |input| && SkipWhitespace(input, e) == f
    ensures |items| == 1 ==> input[f] == ']' && f == pos + |ItemsText(items)|
    ensures |items| >= 2 ==> input[f] == ','
  {
    if |items| == 1 {
      OneItemText(input, pos, items, e, f);
      BlankThenToken(input, e, items[0].post, "]");
    } else {
      MoreItemsText(input, pos, items, e, f);
      BlankThenToken(input, e, items[0].post, ",");
    }
  }

  /** After the first element's ',': the other elements and the ']'. */
  lemma NextItemsText(input: string, pos: nat, items: seq<Item>, f: nat)
    requires |items| >= 2 && ItemsDocWf(items)
    requires StartsWith(input, pos, ItemsText(items))
    requires StartsWith(input, pos + |ItemsText(items)|, "]")
    requires f == pos + |Text(items[0].value)| + |items[0].post|
    ensures ItemsDocWf(items[1..])
    ensures StartsWith(input, f + 1, ItemsText(items[1..]))
    ensures StartsWith(input, f + 1 + |ItemsText(items[1..])|, "]")
    ensures pos + |ItemsText(items)| == f + 1 + |ItemsText(items[1..])|
  {
    MoreItemsText(input, pos, items, pos + |Text(items[0].value)|, f);
    ItemsTailWf(items);
  }

  /** A body of two or more members: the first one's text, ',', then the
      others'. */
  lemma MoreFieldsText(input: string, pos: nat, fields: seq<Field>, e: nat)
    requires |fields| >= 2
    requires StartsWith(input, pos, FieldsText(fields))
    requires e == pos + |FieldText(fields[0])|
    ensures StartsWith(input, pos, FieldText(fields[0]))
    ensures StartsWith(input, e, ",") && StartsWith(input, e + 1, FieldsText(fields[1..]))
    ensures pos + |FieldsText(fields)| == e + 1 + |FieldsText(fields[1..])|
  {
    StartsWithConcat(input, pos, FieldText(fields[0]) + ",", FieldsText(fields[1..]));
    StartsWithConcat(input, pos, FieldText(fields[0]), ",");
  }

  /** The first member of an object body: where its text sits, and the
      token right after it, a '}' after the last member and a ',' otherwise. */
  lemma FieldHead(input: string, pos: nat, fields: seq<Field>, e: nat)
    requires |fields| >= 1 && FieldsDocWf(fields)
    requires StartsWith(input, pos, FieldsText(fields))
    requires StartsWith(input, pos + |FieldsText(fields)|, "}")
    requires e == pos + |FieldText(fields[0])|
    ensures var f := fields[0];
      Blank(f.keyPre) && !IsWhitespace(f.open) && StringText(f.key) && Blank(f.colonPre)
      && DocWf(f.value) && Blank(f.post)
    ensures StartsWith(input, pos, FieldText(fields[0])) && e < |input|
    ensures |fields| == 1 ==> input[e] == '}' && e == pos + |FieldsText(fields)|
    ensures |fields| >= 2 ==> input[e] == ','
  {
    if |fields| == 1 {
      StartsWithHead(input, e, "}");
    } else {
      MoreFieldsText(input, pos, fields, e);
      StartsWithHead(input, e, ",");
    }
  }

  /** After the first member's ',': the other members and the '}'. */
  lemma NextFieldsText(input: string, pos: nat, fields: seq<Field>, e: nat)
    requires |fields| >= 2 && FieldsDocWf(fields)
    requires StartsWith(input, pos, FieldsText(fields))
    requires StartsWith(input, pos + |FieldsText(fields)|, "}")
    requires e == pos + |FieldText(fields[0])|
    ensures FieldsDocWf(fields[1..])
    ensures StartsWith(input, e + 1, FieldsText(fields[1..]))
    ensures StartsWith(input, e + 1 + |FieldsText(fields[1..])|, "}")
    ensures pos + |FieldsText(fields)| == e + 1 + |FieldsText(fields[1..])|
  {
    MoreFieldsText(input, pos, fields, e);
    FieldsTailWf(fields);
  }

  /** The text of one member, token by token: `k` is where the character
      opening the key sits, `a` is just after the closing '"', `c` is where the ':' sits and
      `q` is just after the value. */
  lemma FieldPeel(input: string, pos: nat, f: Field, k: nat, a: nat, c: nat, q: nat)
    requires StartsWith(input, pos, FieldText(f))
    requires k == pos + |f.keyPre| && a == k + 1 + |f.key| + 1
    requires c == a + |f.colonPre| && q == c + 1 + |Text(f.value)|
    ensures StartsWith(input, pos, f.keyPre)
    ensures StartsWith(input, k, [f.open]) && StartsWith(input, k + 1, f.key) && StartsWith(input, k + 1 + |f.key|, "\"")
    ensures StartsWith(input, a, f.colonPre) && StartsWith(input, c, ":")
    ensures StartsWith(input, c + 1, Text(f.value)) && StartsWith(input, q, f.post)
    ensures pos + |FieldText(f)| == q + |f.post|
  {
    var t1 := f.keyPre + [f.open];
    var t2 := t1 + f.key;
    var t3 := t2 + "\"";
    var t4 := t3 + f.colonPre;
    var t5 := t4 + ":";
    var t6 := t5 + Text(f.value);
    StartsWithConcat(input, pos, t6, f.post);
    StartsWithConcat(input, pos, t5, Text(f.value));
    StartsWithConcat(input, pos, t4, ":");
    StartsWithConcat(input, pos, t3, f.colonPre);
    StartsWithConcat(input, pos, t2, "\"");
    StartsWithConcat(input, pos, t1, f.key);
    StartsWithConcat(input, pos, f.keyPre, [f.open]);
  }

  // ---------------------------------------------------------------------
  // What the parser does at those positions
  // ---------------------------------------------------------------------

  /** The array loop depends only on what the element production returns. */
  lemma ItemsFromSame(input: string, a: nat, b: nat)
    requires a <= |input| && b <= |input|
    requires ParseElement(input, a) == ParseElement(input, b)
    ensures ArrayItems(input, a) == ArrayItems(input, b)
  {
  }

  /** The array loop skips leading whitespace through the element
      production, so it reads the same from either end of a whitespace run. */
  lemma ItemsOverBlank(input: string, pos: nat, w: string)
    requires Blank(w) && StartsWith(input, pos, w)
    ensures ArrayItems(input, pos) == ArrayItems(input, pos + |w|)
  {
    ElementAfterBlank(input, pos, w);
    ItemsFromSame(input, pos, pos + |w|);
  }

  /** The object loop depends only on where its first skip lands. */
  lemma MembersFromSame(input: string, a: nat, b: nat)
    requires a <= |input| && b <= |input|
    requires SkipWhitespace(input, a) == SkipWhitespace(input, b)
    ensures ObjectMembers(input, a) == ObjectMembers(input, b)
  {
  }

  /** A parsed value before which the element production starts on
      whitespace: it skips the whitespace and returns the same. */
  lemma ElementOverBlank(input: string, pos: nat, w: string, x: string, z: nat)
    requires Blank(w) && StartsWith(input, pos, w)
    requires ParseElement(input, pos + |w|) == Ok(x, z)
    ensures ParseElement(input, pos) == Ok(x, z)
  {
    ElementAfterBlank(input, pos, w);
  }

  /** Whitespace, then '[': the element production hands over to
      `parseArray()` after the bracket. */
  lemma ElementIsArray(input: string, pos: nat, w: string, x: string, z: nat)
    requires Blank(w) && StartsWith(input, pos, w)
    requires pos + |w| < |input| && input[pos + |w|] == '['
    requires ParseArray(input, pos + |w| + 1) == Ok(x, z)
    ensures ParseElement(input, pos) == Ok(x, z)
  {
    ElementAfterBlank(input, pos, w);
    ArrayAt(input, pos + |w|);
  }

  /** Whitespace, then '{': the element production hands over to
      `parseObject()` after the brace. */
  lemma ElementIsObject(input: string, pos: nat, w: string, x: string, z: nat)
    requires Blank(w) && StartsWith(input, pos, w)
    requires pos + |w| < |input| && input[pos + |w|] == '{'
    requires ParseObject(input, pos + |w| + 1) == Ok(x, z)
    ensures ParseElement(input, pos) == Ok(x, z)
  {
    ElementAfterBlank(input, pos, w);
    ObjectAt(input, pos + |w|);
  }

  /** `parseArray()` entered on whitespace `w`, the loop starting after it
      on more whitespace `pre` and then a value's first token: once the loop
      stops on ']', the array is its XML wrapped. */
  lemma ArrayOverBlanks(input: string, pos: nat, w: string, pre: string, x: string, z: nat)
    requires Blank(w) && StartsWith(input, pos, w)
    requires Blank(pre) && StartsWith(input, pos + |w|, pre)
    requires var s := pos + |w| + |pre|;
      s < |input| && input[s] != ']' && !IsWhitespace(input[s])
    requires ArrayItems(input, pos + |w|) == Ok(x, z) && z < |input| && input[z] == ']'
    ensures ParseArray(input, pos) == Ok("<array>" + x + "</array>", z + 1)
  {
    var s := pos + |w| + |pre|;
    SkipOverBlank(input, pos, w);
    SkipToToken(input, pos + |w|, pre);
    ItemsOverBlank(input, pos + |w|, pre);
    ArrayAfterBlank(input, pos, s, x, z);
  }

  /** `parseObject()` entered on whitespace `w`, the loop starting after it
      on more whitespace `pre` and then the character opening a key, which
      is neither whitespace nor '}': once the loop stops on '}', the object
      is its XML wrapped. */
  lemma ObjectOverBlanks(input: string, pos: nat, w: string, pre: string, x: string, z: nat)
    requires Blank(w) && StartsWith(input, pos, w)
    requires Blank(pre) && StartsWith(input, pos + |w|, pre)
    requires var s := pos + |w| + |pre|;
      s < |input| && input[s] != '}' && !IsWhitespace(input[s])
    requires ObjectMembers(input, pos + |w|) == Ok(x, z) && z < |input| && input[z] == '}'
    ensures ParseObject(input, pos) == Ok("<object>" + x + "</object>", z + 1)
  {
    var s := pos + |w| + |pre|;
    SkipOverBlank(input, pos, w);
    SkipToToken(input, pos + |w|, pre);
    SkipWhitespaceAtNonBlank(input, s);
    MembersFromSame(input, pos + |w|, s);
    ObjectAfterBlank(input, pos, s, x, z);
  }

  /** An empty container: the skip after the opening bracket stops on the
      closing one. */
  lemma ClosedAfterBlank(input: string, pos: nat, inner: string)
    requires Blank(inner) && StartsWith(input, pos, inner)
    requires pos + |inner| < |input| && (input[pos + |inner|] == ']' || input[pos + |inner|] == '}')
    ensures input[pos + |inner|] == ']' ==> ParseArray(input, pos) == Ok("<array></array>", pos + |inner| + 1)
    ensures input[pos + |inner|] == '}' ==> ParseObject(input, pos) == Ok("<object></object>", pos + |inner| + 1)
  {
    SkipToToken(input, pos, inner);
    EmptyContainers(input, pos);
  }

  /** A non-empty array body after whitespace: the loop's XML, wrapped, once
      the loop stops on ']'. */
  lemma ArrayAfterBlank(input: string, pos: nat, s: nat, items: string, q: nat)
    requires pos <= |input| && s < |input| && SkipWhitespace(input, pos) == s && input[s] != ']'
    requires ArrayItems(input, s) == Ok(items, q) && q < |input| && input[q] == ']'
    ensures ParseArray(input, pos) == Ok("<array>" + items + "</array>", q + 1)
  {
    ArrayBody(input, pos);
  }

  /** A non-empty object body after whitespace: the loop's XML, wrapped, once
      the loop stops on '}'. */
  lemma ObjectAfterBlank(input: string, pos: nat, s: nat, members: string, q: nat)
    requires pos <= |input| && s < |input| && SkipWhitespace(input, pos) == s && input[s] != '}'
    requires ObjectMembers(input, s) == Ok(members, q) && q < |input| && input[q] == '}'
    ensures ParseObject(input, pos) == Ok("<object>" + members + "</object>", q + 1)
  {
    ObjectBody(input, pos);
  }

  /** `parseString()` steps over the character at the cursor whatever it
      is, so a key without quotes is read back verbatim after any opener. */
  lemma KeyComplete(input: string, k: nat, open: char, key: string)
    requires StringText(key)
    requires StartsWith(input, k, [open]) && StartsWith(input, k + 1, key) && StartsWith(input, k + 1 + |key|, "\"")
    ensures ParseString(input, k) == Ok(key, k + |key| + 2)
  {
    StartsWithSlice(input, k + 1, key);
    forall i | k + 1 <= i < k + 1 + |key|
      ensures input[i] != '"'
    {
      assert input[k + 1 + (i - k - 1)] == key[i - k - 1];
    }
    StartsWithHead(input, k + 1 + |key|, "\"");
    Lexemes.QuoteEndUnique(input, k + 1, k + 1 + |key|);
  }

  /** Whitespace, then a key after the character opening it: the skip stops
      on that character and `parseString()` returns the key. */
  lemma KeyAfterBlank(input: string, pos: nat, keyPre: string, open: char, key: string)
    requires Blank(keyPre) && !IsWhitespace(open) && StringText(key)
    requires StartsWith(input, pos, keyPre)
    requires var k := pos + |keyPre|;
      StartsWith(input, k, [open]) && StartsWith(input, k + 1, key) && StartsWith(input, k + 1 + |key|, "\"")
    ensures SkipWhitespace(input, pos) == pos + |keyPre|
    ensures ParseString(input, pos + |keyPre|) == Ok(key, pos + |keyPre| + 1 + |key| + 1)
  {
    var k := pos + |keyPre|;
    StartsWithHead(input, k, [open]);
    SkipToToken(input, pos, keyPre);
    KeyComplete(input, k, open, key);
  }

  /** A round of the object loop from the positions its skips and reads
      stop at. */
  lemma MemberRoundAt(input: string, pos: nat, key: string, a: nat, c: nat, value: string, q: nat, e: nat)
    requires pos <= |input| && a <= |input|
    requires ParseString(input, SkipWhitespace(input, pos)) == Ok(key, a)
    requires SkipWhitespace(input, a) == c && c < |input| && input[c] == ':'
    requires ParseElement(input, c + 1) == Ok(value, q) && SkipWhitespace(input, q) == e
    ensures ObjectMembers(input, pos) == MembersNext(input, "<" + key + ">" + value + "</" + key + ">", e)
  {
    MembersRound(input, pos, key, a);
    MemberValueOk(input, key, c, value, q, "<" + key + ">" + value + "</" + key + ">");
  }

  // ---------------------------------------------------------------------
  // Steps that join the two
  // ---------------------------------------------------------------------

  /** A compact value after whitespace: the compact case of completeness. */
  lemma CompactDoc(input: string, pos: nat, d: Doc)
    requires d.Compact? && DocWf(d)
    requires StartsWith(input, pos, Text(d))
    requires Completeness.Delimited(input, pos + |Text(d)|)
    ensures ParseElement(input, pos) == Ok(ToXml(Erase(d)), pos + |Text(d)|)
  {
    CompactText(input, pos, d);
    var z := pos + |d.pre| + |Serialize(d.value)|;
    assert z == pos + |Text(d)|;
    Completeness.ElementComplete(input, pos + |d.pre|, d.value);
    ElementOverBlank(input, pos, d.pre, ToXml(d.value), z);
  }

  /** An array value after whitespace: the element production dispatches on
      the '[' and returns what `parseArray()` returns. */
  lemma ArrayDocClose(input: string, pos: nat, d: Doc, p: nat, z: nat)
    requires d.ArrayDoc? && DocWf(d)
    requires StartsWith(input, pos, Text(d))
    requires p == pos + |d.pre| + 1 && z == p + |d.inner| + |ItemsText(d.items)| + 1 && p <= |input|
    requires ParseArray(input, p) == Ok("<array>" + ItemsXml(ItemsErase(d.items)) + "</array>", z)
    ensures ParseElement(input, pos) == Ok(ToXml(Erase(d)), pos + |Text(d)|)
  {
    ArrayDocText(input, pos, d);
    ElementIsArray(input, pos, d.pre, "<array>" + ItemsXml(ItemsErase(d.items)) + "</array>", z);
  }


  /** An object value after whitespace: the element production dispatches on
      the '{' and returns what `parseObject()` returns. */
  lemma ObjectDocClose(input: string, pos: nat, d: Doc, p: nat, z: nat)
    requires d.ObjectDoc? && DocWf(d)
    requires StartsWith(input, pos, Text(d))
    requires p == pos + |d.pre| + 1 && z == p + |d.inner| + |FieldsText(d.fields)| + 1 && p <= |input|
    requires ParseObject(input, p) == Ok("<object>" + MembersXml(FieldsErase(d.fields)) + "</object>", z)
    ensures ParseElement(input, pos) == Ok(ToXml(Erase(d)), pos + |Text(d)|)
  {
    ObjectDocText(input, pos, d);
    ElementIsObject(input, pos, d.pre, "<object>" + MembersXml(FieldsErase(d.fields)) + "</object>", z);
  }


  /** An array with no elements, whatever whitespace it holds. */
  lemma EmptyArrayDoc(input: string, pos: nat, inner: string, items: seq<Item>)
    requires Blank(inner) && items == []
    requires StartsWith(input, pos, inner) && StartsWith(input, pos + |inner| + |ItemsText(items)|, "]")
    ensures ParseArray(input, pos)
      == Ok("<array>" + ItemsXml(ItemsErase(items)) + "</array>", pos + |inner| + |ItemsText(items)| + 1)
  {
    StartsWithHead(input, pos + |inner|, "]");
    ClosedAfterBlank(input, pos, inner);
    assert "<array>" + ItemsXml(ItemsErase(items)) + "</array>" == "<array></array>";
  }

  /** An object with no members, whatever whitespace it holds. */
  lemma EmptyObjectDoc(input: string, pos: nat, inner: string, fields: seq<Field>)
    requires Blank(inner) && fields == []
    requires StartsWith(input, pos, inner) && StartsWith(input, pos + |inner| + |FieldsText(fields)|, "}")
    ensures ParseObject(input, pos)
      == Ok("<object>" + MembersXml(FieldsErase(fields)) + "</object>", pos + |inner| + |FieldsText(fields)| + 1)
  {
    StartsWithHead(input, pos + |inner|, "}");
    ClosedAfterBlank(input, pos, inner);
    assert "<object>" + MembersXml(FieldsErase(fields)) + "</object>" == "<object></object>";
  }

  /** A non-empty array body starts with whitespace and then its first
      element's first token. */
  lemma ItemsStart(input: string, b: nat, items: seq<Item>)
    requires |items| >= 1 && ItemsDocWf(items)
    requires StartsWith(input, b, ItemsText(items))
    ensures Blank(items[0].value.pre) && StartsWith(input, b, items[0].value.pre)
    ensures var s := b + |items[0].value.pre|;
      s < |input| && input[s] != ']' && !IsWhitespace(input[s])
  {
    var x := items[0].value;
    FirstItemText(input, b, items);
    DocText(input, b, x);
    DocHead(x);
    StartsWithHead(input, b + |x.pre|, Body(x));
  }

  /** A non-empty object body starts with whitespace and then the character
      opening its first key. */
  lemma FieldsStart(input: string, b: nat, fields: seq<Field>)
    requires |fields| >= 1 && FieldsDocWf(fields)
    requires StartsWith(input, b, FieldsText(fields))
    ensures Blank(fields[0].keyPre) && StartsWith(input, b, fields[0].keyPre)
    ensures b + |fields[0].keyPre| < |input| && input[b + |fields[0].keyPre|] == fields[0].open
    ensures !IsWhitespace(fields[0].open)
  {
    var f := fields[0];
    var k := b + |f.keyPre|;
    var a := k + 1 + |f.key| + 1;
    var c := a + |f.colonPre|;
    FirstFieldText(input, b, fields);
    FieldPeel(input, b, f, k, a, c, c + 1 + |Text(f.value)|);
    StartsWithHead(input, k, [f.open]);
  }

  /** An array with elements: once the loop has read them all, `parseArray()`
      wraps their XML and steps over the ']'. */
  lemma ArrayDocDone(input: string, pos: nat, inner: string, items: seq<Item>, b: nat, z: nat)
    requires Blank(inner) && |items| >= 1 && ItemsDocWf(items)
    requires b == pos + |inner| && z == b + |ItemsText(items)|
    requires StartsWith(input, pos, inner) && StartsWith(input, b, ItemsText(items)) && StartsWith(input, z, "]")
    requires ArrayItems(input, b) == Ok(ItemsXml(ItemsErase(items)), z)
    ensures ParseArray(input, pos) == Ok("<array>" + ItemsXml(ItemsErase(items)) + "</array>", z + 1)
  {
    ItemsStart(input, b, items);
    StartsWithHead(input, z, "]");
    ArrayOverBlanks(input, pos, inner, items[0].value.pre, ItemsXml(ItemsErase(items)), z);
  }

  /** An object with members: once the loop has read them all,
      `parseObject()` wraps their XML and steps over the '}'. */
  lemma ObjectDocDone(input: string, pos: nat, inner: string, fields: seq<Field>, b: nat, z: nat)
    requires Blank(inner) && |fields| >= 1 && FieldsDocWf(fields) && fields[0].open != '}'
    requires b == pos + |inner| && z == b + |FieldsText(fields)|
    requires StartsWith(input, pos, inner) && StartsWith(input, b, FieldsText(fields)) && StartsWith(input, z, "}")
    requires ObjectMembers(input, b) == Ok(MembersXml(FieldsErase(fields)), z)
    ensures ParseObject(input, pos) == Ok("<object>" + MembersXml(FieldsErase(fields)) + "</object>", z + 1)
  {
    FieldsStart(input, b, fields);
    StartsWithHead(input, z, "}");
    ObjectOverBlanks(input, pos, inner, fields[0].keyPre, MembersXml(FieldsErase(fields)), z);
  }

  /** One member up to its ':': the skip before it stops on the key's opener,
      `parseString()` returns the key, and the skip after the key stops on
      the ':'. */
  lemma FieldKeyStops(input: string, pos: nat, f: Field, k: nat, a: nat, c: nat, q: nat)
    requires Blank(f.keyPre) && !IsWhitespace(f.open) && StringText(f.key) && Blank(f.colonPre)
    requires StartsWith(input, pos, FieldText(f))
    requires k == pos + |f.keyPre| && a == k + 1 + |f.key| + 1
    requires c == a + |f.colonPre| && q == c + 1 + |Text(f.value)|
    ensures ParseString(input, SkipWhitespace(input, pos)) == Ok(f.key, a)
    ensures SkipWhitespace(input, a) == c && c < |input| && input[c] == ':'
  {
    FieldPeel(input, pos, f, k, a, c, q);
    KeyAfterBlank(input, pos, f.keyPre, f.open, f.key);
    BlankThenToken(input, a, f.colonPre, ":");
  }

  /** One member from its value on: the value's text follows the ':', and
      the whitespace after it ends on the ',' or the '}' that follows the
      member, where a number value ends too. */
  lemma FieldValueStops(input: string, pos: nat, f: Field, k: nat, a: nat, c: nat, q: nat, e: nat)
    requires Blank(f.post)
    requires StartsWith(input, pos, FieldText(f))
    requires k == pos + |f.keyPre| && a == k + 1 + |f.key| + 1
    requires c == a + |f.colonPre| && q == c + 1 + |Text(f.value)|
    requires e == pos + |FieldText(f)| && e < |input| && (input[e] == ',' || input[e] == '}')
    ensures StartsWith(input, c + 1, Text(f.value)) && Completeness.Delimited(input, q)
    ensures SkipWhitespace(input, q) == e
  {
    FieldPeel(input, pos, f, k, a, c, q);
    assert StartsWith(input, e, [input[e]]);
    BlankThenToken(input, q, f.post, [input[e]]);
  }


  /** The XML of a list of elements: the first one's in front of the rest's. */
  lemma ItemsXmlCons(items: seq<Item>)
    requires |items| >= 1
    ensures ItemsXml(ItemsErase(items)) == ToXml(Erase(items[0].value)) + ItemsXml(ItemsErase(items[1..]))
  {
    var s := ItemsErase(items);
    assert s == [Erase(items[0].value)] + ItemsErase(items[1..]);
    assert s[1..] == ItemsErase(items[1..]);
  }

  /** The XML of a list of members: the first one's in front of the rest's. */
  lemma FieldsXmlCons(fields: seq<Field>)
    requires |fields| >= 1
    ensures MembersXml(FieldsErase(fields))
      == MemberXml(Member(fields[0].key, Erase(fields[0].value))) + MembersXml(FieldsErase(fields[1..]))
  {
    var s := FieldsErase(fields);
    assert s == [Member(fields[0].key, Erase(fields[0].value))] + FieldsErase(fields[1..]);
    assert s[1..] == FieldsErase(fields[1..]);
  }

  /** The last element: the loop stops on the ']' with its XML alone. */
  lemma LastItemJoin(input: string, pos: nat, items: seq<Item>, e: nat, f: nat)
    requires |items| == 1 && pos <= |input|
    requires f < |input| && input[f] == ']' && SkipWhitespace(input, e) == f
    requires ParseElement(input, pos) == Ok(ToXml(Erase(items[0].value)), e)
    ensures ArrayItems(input, pos) == Ok(ItemsXml(ItemsErase(items)), f)
  {
    var first := ToXml(Erase(items[0].value));
    ItemsRound(input, pos, first, e);
    ItemsNextStop(input, first, f);
    ItemsXmlCons(items);
    assert ItemsErase(items[1..]) == [];
    assert first + ItemsXml([]) == first;
  }

  /** The first element's XML in front of the rest's, across the ','. */
  lemma NextItemJoin(input: string, pos: nat, items: seq<Item>, e: nat, f: nat, z: nat)
    requires |items| >= 2 && pos <= |input|
    requires f < |input| && input[f] == ',' && SkipWhitespace(input, e) == f
    requires ParseElement(input, pos) == Ok(ToXml(Erase(items[0].value)), e)
    requires ArrayItems(input, f + 1) == Ok(ItemsXml(ItemsErase(items[1..])), z)
    ensures ArrayItems(input, pos) == Ok(ItemsXml(ItemsErase(items)), z)
  {
    var first := ToXml(Erase(items[0].value));
    ItemsRound(input, pos, first, e);
    ItemsNextComma(input, first, f);
    ItemsXmlCons(items);
  }

  /** The last member: the loop stops on the '}' with its XML alone. */
  lemma LastFieldJoin(input: string, pos: nat, fields: seq<Field>, e: nat)
    requires |fields| == 1 && pos <= |input|
    requires e < |input| && input[e] == '}'
    requires ObjectMembers(input, pos) == MembersNext(input, MemberXml(Member(fields[0].key, Erase(fields[0].value))), e)
    ensures ObjectMembers(input, pos) == Ok(MembersXml(FieldsErase(fields)), e)
  {
    var member := MemberXml(Member(fields[0].key, Erase(fields[0].value)));
    MembersNextStop(input, member, e);
    FieldsXmlCons(fields);
    assert FieldsErase(fields[1..]) == [];
    assert member + MembersXml([]) == member;
  }

  /** The first member's XML in front of the rest's, across the ','. */
  lemma NextFieldJoin(input: string, pos: nat, fields: seq<Field>, e: nat, z: nat)
    requires |fields| >= 2 && pos <= |input|
    requires e < |input| && input[e] == ','
    requires ObjectMembers(input, pos) == MembersNext(input, MemberXml(Member(fields[0].key, Erase(fields[0].value))), e)
    requires ObjectMembers(input, e + 1) == Ok(MembersXml(FieldsErase(fields[1..])), z)
    ensures ObjectMembers(input, pos) == Ok(MembersXml(FieldsErase(fields)), z)
  {
    MembersNextComma(input, MemberXml(Member(fields[0].key, Erase(fields[0].value))), e);
    FieldsXmlCons(fields);
  }

  // ---------------------------------------------------------------------
  // The induction
  // ---------------------------------------------------------------------

  /** The element production reads a well-formed value, in any layout,
      back as its tree's XML and stops right after its last token. */
  lemma {:induction false} DocComplete(input: string, pos: nat, d: Doc)
    requires DocWf(d)
    requires StartsWith(input, pos, Text(d))
    requires Completeness.Delimited(input, pos + |Text(d)|)
    ensures ParseElement(input, pos) == Ok(ToXml(Erase(d)), pos + |Text(d)|)
    decreases d, 3
  {
    match d
    case Compact(_, _) =>
      CompactDoc(input, pos, d);
    case ArrayDoc(_, _, _) =>
      ArrayDocElement(input, pos, d);
    case ObjectDoc(_, _, _) =>
      ObjectDocElement(input, pos, d);
  }

  lemma {:induction false} ArrayDocElement(input: string, pos: nat, d: Doc)
    requires d.ArrayDoc? && DocWf(d)
    requires StartsWith(input, pos, Text(d))
    ensures ParseElement(input, pos) == Ok(ToXml(Erase(d)), pos + |Text(d)|)
    decreases d, 2
  {
    ArrayDocText(input, pos, d);
    var p := pos + |d.pre| + 1;
    ArrayDocComplete(input, p, d.inner, d.items);
    ArrayDocClose(input, pos, d, p, p + |d.inner| + |ItemsText(d.items)| + 1);
  }

  lemma {:induction false} ObjectDocElement(input: string, pos: nat, d: Doc)
    requires d.ObjectDoc? && DocWf(d)
    requires StartsWith(input, pos, Text(d))
    ensures ParseElement(input, pos) == Ok(ToXml(Erase(d)), pos + |Text(d)|)
    decreases d, 2
  {
    ObjectDocText(input, pos, d);
    var p := pos + |d.pre| + 1;
    ObjectDocComplete(input, p, d.inner, d.fields);
    ObjectDocClose(input, pos, d, p, p + |d.inner| + |FieldsText(d.fields)| + 1);
  }

  /** `parseArray()` entered just after the '[': the whitespace, the
      elements with their layout, then ']'. */
  lemma {:induction false} ArrayDocComplete(input: string, pos: nat, inner: string, items: seq<Item>)
    requires Blank(inner) && ItemsDocWf(items)
    requires StartsWith(input, pos, inner) && StartsWith(input, pos + |inner|, ItemsText(items))
    requires StartsWith(input, pos + |inner| + |ItemsText(items)|, "]")
    ensures ParseArray(input, pos)
      == Ok("<array>" + ItemsXml(ItemsErase(items)) + "</array>", pos + |inner| + |ItemsText(items)| + 1)
    decreases items, 2
  {
    if items == [] {
      EmptyArrayDoc(input, pos, inner, items);
    } else {
      ItemsDocComplete(input, pos + |inner|, items);
      ArrayDocDone(input, pos, inner, items, pos + |inner|, pos + |inner| + |ItemsText(items)|);
    }
  }

  /** `parseObject()` entered just after the '{': the whitespace, the
      members with their layout, then '}'. */
  lemma {:induction false} ObjectDocComplete(input: string, pos: nat, inner: string, fields: seq<Field>)
    requires Blank(inner) && FieldsDocWf(fields) && (fields != [] ==> fields[0].open != '}')
    requires StartsWith(input, pos, inner) && StartsWith(input, pos + |inner|, FieldsText(fields))
    requires StartsWith(input, pos + |inner| + |FieldsText(fields)|, "}")
    ensures ParseObject(input, pos)
      == Ok("<object>" + MembersXml(FieldsErase(fields)) + "</object>", pos + |inner| + |FieldsText(fields)| + 1)
    decreases fields, 2
  {
    if fields == [] {
      EmptyObjectDoc(input, pos, inner, fields);
    } else {
      FieldsDocComplete(input, pos + |inner|, fields);
      ObjectDocDone(input, pos, inner, fields, pos + |inner|, pos + |inner| + |FieldsText(fields)|);
    }
  }

  /** The array loop over elements with their layout: their XML in order,
      stopping on the ']'. */
  lemma {:induction false} ItemsDocComplete(input: string, pos: nat, items: seq<Item>)
    requires |items| >= 1 && ItemsDocWf(items)
    requires StartsWith(input, pos, ItemsText(items))
    requires StartsWith(input, pos + |ItemsText(items)|, "]")
    ensures ArrayItems(input, pos) == Ok(ItemsXml(ItemsErase(items)), pos + |ItemsText(items)|)
    decreases items, 1
  {
    var e := pos + |Text(items[0].value)|;
    var f := e + |items[0].post|;
    ItemHead(input, pos, items, e, f);
    DocComplete(input, pos, items[0].value);
    if |items| == 1 {
      LastItemJoin(input, pos, items, e, f);
    } else {
      RestItemsDoc(input, pos, items, f);
      NextItemJoin(input, pos, items, e, f, pos + |ItemsText(items)|);
    }
  }

  /** Two or more elements: the loop after the first one's ',' reads the
      others and stops on the ']'. */
  lemma {:induction false} RestItemsDoc(input: string, pos: nat, items: seq<Item>, f: nat)
    requires |items| >= 2 && ItemsDocWf(items)
    requires StartsWith(input, pos, ItemsText(items))
    requires StartsWith(input, pos + |ItemsText(items)|, "]")
    requires f == pos + |Text(items[0].value)| + |items[0].post|
    ensures f + 1 <= |input|
    ensures ArrayItems(input, f + 1) == Ok(ItemsXml(ItemsErase(items[1..])), pos + |ItemsText(items)|)
    decreases items, 0
  {
    NextItemsText(input, pos, items, f);
    ItemsDocComplete(input, f + 1, items[1..]);
  }

  /** The object loop over members with their layout: their XML in order,
      stopping on the '}'. */
  lemma {:induction false} FieldsDocComplete(input: string, pos: nat, fields: seq<Field>)
    requires |fields| >= 1 && FieldsDocWf(fields)
    requires StartsWith(input, pos, FieldsText(fields))
    requires StartsWith(input, pos + |FieldsText(fields)|, "}")
    ensures ObjectMembers(input, pos) == Ok(MembersXml(FieldsErase(fields)), pos + |FieldsText(fields)|)
    decreases fields, 1
  {
    var e := pos + |FieldText(fields[0])|;
    FieldHead(input, pos, fields, e);
    FieldRound(input, pos, fields[0], e);
    if |fields| == 1 {
      LastFieldJoin(input, pos, fields, e);
    } else {
      RestFieldsDoc(input, pos, fields, e);
      NextFieldJoin(input, pos, fields, e, pos + |FieldsText(fields)|);
    }
  }

  /** Two or more members: the loop after the first one's ',' reads the
      others and stops on the '}'. */
  lemma {:induction false} RestFieldsDoc(input: string, pos: nat, fields: seq<Field>, e: nat)
    requires |fields| >= 2 && FieldsDocWf(fields)
    requires StartsWith(input, pos, FieldsText(fields))
    requires StartsWith(input, pos + |FieldsText(fields)|, "}")
    requires e == pos + |FieldText(fields[0])|
    ensures e + 1 <= |input|
    ensures ObjectMembers(input, e + 1) == Ok(MembersXml(FieldsErase(fields[1..])), pos + |FieldsText(fields)|)
    decreases fields, 0
  {
    NextFieldsText(input, pos, fields, e);
    FieldsDocComplete(input, e + 1, fields[1..]);
  }

  /** One member with its layout: the object loop's round up to its test
      for ',', the token after the member being a ',' or the '}'. */
  lemma {:induction false} FieldRound(input: string, pos: nat, f: Field, e: nat)
    requires Blank(f.keyPre) && !IsWhitespace(f.open) && StringText(f.key) && Blank(f.colonPre)
    requires DocWf(f.value) && Blank(f.post)
    requires StartsWith(input, pos, FieldText(f))
    requires e == pos + |FieldText(f)| && e < |input| && (input[e] == ',' || input[e] == '}')
    ensures ObjectMembers(input, pos) == MembersNext(input, MemberXml(Member(f.key, Erase(f.value))), e)
    decreases f, 0
  {
    var k := pos + |f.keyPre|;
    var a := k + 1 + |f.key| + 1;
    var c := a + |f.colonPre|;
    var q := c + 1 + |Text(f.value)|;
    FieldKeyStops(input, pos, f, k, a, c, q);
    FieldValueStops(input, pos, f, k, a, c, q, e);
    DocComplete(input, c + 1, f.value);
    MemberRoundAt(input, pos, f.key, a, c, ToXml(Erase(f.value)), q, e);
  }

  // ---------------------------------------------------------------------
  // Whole documents
  // ---------------------------------------------------------------------

  /** A whole document that spells a well-formed tree, with any whitespace
      before any of its tokens, translates to that tree's XML with an empty
      error list. */
  lemma TranslateDoc(d: Doc, outOfRange: string)
    requires DocWf(d)
    ensures Parse(Text(d), outOfRange) == Translation(ToXml(Erase(d)), [])
  {
    var input := Text(d);
    assert StartsWith(input, 0, input);
    DocComplete(input, 0, d);
  }

  /** The tree a well-formed layout spells is itself well-formed. */
  lemma {:induction false} DocWfErases(d: Doc)
    requires DocWf(d)
    ensures Wf(Erase(d))
    decreases d, 1
  {
    match d
    case Compact(_, _) =>
    case ArrayDoc(_, _, items) =>
      ItemsWfErase(items);
    case ObjectDoc(_, _, fields) =>
      FieldsWfErase(fields);
  }

  lemma {:induction false} ItemsWfErase(items: seq<Item>)
    requires ItemsDocWf(items)
    ensures ItemsWf(ItemsErase(items))
    decreases items, 0
  {
    if items != [] {
      DocWfErases(items[0].value);
      ItemsTailWf(items);
      ItemsWfErase(items[1..]);
      var s := ItemsErase(items);
      assert s == [Erase(items[0].value)] + ItemsErase(items[1..]);
      forall i | 0 <= i < |s|
        ensures Wf(s[i])
      {
        if i > 0 {
          assert s[i] == ItemsErase(items[1..])[i - 1];
        }
      }
    }
  }

  lemma {:induction false} FieldsWfErase(fields: seq<Field>)
    requires FieldsDocWf(fields)
    ensures MembersWf(FieldsErase(fields))
    decreases fields, 0
  {
    if fields != [] {
      DocWfErases(fields[0].value);
      FieldsTailWf(fields);
      FieldsWfErase(fields[1..]);
      var s := FieldsErase(fields);
      assert s == [Member(fields[0].key, Erase(fields[0].value))] + FieldsErase(fields[1..]);
      forall i | 0 <= i < |s|
        ensures StringText(s[i].key) && Wf(s[i].value)
      {
        if i > 0 {
          assert s[i] == FieldsErase(fields[1..])[i - 1];
        }
      }
    }
  }

  /** The compact text is one layout among many: the one with no whitespace
      at all. */
  lemma CompactIsLayout(j: Json)
    requires Wf(j)
    ensures DocWf(Compact("", j)) && Text(Compact("", j)) == Serialize(j) && Erase(Compact("", j)) == j
  {
    assert "" + Serialize(j) == Serialize(j);
  }
}
