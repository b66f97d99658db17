/** The recursive-descent JSON recogniser that writes XML as it parses.
    The cursor is a value: every production takes the position it starts at
    and returns either the text it produced with the position it stopped at,
    or the position and kind of the first failure. */
module Translator {
  import opened Chars
  import opened Cursor
  import Decimal

  /** The failures the parser raises, one per `RuntimeException` it can throw. */
  datatype Fault =
    | InvalidElement          // no production matches the lookahead
    | ExpectedColon           // object key not followed by ':'
    | ExpectedCloseBrace      // object not closed by '}'
    | ExpectedCloseBracket    // array not closed by ']'
    | UnterminatedString      // no closing '"'
    | InvalidLiteral          // none of true/false/null
    | TrailingContent         // input left over after the top-level element
    | IndexOutOfRange         // `charAt` at the end of input, in the dispatch

  /** The exception message each fault carries. The text of the JVM's own
      out-of-range exception is not fixed by the program, so it is a parameter. */
  function Message(f: Fault, outOfRange: string): string {
    match f
    case InvalidElement => "Elemento inválido."
    case ExpectedColon => "Se esperaba ':' después de la clave."
    case ExpectedCloseBrace => "Se esperaba '}' al final del objeto."
    case ExpectedCloseBracket => "Se esperaba ']' al final del arreglo."
    case UnterminatedString => "Cadena sin cerrar."
    case InvalidLiteral => "Literal inválido."
    case TrailingContent => "Contenido inesperado al final del archivo."
    case IndexOutOfRange => outOfRange
  }

  /** What one production returns. */
  datatype Result =
    | Ok(text: string, pos: nat)
    | Err(at: nat, fault: Fault)

  /** A production's text inside a wrapper, failures passed through unchanged. */
  function Wrap(open: string, r: Result, close: string): (w: Result)
    ensures w.Ok? <==> r.Ok?
    ensures r.Ok? ==> w.pos == r.pos && |w.text| == |open| + |r.text| + |close|
    ensures r.Err? ==> w == r
  {
    match r
    case Err(at, fault) => Err(at, fault)
    case Ok(t, q) => Ok(open + t + close, q)
  }

  /** What one loop round wrote, in front of what the later rounds wrote. */
  function Prepend(first: string, r: Result): (w: Result)
    ensures w.Ok? <==> r.Ok?
    ensures r.Ok? ==> w.pos == r.pos && |w.text| == |first| + |r.text| && w.text[..|first|] == first
    ensures r.Err? ==> w == r
  {
    match r
    case Err(at, fault) => Err(at, fault)
    case Ok(t, q) => Ok(first + t, q)
  }

  /** The outcome of one `parse()` call on a fresh parser: the text it returns
      and the contents of its error list afterwards. */
  datatype Translation = Translation(xml: string, errors: seq<string>)

  /** `hasErrors()`. */
  predicate HasErrors(t: Translation) {
    |t.errors| > 0
  }

  /** One entry of the error list. */
  function ErrorLine(at: nat, message: string): string {
    "Error en posición " + Decimal.NatToString(at) + ": " + message
  }

  /** Every fault the program raises itself has its own message: the text of
      an error entry tells which check failed. */
  lemma MessageNamesFault(f: Fault, g: Fault, outOfRange: string)
    requires f != IndexOutOfRange && g != IndexOutOfRange
    ensures Message(f, outOfRange) == Message(g, outOfRange) <==> f == g
  {
  }

  /** An error entry gives back the position and the message it was built
      from: the decimal position is followed by ':', which no digit is. */
  lemma ErrorLineDecodes(at: nat, message: string, at': nat, message': string)
    ensures ErrorLine(at, message) == ErrorLine(at', message') <==> at == at' && message == message'
  {
    if ErrorLine(at, message) == ErrorLine(at', message') {
      var head := "Error en posición ";
      var d, d' := Decimal.NatToString(at), Decimal.NatToString(at');
      var e := ErrorLine(at, message);
      assert e == head + d + (": " + message);
      assert e == head + d' + (": " + message');
      var rest, rest' := ": " + message, ": " + message';
      assert e[|head|..] == d + rest;
      assert e[|head|..] == d' + rest';
      Decimal.DigitRunStopsAtColon(d, rest);
      Decimal.DigitRunStopsAtColon(d', rest');
      assert d == e[|head|..|head| + |d|] == d';
      Decimal.NatToStringInjective(at, at');
      assert message == e[|head| + |d| + 2..] == message';
    }
  }

  /** `parse()`: one element, then the cursor must sit exactly at the end of
      input (no whitespace is skipped first). The first failure becomes the one
      entry of the error list; the returned text is empty if the element failed
      and is the whole element's XML if only the end check failed. */
  function Parse(input: string, outOfRange: string): (t: Translation)
    ensures |t.errors| <= 1
    ensures !HasErrors(t) <==> ParseElement(input, 0).Ok? && ParseElement(input, 0).pos == |input|
    ensures !HasErrors(t) ==> t.xml == ParseElement(input, 0).text
    ensures ParseElement(input, 0).Err? ==>
              t.xml == "" && t.errors == [ErrorLine(ParseElement(input, 0).at, Message(ParseElement(input, 0).fault, outOfRange))]
    ensures ParseElement(input, 0).Ok? && ParseElement(input, 0).pos < |input| ==>
              t.xml == ParseElement(input, 0).text
              && t.errors == [ErrorLine(ParseElement(input, 0).pos, Message(TrailingContent, outOfRange))]
  {
    match ParseElement(input, 0)
    case Err(at, fault) => Translation("", [ErrorLine(at, Message(fault, outOfRange))])
    case Ok(xml, pos) =>
      if pos < |input| then Translation(xml, [ErrorLine(pos, Message(TrailingContent, outOfRange))])
      else Translation(xml, [])
  }

  /** `parseElement()`: skip whitespace, then dispatch on the lookahead.
      Containers recurse; everything else is a `Scalar`. */
  function ParseElement(input: string, pos: nat): (r: Result)
    requires pos <= |input|
    ensures r.Ok? ==> pos <= r.pos <= |input|
    ensures r.Err? ==> pos <= r.at <= |input| + 1
    decreases |input| - pos, 0
  {
    var p := SkipWhitespace(input, pos);
    var brace := Match(input, p, "{");
    if brace.0 then ParseObject(input, brace.1)
    else
      var bracket := Match(input, p, "[");
      if bracket.0 then ParseArray(input, bracket.1)
      else Scalar(input, p)
  }

  /** The non-container branches of `parseElement()`, tried in the source's
      order at the lookahead position `p`. */
  function Scalar(input: string, p: nat): (r: Result)
    requires p <= |input|
    ensures r.Ok? ==> p <= r.pos <= |input|
    ensures r.Err? ==> p <= r.at <= |input| + 1
  {
    if StartsWith(input, p, "\"") then
      Wrap("<string>", ParseString(input, p), "</string>")
    else if StartsWith(input, p, "true") || StartsWith(input, p, "false") then
      Wrap("<boolean>", ParseLiteral(input, p), "</boolean>")
    else if StartsWith(input, p, "null") then
      // the cursor is left on the 'n'
      Ok("<null/>", p)
    else if p >= |input| then
      // `charAt(index)` throws before either test is made
      Err(p, IndexOutOfRange)
    else if IsDigit(input[p]) || input[p] == '-' then
      var n := ParseNumber(input, p);
      Ok("<number>" + n.text + "</number>", n.pos)
    else
      Err(p, InvalidElement)
  }

  /** `parseObject()`, entered just after the '{'. */
  function ParseObject(input: string, pos: nat): (r: Result)
    requires pos <= |input|
    ensures r.Ok? ==> pos < r.pos <= |input|
    ensures r.Err? ==> pos <= r.at <= |input| + 1
    decreases |input| - pos, 4
  {
    var p := SkipWhitespace(input, pos);
    var close := Match(input, p, "}");
    if close.0 then Ok("<object></object>", close.1)
    else
      match ObjectMembers(input, p)
      case Err(at, fault) => Err(at, fault)
      case Ok(members, q) =>
        var end := Match(input, q, "}");
        if end.0 then Ok("<object>" + members + "</object>", end.1)
        else Err(q, ExpectedCloseBrace)
  }

  /** The `do … while (match(","))` loop of `parseObject()`, from the top of a
      round: whitespace, then the key. */
  function ObjectMembers(input: string, pos: nat): (r: Result)
    requires pos <= |input|
    ensures r.Ok? ==> pos < r.pos <= |input|
    ensures r.Err? ==> pos <= r.at <= |input| + 1
    decreases |input| - pos, 3
  {
    var p := SkipWhitespace(input, pos);
    match ParseString(input, p)
    case Err(at, fault) => Err(at, fault)
    case Ok(name, afterKey) => MemberValue(input, name, SkipWhitespace(input, afterKey))
  }

  /** The rest of an object round once the key is read and whitespace skipped:
      ':', the value, and `<key>` + value + `</key>` with the key verbatim. */
  function MemberValue(input: string, name: string, c: nat): (r: Result)
    requires c <= |input|
    ensures r.Ok? ==> c < r.pos <= |input|
    ensures r.Err? ==> c <= r.at <= |input| + 1
    decreases |input| - c, 2
  {
    var colon := Match(input, c, ":");
    if !colon.0 then Err(c, ExpectedColon)
    else
      match ParseElement(input, colon.1)
      case Err(at, fault) => Err(at, fault)
      case Ok(value, q) =>
        MembersNext(input, "<" + name + ">" + value + "</" + name + ">", SkipWhitespace(input, q))
  }

  /** The `while (match(","))` test of the object loop after a member: another
      round on ',', otherwise the loop ends here. */
  function MembersNext(input: string, member: string, q: nat): (r: Result)
    requires q <= |input|
    ensures r.Ok? ==> q <= r.pos <= |input|
    ensures r.Err? ==> q <= r.at <= |input| + 1
    decreases |input| - q, 1
  {
    var comma := Match(input, q, ",");
    if comma.0 then Prepend(member, ObjectMembers(input, comma.1))
    else Ok(member, q)
  }

  /** `parseArray()`, entered just after the '['. */
  function ParseArray(input: string, pos: nat): (r: Result)
    requires pos <= |input|
    ensures r.Ok? ==> pos < r.pos <= |input|
    ensures r.Err? ==> pos <= r.at <= |input| + 1
    decreases |input| - pos, 4
  {
    var p := SkipWhitespace(input, pos);
    var close := Match(input, p, "]");
    if close.0 then Ok("<array></array>", close.1)
    else
      match ArrayItems(input, p)
      case Err(at, fault) => Err(at, fault)
      case Ok(items, q) =>
        var end := Match(input, q, "]");
        if end.0 then Ok("<array>" + items + "</array>", end.1)
        else Err(q, ExpectedCloseBracket)
  }

  /** The `do … while (match(","))` loop of `parseArray()`: the children's XML
      concatenated with no separator. The first child starts at the very
      position the loop is entered at. */
  function ArrayItems(input: string, pos: nat): (r: Result)
    requires pos <= |input|
    ensures r.Ok? ==> pos <= r.pos <= |input|
    ensures r.Err? ==> pos <= r.at <= |input| + 1
    decreases |input| - pos, 2
  {
    match ParseElement(input, pos)
    case Err(at, fault) => Err(at, fault)
    case Ok(item, q) => ItemsNext(input, item, SkipWhitespace(input, q))
  }

  /** The `while (match(","))` test of the array loop after an element. */
  function ItemsNext(input: string, item: string, q: nat): (r: Result)
    requires q <= |input|
    ensures r.Ok? ==> q <= r.pos <= |input|
    ensures r.Err? ==> q <= r.at <= |input| + 1
    decreases |input| - q, 1
  {
    var comma := Match(input, q, ",");
    if comma.0 then Prepend(item, ArrayItems(input, comma.1))
    else Ok(item, q)
  }

  /** The scanning loop of `parseString()`: the first '"' at or after `pos`,
      or the end of input (or `pos` itself when already past it). */
  function QuoteEnd(input: string, pos: nat): (r: nat)
    ensures pos <= r
    ensures r <= |input| || r == pos
    ensures r < |input| ==> input[r] == '"'
    decreases |input| - pos
  {
    if pos >= |input| || input[pos] == '"' then pos else QuoteEnd(input, pos + 1)
  }

  /** `parseString()`: skips one character whatever it is, then returns the
      characters up to the next '"' (no escapes) and moves one past that quote. */
  function ParseString(input: string, pos: nat): (r: Result)
    ensures r.Ok? ==> r.pos == pos + |r.text| + 2 <= |input|
    ensures r.Err? ==> r.fault == UnterminatedString && r.at == (if pos + 1 < |input| then |input| else pos + 1)
  {
    var start := pos + 1;
    var stop := QuoteEnd(input, start);
    if stop >= |input| then Err(stop, UnterminatedString)
    else Ok(input[start..stop], stop + 1)
  }

  /** `parseLiteral()`: `true`, `false` or `null` by prefix alone, with no
      check of what follows. */
  function ParseLiteral(input: string, pos: nat): (r: Result)
    ensures r.Ok? ==> r.text in {"true", "false", "null"} && r.pos == pos + |r.text| <= |input|
    ensures r.Ok? ==> StartsWith(input, pos, r.text)
    ensures r.Ok? && r.text == "null" ==> !StartsWith(input, pos, "true") && !StartsWith(input, pos, "false")
    ensures r.Err? <==> !StartsWith(input, pos, "true") && !StartsWith(input, pos, "false") && !StartsWith(input, pos, "null")
    ensures r.Err? ==> r == Err(pos, InvalidLiteral)
  {
    if StartsWith(input, pos, "true") then Ok("true", pos + 4)
    else if StartsWith(input, pos, "false") then Ok("false", pos + 5)
    else if StartsWith(input, pos, "null") then Ok("null", pos + 4)
    else Err(pos, InvalidLiteral)
  }

  /** The scanning loop of `parseNumber()`. */
  function NumberEnd(input: string, pos: nat): (r: nat)
    ensures pos <= r
    ensures r <= |input| || r == pos
    ensures r < |input| ==> !IsNumberChar(input[r])
    decreases |input| - pos
  {
    if pos >= |input| || !IsNumberChar(input[pos]) then pos else NumberEnd(input, pos + 1)
  }

  /** `parseNumber()`: the longest run of digits and '.' from the cursor,
      verbatim, possibly empty. It never fails. */
  function ParseNumber(input: string, pos: nat): (r: Result)
    requires pos <= |input|
    ensures r.Ok?
    ensures pos <= r.pos <= |input| && |r.text| == r.pos - pos
  {
    var stop := NumberEnd(input, pos);
    Ok(input[pos..stop], stop)
  }
}
