/** JSON text together with its layout: every place where the parser calls
    `skipWhitespace()` before reading a token may hold a run of whitespace.
    A `Doc` spells one value; `Erase` forgets the layout and gives the tree. */
module Layout {
  import opened Chars
  import opened JsonTree

  /** A run of characters `skipWhitespace()` steps over. */
  predicate Blank(w: string) {
    forall i | 0 <= i < |w| :: IsWhitespace(w[i])
  }

  /** A value as written, with the whitespace `pre` before its first token.
      A `Compact` value is written as `Serialize` writes it; arrays and
      objects may instead spell out their children's layout, `inner` being
      the whitespace right after the opening bracket. */
  datatype Doc =
    | Compact(pre: string, value: Json)
    | ArrayDoc(pre: string, inner: string, items: seq<Item>)
    | ObjectDoc(pre: string, inner: string, fields: seq<Field>)

  /** An array element and the whitespace after it, before the next ',' or
      the closing ']'. */
  datatype Item = Item(value: Doc, post: string)

  /** An object member: whitespace, the character `open` the key reader
      steps over unchecked (a '"' in JSON), the key and its closing '"',
      whitespace, ':', the value, and the whitespace before the next ',' or
      the closing '}'. */
  datatype Field = Field(keyPre: string, open: char, key: string, colonPre: string, value: Doc, post: string)

  /** The text of a value. */
  function Text(d: Doc): string
    decreases d, 2
  {
    d.pre + Body(d)
  }

  /** The text of a value from its first token on. */
  function Body(d: Doc): string
    decreases d, 1
  {
    match d
    case Compact(_, v) => Serialize(v)
    case ArrayDoc(_, inner, items) => "[" + inner + ItemsText(items) + "]"
    case ObjectDoc(_, inner, fields) => "{" + inner + FieldsText(fields) + "}"
  }

  /** Array elements, each followed by its whitespace, separated by ','. */
  function ItemsText(items: seq<Item>): string
    decreases items, 0
  {
    if items == [] then ""
    else if |items| == 1 then Text(items[0].value) + items[0].post
    else Text(items[0].value) + items[0].post + "," + ItemsText(items[1..])
  }

  function FieldText(f: Field): string
    decreases f, 0
  {
    f.keyPre + [f.open] + f.key + "\"" + f.colonPre + ":" + Text(f.value) + f.post
  }

  /** Object members separated by ','. */
  function FieldsText(fields: seq<Field>): string
    decreases fields, 0
  {
    if fields == [] then ""
    else if |fields| == 1 then FieldText(fields[0])
    else FieldText(fields[0]) + "," + FieldsText(fields[1..])
  }

  /** The tree a value spells. */
  function Erase(d: Doc): Json
    decreases d, 1
  {
    match d
    case Compact(_, v) => v
    case ArrayDoc(_, _, items) => JArray(ItemsErase(items))
    case ObjectDoc(_, _, fields) => JObject(FieldsErase(fields))
  }

  function ItemsErase(items: seq<Item>): seq<Json>
    decreases items, 0
  {
    if items == [] then [] else [Erase(items[0].value)] + ItemsErase(items[1..])
  }

  function FieldsErase(fields: seq<Field>): seq<Member>
    decreases fields, 0
  {
    if fields == [] then [] else [Member(fields[0].key, Erase(fields[0].value))] + FieldsErase(fields[1..])
  }

  /** Layouts the parser reads back: every gap is whitespace, keys hold no
      quote, every compact part is a well-formed tree, and each key opens on
      a character that is not whitespace; the first key of an object must
      not open on '}', which would close the object at once. */
  predicate DocWf(d: Doc)
    decreases d, 1
  {
    && Blank(d.pre)
    && match d
       case Compact(_, v) => Wf(v)
       case ArrayDoc(_, inner, items) => Blank(inner) && ItemsDocWf(items)
       case ObjectDoc(_, inner, fields) =>
         Blank(inner) && FieldsDocWf(fields) && (fields != [] ==> fields[0].open != '}')
  }

  predicate ItemsDocWf(items: seq<Item>)
    decreases items, 0
  {
    forall i | 0 <= i < |items| :: DocWf(items[i].value) && Blank(items[i].post)
  }

  predicate FieldsDocWf(fields: seq<Field>)
    decreases fields, 0
  {
    forall i | 0 <= i < |fields| ::
      && Blank(fields[i].keyPre) && !IsWhitespace(fields[i].open)
      && StringText(fields[i].key) && Blank(fields[i].colonPre)
      && DocWf(fields[i].value) && Blank(fields[i].post)
  }
}
