/** A reference description of what the parser accepts and produces: JSON
    values as a tree, the compact JSON text of a tree, and the XML the
    translation is meant to give for it. The parser itself never builds
    such a tree. */
module JsonTree {
  import opened Chars

  datatype Json =
    | JNull
    | JBool(b: bool)
    | JNumber(digits: string)
    | JString(s: string)
    | JArray(items: seq<Json>)
    | JObject(members: seq<Member>)

  datatype Member = Member(key: string, value: Json)

  /** Text the number production reads back unchanged: a digit first, then
      digits and dots in any order (`1.2.3` included). */
  predicate NumberText(t: string) {
    && |t| >= 1
    && IsDigit(t[0])
    && forall i | 0 <= i < |t| :: IsNumberChar(t[i])
  }

  /** Text the string production reads back unchanged: no '"' inside. */
  predicate StringText(t: string) {
    '"' !in t
  }

  /** The trees whose translation can succeed: no `null` anywhere (the null
      production leaves the cursor on its 'n'), numbers as above, and strings
      and keys without quotes. */
  predicate Wf(j: Json)
    decreases j, 1
  {
    match j
    case JNull => false
    case JBool(_) => true
    case JNumber(t) => NumberText(t)
    case JString(s) => StringText(s)
    case JArray(items) => ItemsWf(items)
    case JObject(ms) => MembersWf(ms)
  }

  predicate ItemsWf(items: seq<Json>)
    decreases items, 0
  {
    forall i | 0 <= i < |items| :: Wf(items[i])
  }

  predicate MembersWf(ms: seq<Member>)
    decreases ms, 0
  {
    forall i | 0 <= i < |ms| :: StringText(ms[i].key) && Wf(ms[i].value)
  }

  /** The XML for a tree: one wrapper element per value, object members as
      elements named after their keys, children concatenated without separator. */
  function ToXml(j: Json): string
    decreases j, 1
  {
    match j
    case JNull => "<null/>"
    case JBool(b) => if b then "<boolean>true</boolean>" else "<boolean>false</boolean>"
    case JNumber(t) => "<number>" + t + "</number>"
    case JString(s) => "<string>" + s + "</string>"
    case JArray(items) => "<array>" + ItemsXml(items) + "</array>"
    case JObject(ms) => "<object>" + MembersXml(ms) + "</object>"
  }

  function ItemsXml(items: seq<Json>): string
    decreases items, 0
  {
    if items == [] then "" else ToXml(items[0]) + ItemsXml(items[1..])
  }

  function MemberXml(m: Member): string
    decreases m, 0
  {
    "<" + m.key + ">" + ToXml(m.value) + "</" + m.key + ">"
  }

  function MembersXml(ms: seq<Member>): string
    decreases ms, 0
  {
    if ms == [] then "" else MemberXml(ms[0]) + MembersXml(ms[1..])
  }

  /** Compact JSON text for a tree: no whitespace, ',' between children. */
  function Serialize(j: Json): string
    decreases j, 1
  {
    match j
    case JNull => "null"
    case JBool(b) => if b then "true" else "false"
    case JNumber(t) => t
    case JString(s) => "\"" + s + "\""
    case JArray(items) => "[" + SerializeItems(items) + "]"
    case JObject(ms) => "{" + SerializeMembers(ms) + "}"
  }

  function SerializeItems(items: seq<Json>): string
    decreases items, 0
  {
    if items == [] then ""
    else if |items| == 1 then Serialize(items[0])
    else Serialize(items[0]) + "," + SerializeItems(items[1..])
  }

  function SerializeMember(m: Member): string
    decreases m, 0
  {
    "\"" + m.key + "\":" + Serialize(m.value)
  }

  function SerializeMembers(ms: seq<Member>): string
    decreases ms, 0
  {
    if ms == [] then ""
    else if |ms| == 1 then SerializeMember(ms[0])
    else SerializeMember(ms[0]) + "," + SerializeMembers(ms[1..])
  }
}
