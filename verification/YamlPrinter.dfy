/** The block-YAML printer of `scripts/generate_openapi.py`. */
module YamlPrinter {
  import opened Json
  import opened TextLines

  function Spaces(n: nat): (t: string)
    ensures |t| == n && forall i :: 0 <= i < n ==> t[i] == ' '
  {
    seq(n, i => ' ')
  }

  predicate Nested(v: Json) {
    (v.Obj? && v.members != []) || (v.Arr? && v.items != [])
  }

  /** `scalar`, and the flow forms `{}` and `[]` of the empty containers */
  function Inline(v: Json): string
    requires !Nested(v)
  {
    match v
    case Null => "null"
    case Bool(b) => if b then "true" else "false"
    case Int(n) => IntText(n)
    case Float(text) => text
    case Str(s) => Quote(s)
    case Arr(_) => "[]"
    case Obj(_) => "{}"
  }

  /** What follows the key, and what follows the dash, on the line itself */
  function EntryTail(v: Json): string { if Nested(v) then ":" else ": " + Inline(v) }

  function ItemTail(v: Json): string { if Nested(v) then "" else " " + Inline(v) }

  /** `yaml_lines` */
  function YamlLines(v: Json, indent: nat): (lines: seq<string>)
    ensures lines != []
    decreases v, 0
  {
    if v.Obj? && v.members != [] then EntryLines(v.members, indent)
    else if v.Arr? && v.items != [] then ItemLines(v.items, indent)
    else [Spaces(indent) + Inline(v)]
  }

  function EntryLines(members: seq<Member>, indent: nat): (lines: seq<string>)
    ensures members != [] ==> lines != []
    decreases members
  {
    if members == [] then [] else EntryBlock(members[0], indent) + EntryLines(members[1..], indent)
  }

  function EntryBlock(m: Member, indent: nat): (lines: seq<string>)
    ensures lines != []
    decreases m
  {
    [Spaces(indent) + (Quote(m.key) + EntryTail(m.value))]
    + if Nested(m.value) then YamlLines(m.value, indent + 2) else []
  }

  function ItemLines(items: seq<Json>, indent: nat): (lines: seq<string>)
    ensures items != [] ==> lines != []
    decreases items
  {
    if items == [] then [] else ItemBlock(items[0], indent) + ItemLines(items[1..], indent)
  }

  function ItemBlock(item: Json, indent: nat): (lines: seq<string>)
    ensures lines != []
    decreases item, 1
  {
    [Spaces(indent) + ("-" + ItemTail(item))] + if Nested(item) then YamlLines(item, indent + 2) else []
  }

  function DumpYaml(v: Json): string {
    JoinLines(YamlLines(v, 0)) + "\n"
  }

  // ----- what a printed float looks like -----

  predicate FloatChar(c: char) {
    '0' <= c <= '9' || c == '+' || c == '-' || c == 'i' || c == 'f' || c == 'a' || FloatMark(c)
  }

  predicate FloatMark(c: char) {
    c == '.' || c == 'e' || c == 'n'
  }

  /** Python prints a float with these characters only, and with a point, an
      exponent, `inf` or `nan` that no printed integer has. */
  predicate FloatText(t: string) {
    (forall i :: 0 <= i < |t| ==> FloatChar(t[i])) && exists i :: 0 <= i < |t| && FloatMark(t[i])
  }

  predicate FloatsPrinted(v: Json) {
    match v
    case Float(text) => FloatText(text)
    case Arr(items) => forall x | x in items :: FloatsPrinted(x)
    case Obj(members) => forall m | m in members :: FloatsPrinted(m.value)
    case _ => true
  }
}
