/** How the role tables' columns reach the service: as JSON values, decoded again as if they were text. */
module RbacCells {
  import opened Wrappers

  datatype Json =
    | Null
    | Bool(b: bool)
    | Number(n: int)
    | Text(s: string)
    | Array(items: seq<Json>)
    | Object(fields: map<string, Json>)

  type Permission = (string, string) // resource, action

  /** `serde_json::from_str`, which the decoders only call. */
  type Parser = string -> Option<Json>

  predicate LooksLikeJson(s: string) { s != "" && (s[0] == '{' || s[0] == '[') }

  /** What the decoders rely on: `[]` is the empty list, and no string value opens with a bracket or brace. */
  ghost predicate ReadsJson(parse: Parser) {
    && parse("[]") == Some(Array([]))
    && (forall s :: s != "" && (s[0] == '{' || s[0] == '[') && parse(s).Some? ==> !parse(s).value.Text?)
  }

  // ----- what the store delivers: a JSONB column as the value it holds, others converted -----

  /** Text that looks like JSON and parses is delivered as the parsed value. */
  function TextCell(parse: Parser, s: string): Json {
    if LooksLikeJson(s) && parse(s).Some? then parse(s).value else Text(s)
  }

  function BoolCell(b: Option<bool>): Json { if b.Some? then Bool(b.value) else Null }

  // ----- what the service makes of a cell -----

  function AsStr(cell: Json): Option<string> { if cell.Text? then Some(cell.s) else None }

  function Or<T>(x: Option<T>, default: T): T { if x.Some? then x.value else default }

  /** A JSON value as a list of strings. */
  function AsStrings(v: Json): Option<seq<string>> {
    if v.Array? && forall i :: 0 <= i < |v.items| ==> v.items[i].Text?
    then Some(seq(|v.items|, i requires 0 <= i < |v.items| && v.items[i].Text? => v.items[i].s))
    else None
  }

  /** A permission is an object, or the list of its three fields in order; conditions are never read. */
  function AsPermission(v: Json): Option<Permission> {
    if v.Object? && "resource" in v.fields && "action" in v.fields
       && v.fields["resource"].Text? && v.fields["action"].Text?
    then Some((v.fields["resource"].s, v.fields["action"].s))
    else if v.Array? && |v.items| == 3 && v.items[0].Text? && v.items[1].Text?
    then Some((v.items[0].s, v.items[1].s))
    else None
  }

  function AsPermissions(v: Json): Option<seq<Permission>> {
    if v.Array? && forall i :: 0 <= i < |v.items| ==> AsPermission(v.items[i]).Some?
    then Some(seq(|v.items|, i requires 0 <= i < |v.items| && AsPermission(v.items[i]).Some? =>
                    AsPermission(v.items[i]).value))
    else None
  }

  function ParsedList<T>(parse: Parser, text: string, decode: Json -> Option<seq<T>>): seq<T> {
    var v := parse(text);
    if v.Some? then Or(decode(v.value), []) else []
  }

  /** The decoder of the service: a cell that is no string counts as the text `[]`. */
  function ReadList<T>(parse: Parser, cell: Json, decode: Json -> Option<seq<T>>): seq<T> {
    ParsedList(parse, Or(AsStr(cell), "[]"), decode)
  }

  /** The list a cell holds, be it as a JSON value or as JSON text within a string. */
  function HeldList<T>(parse: Parser, cell: Json, decode: Json -> Option<seq<T>>): seq<T> {
    if cell.Text? then ParsedList(parse, cell.s, decode) else Or(decode(cell), [])
  }

  /** A list is read exactly when it is held as text; held as a JSON value it is read as empty. */
  lemma ReadsOnlyText<T>(parse: Parser, cell: Json, decode: Json -> Option<seq<T>>)
    requires ReadsJson(parse) && decode(Array([])) == Some([])
    ensures ReadList(parse, cell, decode) == if cell.Text? then HeldList(parse, cell, decode) else []
    ensures ReadList(parse, cell, decode) == HeldList(parse, cell, decode)
      <==> cell.Text? || HeldList(parse, cell, decode) == []
  {
  }

  /** A permission may also be written as the list of its three fields, and as no list of another length. */
  lemma ListedPermission(resource: string, action: string, conditions: Json, items: seq<Json>)
    ensures AsPermissions(Array([Array([Text(resource), Text(action), conditions])])) == Some([(resource, action)])
    ensures |items| != 3 ==> AsPermission(Array(items)) == None && AsPermissions(Array([Array(items)])) == None
  {
    var one := Array([Text(resource), Text(action), conditions]);
    assert AsPermission(one) == Some((resource, action));
    assert AsPermissions(Array([one])).value == [(resource, action)];
    if |items| != 3 { assert Array([Array(items)]).items[0] == Array(items); }
  }

  lemma EmptyListsDecode()
    ensures AsStrings(Array([])) == Some([]) && AsPermissions(Array([])) == Some([])
  {
    assert AsStrings(Array([])).value == [] && AsPermissions(Array([])).value == [];
  }

  // ----- what the service writes -----

  function StringsJson(ss: seq<string>): Json {
    Array(seq(|ss|, i requires 0 <= i < |ss| => Text(ss[i])))
  }

  function PermissionsJson(ps: seq<Permission>): Json {
    Array(seq(|ps|, i requires 0 <= i < |ps| =>
                Object(map["resource" := Text(ps[i].0), "action" := Text(ps[i].1), "conditions" := Null])))
  }

  /** What is written holds the list that was given. */
  lemma WrittenIsHeld(parse: Parser, ss: seq<string>, ps: seq<Permission>)
    ensures HeldList(parse, StringsJson(ss), AsStrings) == ss
    ensures HeldList(parse, PermissionsJson(ps), AsPermissions) == ps
  {
    var v := PermissionsJson(ps);
    forall i | 0 <= i < |ps| ensures AsPermission(v.items[i]) == Some(ps[i]) {
      assert v.items[i].fields["resource"] == Text(ps[i].0);
    }
    assert AsPermissions(v).value == ps;
    assert AsStrings(StringsJson(ss)).value == ss;
  }

  /** Text that parses to the list is read as that list, text that does not parse as none. */
  lemma TextIsRead(parse: Parser, s: string, ss: seq<string>, ps: seq<Permission>)
    ensures parse(s) == Some(StringsJson(ss)) ==> ReadList(parse, Text(s), AsStrings) == ss
    ensures parse(s) == Some(PermissionsJson(ps)) ==> ReadList(parse, Text(s), AsPermissions) == ps
    ensures parse(s).None? ==> ReadList(parse, Text(s), AsStrings) == [] && ReadList(parse, Text(s), AsPermissions) == []
  {
    WrittenIsHeld(parse, ss, ps);
  }
}
