/** One field tree, compiled to a JSON Schema and interpreted by a validator. */
module SchemaUtil {
  import opened Core
  import opened Json

  datatype ParamType = String | Number | Integer | Boolean | Object | Array

  datatype ToolParam = ToolParam(
    name: string,
    description: string,
    typ: ParamType,
    required: bool,
    enumValues: seq<string>,
    children: seq<ToolParam>,
    itemType: ParamType,
    hasItems: bool)

  function TypeName(t: ParamType): string {
    match t
    case String => "string"
    case Number => "number"
    case Integer => "integer"
    case Boolean => "boolean"
    case Object => "object"
    case Array => "array"
  }

  // ---- The writer ----

  function Strings(ss: seq<string>): (r: seq<Json>)
    ensures |r| == |ss| && forall i | 0 <= i < |ss| :: r[i] == JString(ss[i])
  {
    if ss == [] then [] else [JString(ss[0])] + Strings(ss[1..])
  }

  function RequiredNames(fields: seq<ToolParam>): seq<string> {
    if fields == [] then []
    else (if fields[0].required then [fields[0].name] else []) + RequiredNames(fields[1..])
  }

  /** `po` with the schema of one field written into it. */
  function ParamInto(po: seq<Member>, p: ToolParam, strict: bool): seq<Member>
    decreases p, 1
  {
    var typed := Put(po, TYPE, JString(TypeName(p.typ)));
    var described := if p.description == "" then typed else Put(typed, DESCRIPTION, JString(p.description));
    var limited := if p.enumValues == [] then described else Put(described, ENUM, JArray(Strings(p.enumValues)));
    if p.typ == Object && p.children != [] then ObjectInto(limited, p.children, strict)
    else if p.typ == Array && p.hasItems then Put(limited, ITEMS, JObject(ItemMembers(p, strict)))
    else limited
  }

  function ItemMembers(p: ToolParam, strict: bool): seq<Member>
    decreases p, 0
  {
    if p.itemType == Object && p.children != [] then ObjectInto([], p.children, strict)
    else Put([], TYPE, JString(TypeName(p.itemType)))
  }

  /** The properties object, built field by field. */
  function PropertiesInto(props: seq<Member>, fields: seq<ToolParam>, strict: bool): seq<Member>
    decreases fields, 0
  {
    if fields == [] then props
    else PropertiesInto(Put(props, fields[0].name, JObject(ParamInto([], fields[0], strict))), fields[1..], strict)
  }

  /** `out` with the schema of an object written into it. */
  function ObjectInto(out: seq<Member>, fields: seq<ToolParam>, strict: bool): seq<Member>
    decreases fields, 1
  {
    var o1 := Put(out, TYPE, JString("object"));
    var o2 := Put(o1, PROPERTIES, JObject(PropertiesInto([], fields, strict)));
    var names := RequiredNames(fields);
    var o3 := if names == [] then o2 else Put(o2, REQUIRED, JArray(Strings(names)));
    if strict then Put(o3, ADDITIONAL, JBool(false)) else o3
  }

  method WriteParamSchema(p: ToolParam, po: seq<Member>, strict: bool) returns (r: seq<Member>)
    ensures r == ParamInto(po, p, strict)
    decreases p, 1
  {
    r := Put(po, TYPE, JString(TypeName(p.typ)));
    if p.description != "" { r := Put(r, DESCRIPTION, JString(p.description)); }
    if p.enumValues != [] {
      var e: seq<Json> := [];
      for i := 0 to |p.enumValues|
        invariant e == Strings(p.enumValues)[..i]
      {
        e := e + [JString(p.enumValues[i])];
      }
      assert Strings(p.enumValues)[..|p.enumValues|] == Strings(p.enumValues);
      r := Put(r, ENUM, JArray(e));
    }
    if p.typ == Object && p.children != [] {
      r := WriteObjectSchema(p.children, r, strict);
      return;
    }
    if p.typ == Array && p.hasItems {
      var items: seq<Member> := [];
      if p.itemType == Object && p.children != [] {
        items := WriteObjectSchema(p.children, items, strict);
      } else {
        items := Put(items, TYPE, JString(TypeName(p.itemType)));
      }
      r := Put(r, ITEMS, JObject(items));
    }
  }

  method WriteObjectSchema(fields: seq<ToolParam>, out: seq<Member>, strict: bool) returns (r: seq<Member>)
    ensures r == ObjectInto(out, fields, strict)
    decreases fields, 0
  {
    r := Put(out, TYPE, JString("object"));
    var props: seq<Member> := [];
    assert fields[0..] == fields;
    for i := 0 to |fields|
      invariant PropertiesInto(props, fields[i..], strict) == PropertiesInto([], fields, strict)
    {
      assert fields[i..][0] == fields[i] && fields[i..][1..] == fields[i + 1..];
      var po := WriteParamSchema(fields[i], [], strict);
      props := Put(props, fields[i].name, JObject(po));
    }
    r := Put(r, PROPERTIES, JObject(props));
    var names := ListRequired(fields);
    if names != [] {
      r := Put(r, REQUIRED, JArray(Strings(names)));
    }
    if strict { r := Put(r, ADDITIONAL, JBool(false)); }
  }

  method ListRequired(fields: seq<ToolParam>) returns (names: seq<string>)
    ensures names == RequiredNames(fields)
  {
    names := [];
    assert fields[0..] == fields;
    for i := 0 to |fields|
      invariant names + RequiredNames(fields[i..]) == RequiredNames(fields)
    {
      assert fields[i..][0] == fields[i] && fields[i..][1..] == fields[i + 1..];
      var rest := RequiredNames(fields[i + 1..]);
      assert names + ([fields[i].name] + rest) == names + [fields[i].name] + rest;
      if fields[i].required { names := names + [fields[i].name]; }
    }
    assert names + [] == names;
  }

  /** True if every field, nested ones included, is required. */
  predicate AllFieldsRequired(fields: seq<ToolParam>) {
    forall i | 0 <= i < |fields| ::
      fields[i].required && (fields[i].children != [] ==> AllFieldsRequired(fields[i].children))
  }

  // ---- The validator ----

  const LONG_MIN: int := -0x8000_0000
  const LONG_MAX: int := 0x7FFF_FFFF

  /** What the parser's values count as: an integer must be stored as one and
      fit a 32-bit long; any number passes as a number. */
  predicate TypeMatches(t: ParamType, v: Json) {
    match t
    case String => v.JString?
    case Integer => v.JInt? && LONG_MIN <= v.n <= LONG_MAX
    case Number => v.JInt? || v.JReal?
    case Boolean => v.JBool?
    case Object => v.JObject?
    case Array => v.JArray?
  }

  /** A string handed over as `const char*` ends at its first NUL. */
  function CString(s: string): string {
    if s == "" || s[0] == '\0' then "" else [s[0]] + CString(s[1..])
  }

  /** Every declared field: required ones present, present ones valid.
      Undeclared members are tolerated. */
  predicate ValidateFields(fields: seq<ToolParam>, obj: seq<Member>)
    decreases fields, 0
  {
    forall i | 0 <= i < |fields| :: FieldOk(fields[i], Lookup(obj, fields[i].name))
  }

  /** One field; null and missing are the same. */
  predicate FieldOk(p: ToolParam, v: Json)
    decreases p, 2
  {
    if v.JNull? then !p.required else ValidateValue(p, v)
  }

  predicate ValidateValue(p: ToolParam, v: Json)
    decreases p, 1
  {
    && TypeMatches(p.typ, v)
    && (p.typ == String && p.enumValues != [] ==> CString(v.s) in p.enumValues)
    && (p.typ == Object && p.children != [] ==> ValidateFields(p.children, v.members))
    && (p.typ == Array && p.hasItems ==> forall i | 0 <= i < |v.items| :: ItemOk(p, v.items[i]))
  }

  predicate ItemOk(p: ToolParam, item: Json)
    decreases p, 0
  {
    && TypeMatches(p.itemType, item)
    && (p.itemType == Object && p.children != [] ==> ValidateFields(p.children, item.members))
  }

  /** The text given to the validator, after parsing. */
  datatype Document = Empty | Malformed | Parsed(json: Json)

  /** Anything but an object reads as an object without members. */
  function ValidateObject(fields: seq<ToolParam>, doc: Document): Status {
    match doc
    case Malformed => Fail(SchemaValidationFailed)
    case Empty => if ValidateFields(fields, []) then Ok else Fail(SchemaValidationFailed)
    case Parsed(j) =>
      if ValidateFields(fields, if j.JObject? then j.members else []) then Ok else Fail(SchemaValidationFailed)
  }
}
