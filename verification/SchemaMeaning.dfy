/** The emitted schema and the validator mean the same. */
module SchemaMeaning {
  import opened Core
  import opened Json
  import opened SchemaUtil
  import opened Text

  ghost predicate Distinct(fields: seq<ToolParam>) {
    forall i, j | 0 <= i < j < |fields| :: fields[i].name != fields[j].name
  }

  /** Names are distinct at each level, and only strings are enumerated: what
      every field tree made with the field builder satisfies. */
  ghost predicate WellBuilt(fields: seq<ToolParam>)
    decreases fields
  {
    && Distinct(fields)
    && forall i | 0 <= i < |fields| ::
         (fields[i].enumValues != [] ==> fields[i].typ == String) && WellBuilt(fields[i].children)
  }

  /** One field's part of an object schema. */
  ghost predicate SchemaOk(p: ToolParam, obj: seq<Member>, strict: bool) {
    && (p.required ==> Has(obj, p.name))
    && (Has(obj, p.name) ==> Satisfies(JObject(ParamInto([], p, strict)), Lookup(obj, p.name)))
  }

  ghost predicate Declared(fields: seq<ToolParam>, name: string) {
    exists i :: 0 <= i < |fields| && fields[i].name == name
  }

  ghost predicate NoExtras(fields: seq<ToolParam>, obj: seq<Member>) {
    forall j | 0 <= j < |obj| :: Declared(fields, obj[j].name)
  }

  /** What an object schema demands of the members of an object. */
  ghost predicate ObjectOk(fields: seq<ToolParam>, obj: seq<Member>, strict: bool) {
    (forall i | 0 <= i < |fields| :: SchemaOk(fields[i], obj, strict)) && (strict ==> NoExtras(fields, obj))
  }

  ghost predicate ItemSchemaOk(p: ToolParam, item: Json, strict: bool) {
    if p.itemType == Object && p.children != [] then item.JObject? && ObjectOk(p.children, item.members, strict)
    else TypeKeywordOk(TypeName(p.itemType), item)
  }

  // ---- What the writer emits ----

  function Property(p: ToolParam, strict: bool): Member {
    Member(p.name, JObject(ParamInto([], p, strict)))
  }

  function Properties(fields: seq<ToolParam>, strict: bool): seq<Member> {
    if fields == [] then [] else [Property(fields[0], strict)] + Properties(fields[1..], strict)
  }

  lemma {:induction false} PropertyAt(fields: seq<ToolParam>, strict: bool)
    ensures |Properties(fields, strict)| == |fields|
    ensures forall i | 0 <= i < |fields| :: Properties(fields, strict)[i] == Property(fields[i], strict)
    decreases |fields|
  {
    hide Property;
    if fields != [] {
      PropertyAt(fields[1..], strict);
    }
  }

  lemma {:induction false} PutAtEnd(props: seq<Member>, m: Member)
    requires !Has(props, m.name)
    ensures Put(props, m.name, m.value) == props + [m]
    ensures forall name | name != m.name && !Has(props, name) :: !Has(props + [m], name)
  {
    forall name | name != m.name && !Has(props, name) ensures !Has(props + [m], name) {
      LookupPut(props, m.name, m.value, name);
    }
  }

  /** With distinct names, the properties object lists the fields in order. */
  lemma {:induction false} PropertiesAre(props: seq<Member>, fields: seq<ToolParam>, strict: bool)
    requires Distinct(fields)
    requires forall i | 0 <= i < |fields| :: !Has(props, fields[i].name)
    ensures PropertiesInto(props, fields, strict) == props + Properties(fields, strict)
    decreases |fields|
  {
    hide ParamInto, Has, Put;
    if fields != [] {
      var m := Property(fields[0], strict);
      PutAtEnd(props, m);
      PropertiesAre(props + [m], fields[1..], strict);
      ConcatAssociates(props, [m], Properties(fields[1..], strict));
    }
  }

  lemma {:induction false} KeywordsDiffer()
    ensures TYPE != ENUM && TYPE != PROPERTIES && TYPE != REQUIRED && TYPE != ITEMS && TYPE != ADDITIONAL
        && TYPE != DESCRIPTION
    ensures ENUM != PROPERTIES && ENUM != REQUIRED && ENUM != ITEMS && ENUM != ADDITIONAL && ENUM != DESCRIPTION
    ensures PROPERTIES != REQUIRED && PROPERTIES != ITEMS && PROPERTIES != ADDITIONAL && PROPERTIES != DESCRIPTION
    ensures REQUIRED != ITEMS && REQUIRED != ADDITIONAL && REQUIRED != DESCRIPTION
    ensures ITEMS != ADDITIONAL && ITEMS != DESCRIPTION && ADDITIONAL != DESCRIPTION
  {
    assert TYPE[0] == 't' && ENUM[0] == 'e' && PROPERTIES[0] == 'p' && REQUIRED[0] == 'r' && ITEMS[0] == 'i';
    assert ADDITIONAL[0] == 'a' && DESCRIPTION[0] == 'd';
  }

  /** The keywords of an object schema. */
  lemma {:induction false} ObjectKeywords(out: seq<Member>, fields: seq<ToolParam>, strict: bool)
    ensures var m, names := ObjectInto(out, fields, strict), RequiredNames(fields);
      && Lookup(m, TYPE) == JString("object") && Lookup(m, ENUM) == Lookup(out, ENUM)
      && Has(m, PROPERTIES) && Lookup(m, PROPERTIES) == JObject(PropertiesInto([], fields, strict))
      && Lookup(m, REQUIRED) == (if names == [] then Lookup(out, REQUIRED) else JArray(Strings(names)))
      && Has(m, ITEMS) == Has(out, ITEMS)
      && Lookup(m, ADDITIONAL) == (if strict then JBool(false) else Lookup(out, ADDITIONAL))
  {
    KeywordsDiffer();
    hide Put, Lookup, Has, PropertiesInto, RequiredNames, Strings, TYPE, ENUM, PROPERTIES, REQUIRED, ITEMS, ADDITIONAL,
         DESCRIPTION;
    var o1 := Put(out, TYPE, JString("object"));
    var o2 := Put(o1, PROPERTIES, JObject(PropertiesInto([], fields, strict)));
    var names := RequiredNames(fields);
    var o3 := if names == [] then o2 else Put(o2, REQUIRED, JArray(Strings(names)));
    forall k | k in {TYPE, ENUM, PROPERTIES, REQUIRED, ITEMS, ADDITIONAL}
      ensures Lookup(ObjectInto(out, fields, strict), k) ==
              if strict && k == ADDITIONAL then JBool(false)
              else if names != [] && k == REQUIRED then JArray(Strings(names))
              else if k == PROPERTIES then JObject(PropertiesInto([], fields, strict))
              else if k == TYPE then JString("object") else Lookup(out, k)
      ensures Has(ObjectInto(out, fields, strict), k) ==
              (k == TYPE || k == PROPERTIES || (names != [] && k == REQUIRED)
               || (strict && k == ADDITIONAL) || Has(out, k))
    {
      LookupPut(out, TYPE, JString("object"), k);
      LookupPut(o1, PROPERTIES, JObject(PropertiesInto([], fields, strict)), k);
      LookupPut(o2, REQUIRED, JArray(Strings(names)), k);
      LookupPut(o3, ADDITIONAL, JBool(false), k);
    }
  }

  /** The members of a schema by their names in JSON Schema. */
  lemma {:induction false} KeywordNames(fields: seq<ToolParam>, strict: bool)
    ensures var m, names := ObjectInto([], fields, strict), RequiredNames(fields);
      && Lookup(m, "type") == JString("object")
      && Lookup(m, "properties") == JObject(PropertiesInto([], fields, strict))
      && Lookup(m, "required") == (if names == [] then JNull else JArray(Strings(names)))
      && Lookup(m, "additionalProperties") == (if strict then JBool(false) else JNull)
  {
    assert TYPE == "type" && PROPERTIES == "properties" && REQUIRED == "required";
    assert ADDITIONAL == "additionalProperties";
    ObjectKeywords([], fields, strict);
    assert Lookup([], REQUIRED) == JNull && Lookup([], ADDITIONAL) == JNull;
    hide *;
  }

  lemma {:induction false} FieldKeywordNames(p: ToolParam)
    ensures var m := Basics(p);
      && Lookup(m, "type") == JString(TypeName(p.typ))
      && Lookup(m, "enum") == (if p.enumValues == [] then JNull else JArray(Strings(p.enumValues)))
      && Lookup(m, "description") == (if p.description == "" then JNull else JString(p.description))
  {
    assert TYPE == "type" && ENUM == "enum" && DESCRIPTION == "description";
    BasicKeywords(p);
    BasicDescription(p);
    hide *;
  }

  lemma {:induction false} ItemsKeywordName(p: ToolParam, strict: bool)
    requires p.typ == Array && p.hasItems
    ensures Lookup(ParamInto([], p, strict), "items") == JObject(ItemMembers(p, strict))
  {
    assert ITEMS == "items";
    assert ParamInto([], p, strict) == Put(Basics(p), ITEMS, JObject(ItemMembers(p, strict)));
    hide *;
    LookupPut(Basics(p), ITEMS, JObject(ItemMembers(p, strict)), ITEMS);
  }

  /** Other keywords stay as they were. */
  lemma {:induction false} ObjectKeeps(out: seq<Member>, fields: seq<ToolParam>, strict: bool, k: string)
    requires k !in {TYPE, PROPERTIES, REQUIRED, ADDITIONAL}
    ensures Lookup(ObjectInto(out, fields, strict), k) == Lookup(out, k)
  {
    hide Put, Lookup, Has, PropertiesInto, RequiredNames, Strings, TYPE, PROPERTIES, REQUIRED, ADDITIONAL;
    var o1 := Put(out, TYPE, JString("object"));
    var o2 := Put(o1, PROPERTIES, JObject(PropertiesInto([], fields, strict)));
    var names := RequiredNames(fields);
    var o3 := if names == [] then o2 else Put(o2, REQUIRED, JArray(Strings(names)));
    LookupPut(out, TYPE, JString("object"), k);
    LookupPut(o1, PROPERTIES, JObject(PropertiesInto([], fields, strict)), k);
    LookupPut(o2, REQUIRED, JArray(Strings(names)), k);
    LookupPut(o3, ADDITIONAL, JBool(false), k);
  }

  /** The schema of a field of any type carries its description, if it has one. */
  lemma {:induction false} DescriptionKept(p: ToolParam, strict: bool)
    ensures Lookup(ParamInto([], p, strict), DESCRIPTION) ==
            if p.description == "" then JNull else JString(p.description)
  {
    KeywordsDiffer();
    var m := Basics(p);
    BasicDescription(p);
    hide Put, Lookup, Has, Strings, TypeName, ObjectInto, ItemMembers, TYPE, ENUM, PROPERTIES, REQUIRED, ITEMS,
         ADDITIONAL, DESCRIPTION;
    if p.typ == Object && p.children != [] {
      assert ParamInto([], p, strict) == ObjectInto(m, p.children, strict);
      ObjectKeeps(m, p.children, strict, DESCRIPTION);
    } else if p.typ == Array && p.hasItems {
      assert ParamInto([], p, strict) == Put(m, ITEMS, JObject(ItemMembers(p, strict)));
      LookupPut(m, ITEMS, JObject(ItemMembers(p, strict)), DESCRIPTION);
    } else {
      assert ParamInto([], p, strict) == m;
    }
  }

  lemma {:induction false} BasicDescription(p: ToolParam)
    ensures Lookup(Basics(p), DESCRIPTION) == if p.description == "" then JNull else JString(p.description)
  {
    KeywordsDiffer();
    assert Lookup([], DESCRIPTION) == JNull;
    hide Put, Lookup, Has, Strings, TypeName, TYPE, ENUM, DESCRIPTION;
    var typed := Put([], TYPE, JString(TypeName(p.typ)));
    var described := if p.description == "" then typed else Put(typed, DESCRIPTION, JString(p.description));
    LookupPut([], TYPE, JString(TypeName(p.typ)), DESCRIPTION);
    LookupPut(typed, DESCRIPTION, JString(p.description), DESCRIPTION);
    LookupPut(described, ENUM, JArray(Strings(p.enumValues)), DESCRIPTION);
  }

  lemma {:induction false} RequiredAre(fields: seq<ToolParam>, ms: seq<Member>)
    ensures (forall i | 0 <= i < |RequiredNames(fields)| :: Has(ms, RequiredNames(fields)[i]))
       <==> (forall i | 0 <= i < |fields| && fields[i].required :: Has(ms, fields[i].name))
    decreases |fields|
  {
    hide Has;
    if fields != [] {
      RequiredAre(fields[1..], ms);
      var rest, all := RequiredNames(fields[1..]), RequiredNames(fields);
      assert forall i | 0 <= i < |fields| - 1 :: fields[1..][i] == fields[i + 1];
      if fields[0].required {
        assert all[0] == fields[0].name && all[1..] == rest;
        assert forall i | 0 <= i < |rest| :: rest[i] == all[i + 1];
        assert forall i | 0 < i < |all| :: all[i] == rest[i - 1];
      } else {
        assert all == rest;
      }
      assert forall i | 0 < i < |fields| :: fields[i] == fields[1..][i - 1];
    }
  }

  /** An object schema, keyword by keyword. */
  lemma {:induction false} SatisfiesByKeyword(m: seq<Member>, props: seq<Member>, v: Json)
    requires Lookup(m, TYPE) == JString("object") && !Lookup(m, ENUM).JArray? && !Has(m, ITEMS)
    requires Has(m, PROPERTIES) && Lookup(m, PROPERTIES) == JObject(props)
    ensures Satisfies(JObject(m), v) <==>
              && v.JObject?
              && RequiredOk(Lookup(m, REQUIRED), v.members) && ExtrasOk(m, v.members)
              && forall i | 0 <= i < |props| && Has(v.members, props[i].name) ::
                   Satisfies(props[i].value, Lookup(v.members, props[i].name))
  {
    assert TypeKeywordOk("object", v) <==> v.JObject? by {
      assert "object" != "null" && "object" != "boolean" && "object" != "integer" && "object" != "number"
             && "object" != "string" && "object" != "array";
    }
    hide TypeKeywordOk, RequiredOk, ExtrasOk, TYPE, ENUM, ITEMS, PROPERTIES, REQUIRED, ADDITIONAL, Position;
  }

  lemma {:induction false} PropertiesListed(fields: seq<ToolParam>, strict: bool)
    requires Distinct(fields)
    ensures var props := PropertiesInto([], fields, strict);
      && |props| == |fields|
      && forall i | 0 <= i < |fields| :: props[i] == Member(fields[i].name, JObject(ParamInto([], fields[i], strict)))
  {
    PropertiesAre([], fields, strict);
    PropertyAt(fields, strict);
    hide ParamInto, PropertiesInto, Properties, Distinct;
    assert [] + Properties(fields, strict) == Properties(fields, strict);
  }

  lemma {:induction false} AbsentLookup(m: seq<Member>, name: string)
    requires !Has(m, name)
    ensures Lookup(m, name) == JNull
  {
  }

  /** The schema of an object means what its fields say. */
  lemma {:induction false} ObjectMeaning(out: seq<Member>, fields: seq<ToolParam>, strict: bool, v: Json)
    requires Distinct(fields)
    requires !Has(out, ENUM) && !Has(out, REQUIRED) && !Has(out, ITEMS) && !Has(out, ADDITIONAL)
    ensures Satisfies(JObject(ObjectInto(out, fields, strict)), v) <==>
              v.JObject? && ObjectOk(fields, v.members, strict)
  {
    var m, props := ObjectInto(out, fields, strict), PropertiesInto([], fields, strict);
    ObjectKeywords(out, fields, strict);
    PropertiesListed(fields, strict);
    AbsentLookup(out, REQUIRED);
    AbsentLookup(out, ADDITIONAL);
    AbsentLookup(out, ENUM);
    hide *;
    SatisfiesByKeyword(m, props, v);
    if v.JObject? {
      ObjectPartsAgree(m, fields, props, v.members, strict);
    }
  }

  lemma {:induction false} ObjectPartsAgree(m: seq<Member>, fields: seq<ToolParam>, props: seq<Member>,
                                            obj: seq<Member>, strict: bool)
    requires |props| == |fields|
    requires forall i | 0 <= i < |fields| ::
              props[i] == Member(fields[i].name, JObject(ParamInto([], fields[i], strict)))
    requires Lookup(m, PROPERTIES) == JObject(props)
    requires Lookup(m, ADDITIONAL) == if strict then JBool(false) else JNull
    requires Lookup(m, REQUIRED) ==
             if RequiredNames(fields) == [] then JNull else JArray(Strings(RequiredNames(fields)))
    ensures (RequiredOk(Lookup(m, REQUIRED), obj) && ExtrasOk(m, obj)
             && forall i | 0 <= i < |props| && Has(obj, props[i].name) ::
                  Satisfies(props[i].value, Lookup(obj, props[i].name)))
       <==> ObjectOk(fields, obj, strict)
  {
    hide Satisfies, ParamInto, Lookup, PROPERTIES, ADDITIONAL, REQUIRED, RequiredNames;
    RequiredKeyword(fields, obj);
    DeclaredNames(fields, props);
    hide Has, RequiredOk, Declared;
    assert (forall i | 0 <= i < |props| && Has(obj, props[i].name) ::
              Satisfies(props[i].value, Lookup(obj, props[i].name)))
      <==> (forall i | 0 <= i < |fields| && Has(obj, fields[i].name) ::
              Satisfies(JObject(ParamInto([], fields[i], strict)), Lookup(obj, fields[i].name)));
  }

  lemma {:induction false} RequiredKeyword(fields: seq<ToolParam>, obj: seq<Member>)
    ensures RequiredOk(if RequiredNames(fields) == [] then JNull else JArray(Strings(RequiredNames(fields))), obj)
       <==> (forall i | 0 <= i < |fields| && fields[i].required :: Has(obj, fields[i].name))
  {
    RequiredAre(fields, obj);
    hide Has, RequiredNames;
    var names := RequiredNames(fields);
    assert forall i | 0 <= i < |names| :: Strings(names)[i] == JString(names[i]);
  }

  lemma {:induction false} DeclaredNames(fields: seq<ToolParam>, props: seq<Member>)
    requires |props| == |fields| && forall i | 0 <= i < |fields| :: props[i].name == fields[i].name
    ensures forall name :: Has(props, name) <==> Declared(fields, name)
  {
    forall name ensures Has(props, name) <==> Declared(fields, name) {
      if Declared(fields, name) {
        var i :| 0 <= i < |fields| && fields[i].name == name;
        assert props[i].name == name;
      }
      if Has(props, name) {
        var i := Position(props, name).value;
        assert fields[i].name == name;
      }
    }
  }

  lemma {:induction false} TypeOnly(t: ParamType, v: Json)
    ensures Satisfies(JObject(Put([], TYPE, JString(TypeName(t)))), v) <==> TypeKeywordOk(TypeName(t), v)
  {
    KeywordsDiffer();
    var m := Put([], TYPE, JString(TypeName(t)));
    LookupPut([], TYPE, JString(TypeName(t)), TYPE);
    LookupPut([], TYPE, JString(TypeName(t)), ENUM);
    LookupPut([], TYPE, JString(TypeName(t)), REQUIRED);
    LookupPut([], TYPE, JString(TypeName(t)), PROPERTIES);
    LookupPut([], TYPE, JString(TypeName(t)), ITEMS);
    LookupPut([], TYPE, JString(TypeName(t)), ADDITIONAL);
    hide TypeKeywordOk, Put, TYPE, ENUM, ITEMS, PROPERTIES, REQUIRED, ADDITIONAL, DESCRIPTION, TypeName, Position;
  }

  lemma {:induction false} ItemMeaning(p: ToolParam, strict: bool, item: Json)
    requires Distinct(p.children)
    ensures Satisfies(JObject(ItemMembers(p, strict)), item) <==> ItemSchemaOk(p, item, strict)
  {
    if p.itemType == Object && p.children != [] {
      ObjectMeaning([], p.children, strict, item);
    } else {
      TypeOnly(p.itemType, item);
    }
    hide Satisfies, ObjectInto, ObjectOk, TypeKeywordOk, TypeName, Put;
  }

  /** The keywords written before the nested ones. */
  function Basics(p: ToolParam): seq<Member> {
    var typed := Put([], TYPE, JString(TypeName(p.typ)));
    var described := if p.description == "" then typed else Put(typed, DESCRIPTION, JString(p.description));
    if p.enumValues == [] then described else Put(described, ENUM, JArray(Strings(p.enumValues)))
  }

  lemma {:induction false} BasicKeywords(p: ToolParam)
    ensures var m := Basics(p);
      && Lookup(m, TYPE) == JString(TypeName(p.typ))
      && Lookup(m, ENUM) == (if p.enumValues == [] then JNull else JArray(Strings(p.enumValues)))
      && Has(m, ENUM) == (p.enumValues != [])
      && !Has(m, PROPERTIES) && !Has(m, REQUIRED) && !Has(m, ITEMS) && !Has(m, ADDITIONAL)
  {
    KeywordsDiffer();
    var typed := Put([], TYPE, JString(TypeName(p.typ)));
    var described := if p.description == "" then typed else Put(typed, DESCRIPTION, JString(p.description));
    assert forall k :: !Has([], k) && Lookup([], k) == JNull;
    hide Put, Lookup, Has, Strings, TypeName, TYPE, ENUM, PROPERTIES, REQUIRED, ITEMS, ADDITIONAL, DESCRIPTION;
    forall k | k in {TYPE, ENUM, PROPERTIES, REQUIRED, ITEMS, ADDITIONAL}
      ensures Lookup(Basics(p), k) ==
              if p.enumValues != [] && k == ENUM then JArray(Strings(p.enumValues))
              else if k == TYPE then JString(TypeName(p.typ)) else JNull
      ensures Has(Basics(p), k) == (k == TYPE || (p.enumValues != [] && k == ENUM))
    {
      LookupPut([], TYPE, JString(TypeName(p.typ)), k);
      LookupPut(typed, DESCRIPTION, JString(p.description), k);
      LookupPut(described, ENUM, JArray(Strings(p.enumValues)), k);
    }
  }

  /** What the schema of a field demands of a value. */
  ghost predicate ParamOk(p: ToolParam, v: Json, strict: bool) {
    && TypeKeywordOk(TypeName(p.typ), v)
    && (p.enumValues != [] ==> v in Strings(p.enumValues))
    && (p.typ == Object && p.children != [] ==> v.JObject? && ObjectOk(p.children, v.members, strict))
    && (p.typ == Array && p.hasItems ==>
          v.JArray? && forall i | 0 <= i < |v.items| :: ItemSchemaOk(p, v.items[i], strict))
  }

  lemma {:induction false} TypeNames(t: ParamType, v: Json)
    ensures TypeKeywordOk(TypeName(t), v) <==>
              match t
              case String => v.JString?
              case Number => v.JInt? || v.JReal?
              case Integer => v.JInt? || (v.JReal? && IsIntegral(v.x))
              case Boolean => v.JBool?
              case Object => v.JObject?
              case Array => v.JArray?
  {
    TypeNamesDiffer();
  }

  lemma {:induction false} TypeNamesDiffer()
    ensures "string" != "number" && "string" != "integer" && "string" != "boolean" && "string" != "object"
        && "string" != "array"
    ensures "number" != "integer" && "number" != "boolean" && "number" != "object" && "number" != "array"
    ensures "integer" != "boolean" && "integer" != "object" && "integer" != "array"
    ensures "boolean" != "object" && "boolean" != "array" && "object" != "array"
    ensures "null" != "string" && "null" != "number" && "null" != "integer" && "null" != "boolean"
        && "null" != "object" && "null" != "array"
  {
    assert "string"[0] == 's' && "number"[0] == 'n' && "integer"[0] == 'i' && "boolean"[0] == 'b' && "object"[0] == 'o';
    assert "array"[0] == 'a' && "null"[2] == 'l' && "number"[2] == 'm';
  }

  lemma {:induction false} PlainMeaning(p: ToolParam, m: seq<Member>, v: Json)
    requires Lookup(m, TYPE) == JString(TypeName(p.typ))
    requires Lookup(m, ENUM) == if p.enumValues == [] then JNull else JArray(Strings(p.enumValues))
    requires !Has(m, PROPERTIES) && !Has(m, REQUIRED) && !Has(m, ADDITIONAL)
    ensures Satisfies(JObject(m), v) <==>
              && TypeKeywordOk(TypeName(p.typ), v) && (p.enumValues != [] ==> v in Strings(p.enumValues))
              && (Has(m, ITEMS) && v.JArray? ==>
                    forall i | 0 <= i < |v.items| :: Satisfies(Lookup(m, ITEMS), v.items[i]))
  {
    hide TypeKeywordOk, TypeName, TYPE, ENUM, ITEMS, PROPERTIES, REQUIRED, ADDITIONAL, DESCRIPTION, Position, Strings;
  }

  lemma {:induction false} ParamMeaning(p: ToolParam, strict: bool, v: Json)
    requires Distinct(p.children) && (p.enumValues != [] ==> p.typ == String)
    ensures Satisfies(JObject(ParamInto([], p, strict)), v) <==> ParamOk(p, v, strict)
  {
    BasicKeywords(p);
    TypeNames(p.typ, v);
    var m := Basics(p);
    if p.typ == Object && p.children != [] {
      ObjectMeaning(m, p.children, strict, v);
      assert ParamInto([], p, strict) == ObjectInto(m, p.children, strict);
    } else if p.typ == Array && p.hasItems {
      ArrayMeaning(p, strict, v);
    } else {
      PlainMeaning(p, m, v);
      assert ParamInto([], p, strict) == m;
    }
    hide Satisfies, ObjectInto, ObjectOk, TypeKeywordOk, TypeName, Basics, ItemMembers, ItemSchemaOk, Strings,
         ParamInto;
  }

  lemma {:induction false} ArrayMeaning(p: ToolParam, strict: bool, v: Json)
    requires Distinct(p.children) && p.enumValues == [] && p.typ == Array && p.hasItems
    ensures Satisfies(JObject(ParamInto([], p, strict)), v) <==> ParamOk(p, v, strict)
  {
    var m, items := Basics(p), JObject(ItemMembers(p, strict));
    BasicKeywords(p);
    TypeNames(p.typ, v);
    KeywordsDiffer();
    assert ParamInto([], p, strict) == Put(m, ITEMS, items);
    hide Satisfies, ObjectOk, TypeKeywordOk, TypeName, Basics, ItemMembers, ItemSchemaOk, Strings, ParamInto, Put,
         Lookup, Has,
         TYPE, ENUM, ITEMS, PROPERTIES, REQUIRED, ADDITIONAL, DESCRIPTION;
    forall k | k in {TYPE, ENUM, PROPERTIES, REQUIRED, ITEMS, ADDITIONAL}
      ensures Lookup(Put(m, ITEMS, items), k) == if k == ITEMS then items else Lookup(m, k)
      ensures Has(Put(m, ITEMS, items), k) == (k == ITEMS || Has(m, k))
    {
      LookupPut(m, ITEMS, items, k);
    }
    PlainMeaning(p, Put(m, ITEMS, items), v);
    forall i | v.JArray? && 0 <= i < |v.items|
      ensures Satisfies(items, v.items[i]) <==> ItemSchemaOk(p, v.items[i], strict)
    {
      ItemMeaning(p, strict, v.items[i]);
    }
  }

  // ---- Where schema and validator part ----

  /** The three ways an object can be read differently: an explicit null on an
      optional field, a number that is an integer in JSON but not stored as a
      32-bit one, and a string whose part before its first NUL is enumerated
      and the whole is not, or the other way round. */
  datatype Quirk = NullGiven | OddNumber | HiddenTail

  predicate OddInteger(v: Json) {
    (v.JInt? && !(LONG_MIN <= v.n <= LONG_MAX)) || (v.JReal? && IsIntegral(v.x))
  }

  /** The value of a declared field, and the declared fields inside it, are
      free of the quirk. */
  ghost predicate Clear(q: Quirk, p: ToolParam, v: Json)
    decreases p, 0
  {
    && (match q
        case NullGiven => v.JNull? ==> p.required
        case OddNumber =>
          && (p.typ == Integer ==> !OddInteger(v))
          && (p.typ == Array && p.hasItems && p.itemType == Integer && v.JArray? ==>
                forall i | 0 <= i < |v.items| :: !OddInteger(v.items[i]))
        case HiddenTail =>
          p.typ == String && p.enumValues != [] && v.JString? ==>
            (CString(v.s) in p.enumValues <==> v.s in p.enumValues))
    && (p.typ == Object && p.children != [] && v.JObject? ==> ClearAll(q, p.children, v.members))
    && (p.typ == Array && p.hasItems && p.itemType == Object && p.children != [] && v.JArray? ==>
          forall i | 0 <= i < |v.items| && v.items[i].JObject? :: ClearAll(q, p.children, v.items[i].members))
  }

  ghost predicate ClearAll(q: Quirk, fields: seq<ToolParam>, obj: seq<Member>)
    decreases fields, 0
  {
    forall i | 0 <= i < |fields| && Has(obj, fields[i].name) :: Clear(q, fields[i], Lookup(obj, fields[i].name))
  }

  lemma {:induction false} CStringWhole(s: string)
    requires '\0' !in s
    ensures CString(s) == s
    decreases |s|
  {
    if s != "" {
      assert s[0] in s && forall c | c in s[1..] :: c in s;
      CStringWhole(s[1..]);
    }
  }

  lemma {:induction false} StringsContain(ss: seq<string>, v: Json)
    ensures v in Strings(ss) <==> v.JString? && v.s in ss
  {
    if v.JString? && v.s in ss {
      var i :| 0 <= i < |ss| && ss[i] == v.s;
      assert Strings(ss)[i] == v;
    }
  }

  /** What a value, an item or an object is free of. */
  datatype Free = Free(nulls: bool, oddNumbers: bool, tails: bool)

  /** Validator and schema: the facts every other statement follows from. */
  ghost predicate Agree(valid: bool, satisfied: bool, free: Free) {
    && (valid && free.nulls && free.tails ==> satisfied)
    && (satisfied ==> free.nulls)
    && (satisfied && free.oddNumbers && free.tails ==> valid)
    && (valid ==> free.oddNumbers)
    && (valid && satisfied ==> free.tails)
  }

  ghost function FreeObject(fields: seq<ToolParam>, obj: seq<Member>): Free {
    Free(ClearAll(NullGiven, fields, obj), ClearAll(OddNumber, fields, obj), ClearAll(HiddenTail, fields, obj))
  }

  ghost function FreeValue(p: ToolParam, v: Json): Free {
    Free(Clear(NullGiven, p, v), Clear(OddNumber, p, v), Clear(HiddenTail, p, v))
  }

  ghost function FreeMember(p: ToolParam, obj: seq<Member>): Free {
    if Has(obj, p.name) then FreeValue(p, Lookup(obj, p.name)) else Free(true, true, true)
  }

  ghost function FreeItem(p: ToolParam, item: Json): Free {
    var inner := if p.itemType == Object && p.children != [] && item.JObject? then FreeObject(p.children, item.members)
                 else Free(true, true, true);
    inner.(oddNumbers := inner.oddNumbers && (p.itemType == Integer ==> !OddInteger(item)))
  }

  lemma {:induction false} ItemAgrees(p: ToolParam, item: Json)
    requires WellBuilt(p.children)
    ensures Agree(ItemOk(p, item), ItemSchemaOk(p, item, false), FreeItem(p, item))
    decreases p, 0
  {
    TypeNames(p.itemType, item);
    if p.itemType == Object && p.children != [] && item.JObject? {
      FieldsAgree(p.children, item.members);
    }
    hide ObjectOk, ValidateFields, ClearAll, FreeObject, TypeKeywordOk, WellBuilt, TypeName;
  }

  lemma {:induction false} ValueAgrees(p: ToolParam, v: Json)
    requires WellBuilt(p.children) && (p.enumValues != [] ==> p.typ == String) && !v.JNull?
    ensures Agree(ValidateValue(p, v), ParamOk(p, v, false), FreeValue(p, v))
    decreases p, 2
  {
    if p.typ == Array {
      ArrayAgrees(p, v);
    } else {
      TypeNames(p.typ, v);
      StringsContain(p.enumValues, v);
      if p.typ == Object && p.children != [] && v.JObject? {
        FieldsAgree(p.children, v.members);
      }
    }
    hide ObjectOk, ValidateFields, ClearAll, ItemOk, ItemSchemaOk, TypeKeywordOk, WellBuilt, TypeName, Strings, CString;
  }

  lemma {:induction false} ArrayAgrees(p: ToolParam, v: Json)
    requires WellBuilt(p.children) && p.enumValues == [] && p.typ == Array && !v.JNull?
    ensures Agree(ValidateValue(p, v), ParamOk(p, v, false), FreeValue(p, v))
    decreases p, 1
  {
    TypeNames(p.typ, v);
    hide ObjectOk, ValidateFields, ClearAll, ItemOk, ItemSchemaOk, TypeKeywordOk, WellBuilt, TypeName, Strings, CString;
    if p.hasItems && v.JArray? {
      forall i | 0 <= i < |v.items|
        ensures Agree(ItemOk(p, v.items[i]), ItemSchemaOk(p, v.items[i], false), FreeItem(p, v.items[i]))
      {
        ItemAgrees(p, v.items[i]);
      }
    }
  }

  lemma {:induction false} FieldAgrees(p: ToolParam, obj: seq<Member>)
    requires WellBuilt(p.children) && (p.enumValues != [] ==> p.typ == String)
    ensures Agree(FieldOk(p, Lookup(obj, p.name)), SchemaOk(p, obj, false), FreeMember(p, obj))
    decreases p, 3
  {
    var v := Lookup(obj, p.name);
    ParamMeaning(p, false, v);
    if v.JNull? {
      TypeNames(p.typ, v);
      NullIsOnlyNull(p);
    } else {
      ValueAgrees(p, v);
    }
    hide Satisfies, ParamInto, ValidateValue, Clear, TypeKeywordOk, WellBuilt, TypeName, ObjectOk, ItemSchemaOk,
         Strings;
  }

  lemma {:induction false} NullIsOnlyNull(p: ToolParam)
    ensures FreeValue(p, JNull) == Free(p.required, true, true)
  {
  }

  lemma {:induction false} FieldsAgree(fields: seq<ToolParam>, obj: seq<Member>)
    requires WellBuilt(fields)
    ensures Agree(ValidateFields(fields, obj), ObjectOk(fields, obj, false), FreeObject(fields, obj))
    decreases fields, 0
  {
    forall i | 0 <= i < |fields|
      ensures Agree(FieldOk(fields[i], Lookup(obj, fields[i].name)), SchemaOk(fields[i], obj, false),
                    FreeMember(fields[i], obj))
    {
      FieldAgrees(fields[i], obj);
    }
    hide SchemaOk, FieldOk, Clear, Has, Lookup, WellBuilt;
  }

  /** The main result, for every field tree and every object. An accepted object
      satisfies the emitted schema exactly if it gives no null to an optional
      field and its enumerated strings read the same with and without what
      follows a NUL; an object that satisfies the schema is accepted exactly if
      its integers are stored as 32-bit ones and its strings read the same. */
  lemma {:induction false} ValidatorMeansSchema(fields: seq<ToolParam>, obj: seq<Member>)
    requires WellBuilt(fields)
    ensures var valid := ValidateFields(fields, obj);
      var satisfied := Satisfies(JObject(ObjectInto([], fields, false)), JObject(obj));
      && (FreeObject(fields, obj) == Free(true, true, true) ==> (valid <==> satisfied))
      && (valid ==> (satisfied <==> ClearAll(NullGiven, fields, obj) && ClearAll(HiddenTail, fields, obj)))
      && (satisfied ==> (valid <==> ClearAll(OddNumber, fields, obj) && ClearAll(HiddenTail, fields, obj)))
  {
    FieldsAgree(fields, obj);
    ObjectMeaning([], fields, false, JObject(obj));
    hide Satisfies, ObjectInto, ObjectOk, ValidateFields, ClearAll, WellBuilt;
  }

  /** A string without NUL always reads the same; if no enumerated string has
      one, a string with a NUL reads the same exactly if what comes before it is
      not enumerated. */
  lemma {:induction false} TailsByNul(p: ToolParam, s: string)
    requires p.typ == String && p.enumValues != []
    ensures '\0' !in s ==> Clear(HiddenTail, p, JString(s))
    ensures '\0' in s && (forall k | 0 <= k < |p.enumValues| :: '\0' !in p.enumValues[k]) ==>
              (Clear(HiddenTail, p, JString(s)) <==> CString(s) !in p.enumValues)
  {
    if '\0' !in s { CStringWhole(s); }
    hide CString;
  }

  // ---- The stricter form ----

  ghost predicate NoExtrasAnywhere(p: ToolParam, v: Json)
    decreases p, 0
  {
    && (p.typ == Object && p.children != [] && v.JObject? ==> NoExtrasIn(p.children, v.members))
    && (p.typ == Array && p.hasItems && p.itemType == Object && p.children != [] && v.JArray? ==>
          forall i | 0 <= i < |v.items| && v.items[i].JObject? :: NoExtrasIn(p.children, v.items[i].members))
  }

  /** No undeclared member in the object, nor in the declared objects inside it. */
  ghost predicate NoExtrasIn(fields: seq<ToolParam>, obj: seq<Member>)
    decreases fields, 0
  {
    && NoExtras(fields, obj)
    && forall i | 0 <= i < |fields| && Has(obj, fields[i].name) ::
         NoExtrasAnywhere(fields[i], Lookup(obj, fields[i].name))
  }

  lemma {:induction false} StrictField(p: ToolParam, obj: seq<Member>)
    requires WellBuilt(p.children) && (p.enumValues != [] ==> p.typ == String)
    ensures SchemaOk(p, obj, true) <==>
              SchemaOk(p, obj, false) && (Has(obj, p.name) ==> NoExtrasAnywhere(p, Lookup(obj, p.name)))
    decreases p, 1
  {
    var v := Lookup(obj, p.name);
    ParamMeaning(p, true, v);
    ParamMeaning(p, false, v);
    if p.typ == Object && p.children != [] && v.JObject? {
      StrictExactly(p.children, v.members);
    }
    if p.typ == Array && p.hasItems && p.itemType == Object && p.children != [] && v.JArray? {
      forall i | 0 <= i < |v.items| && v.items[i].JObject?
        ensures ObjectOk(p.children, v.items[i].members, true) <==>
                ObjectOk(p.children, v.items[i].members, false) && NoExtrasIn(p.children, v.items[i].members)
      {
        StrictExactly(p.children, v.items[i].members);
      }
    }
    hide Satisfies, ParamInto, ObjectOk, NoExtrasIn, TypeKeywordOk, WellBuilt, TypeName, Strings, Has, Lookup;
  }

  /** Satisfying the stricter form is satisfying the plain one without
      undeclared members; in particular it implies it. */
  lemma {:induction false} StrictExactly(fields: seq<ToolParam>, obj: seq<Member>)
    requires WellBuilt(fields)
    ensures ObjectOk(fields, obj, true) <==> ObjectOk(fields, obj, false) && NoExtrasIn(fields, obj)
    decreases fields, 0
  {
    forall i | 0 <= i < |fields|
      ensures SchemaOk(fields[i], obj, true) <==>
                SchemaOk(fields[i], obj, false)
                && (Has(obj, fields[i].name) ==> NoExtrasAnywhere(fields[i], Lookup(obj, fields[i].name)))
    {
      StrictField(fields[i], obj);
    }
    hide SchemaOk, NoExtrasAnywhere, Has, Lookup, WellBuilt, NoExtras;
  }

  /** An object that satisfies the stricter schema is accepted exactly if its
      integers are stored as such and its strings read the same; and an accepted
      object satisfies it exactly without nulls, tails and undeclared members. */
  lemma {:induction false} StrictImpliesAccepted(fields: seq<ToolParam>, obj: seq<Member>)
    requires WellBuilt(fields)
    ensures var valid := ValidateFields(fields, obj);
      var strictly := Satisfies(JObject(ObjectInto([], fields, true)), JObject(obj));
      && (strictly ==> (valid <==> ClearAll(OddNumber, fields, obj) && ClearAll(HiddenTail, fields, obj)))
      && (valid ==> (strictly <==>
            ClearAll(NullGiven, fields, obj) && ClearAll(HiddenTail, fields, obj) && NoExtrasIn(fields, obj)))
  {
    ObjectMeaning([], fields, true, JObject(obj));
    StrictExactly(fields, obj);
    FieldsAgree(fields, obj);
    hide Satisfies, ObjectInto, ObjectOk, ValidateFields, ClearAll, NoExtrasIn, WellBuilt;
  }

  // ---- Strict-mode compatibility ----

  /** Children only where they are written: objects, and arrays of objects. */
  ghost predicate Placed(fields: seq<ToolParam>)
    decreases fields
  {
    forall i | 0 <= i < |fields| ::
      && (fields[i].children != [] ==>
            fields[i].typ == Object || (fields[i].typ == Array && fields[i].hasItems && fields[i].itemType == Object))
      && Placed(fields[i].children)
  }

  lemma {:induction false} RequiredNamesFrom(fields: seq<ToolParam>, name: string)
    requires forall j | 0 <= j < |fields| :: fields[j].name != name
    ensures name !in RequiredNames(fields)
    decreases |fields|
  {
    if fields != [] {
      RequiredNamesFrom(fields[1..], name);
    }
  }

  lemma {:induction false} RequiredListed(fields: seq<ToolParam>, i: nat)
    requires Distinct(fields) && i < |fields|
    ensures fields[i].name in RequiredNames(fields) <==> fields[i].required
    decreases |fields|
  {
    var rest := fields[1..];
    assert forall j | 0 <= j < |rest| :: rest[j] == fields[j + 1];
    if i > 0 {
      RequiredListed(rest, i - 1);
    } else {
      RequiredNamesFrom(rest, fields[0].name);
    }
  }

  lemma {:induction false} RequiresByKeyword(m: seq<Member>, props: seq<Member>)
    requires !Has(m, ITEMS) && Has(m, PROPERTIES) && Lookup(m, PROPERTIES) == JObject(props)
    ensures RequiresEverything(JObject(m)) <==>
              forall i | 0 <= i < |props| ::
                Listed(Lookup(m, REQUIRED), props[i].name) && RequiresEverything(props[i].value)
  {
    hide ITEMS, PROPERTIES, REQUIRED, Position, Listed;
  }

  lemma {:induction false} NameListed(fields: seq<ToolParam>, i: nat)
    requires Distinct(fields) && i < |fields|
    ensures Listed(if RequiredNames(fields) == [] then JNull else JArray(Strings(RequiredNames(fields))),
                   fields[i].name)
       <==> fields[i].required
  {
    RequiredListed(fields, i);
    StringsContain(RequiredNames(fields), JString(fields[i].name));
    hide RequiredNames, Distinct, Strings;
  }

  lemma {:induction false} ObjectRequires(out: seq<Member>, fields: seq<ToolParam>, strict: bool)
    requires WellBuilt(fields) && Placed(fields) && !Has(out, ITEMS) && !Has(out, REQUIRED)
    ensures RequiresEverything(JObject(ObjectInto(out, fields, strict))) <==> AllFieldsRequired(fields)
    decreases fields, 1
  {
    var m, props := ObjectInto(out, fields, strict), PropertiesInto([], fields, strict);
    ObjectKeywords(out, fields, strict);
    PropertiesListed(fields, strict);
    AbsentLookup(out, REQUIRED);
    hide RequiresEverything, ObjectInto, PropertiesInto, ParamInto, Listed, RequiredNames, Lookup, Has;
    RequiresByKeyword(m, props);
    forall i | 0 <= i < |fields|
      ensures Listed(Lookup(m, REQUIRED), props[i].name) <==> fields[i].required
      ensures RequiresEverything(props[i].value)
         <==> (fields[i].children != [] ==> AllFieldsRequired(fields[i].children))
    {
      NameListed(fields, i);
      ParamRequires(fields[i], strict);
    }
    hide WellBuilt, Placed, Distinct;
  }

  lemma {:induction false} ParamRequires(p: ToolParam, strict: bool)
    requires WellBuilt(p.children) && Placed(p.children) && (p.enumValues != [] ==> p.typ == String)
    requires p.children != [] ==> p.typ == Object || (p.typ == Array && p.hasItems && p.itemType == Object)
    ensures RequiresEverything(JObject(ParamInto([], p, strict)))
       <==> (p.children != [] ==> AllFieldsRequired(p.children))
    decreases p, 0
  {
    var m := Basics(p);
    BasicKeywords(p);
    if p.typ == Object && p.children != [] {
      assert ParamInto([], p, strict) == ObjectInto(m, p.children, strict);
      ObjectRequires(m, p.children, strict);
    } else if p.typ == Array && p.hasItems {
      var items := ItemMembers(p, strict);
      assert ParamInto([], p, strict) == Put(m, ITEMS, JObject(items));
      KeywordsDiffer();
      LookupPut(m, ITEMS, JObject(items), ITEMS);
      LookupPut(m, ITEMS, JObject(items), PROPERTIES);
      OnlyItems(Put(m, ITEMS, JObject(items)));
      if p.itemType == Object && p.children != [] {
        ObjectRequires([], p.children, strict);
      } else {
        LookupPut([], TYPE, JString(TypeName(p.itemType)), PROPERTIES);
        LookupPut([], TYPE, JString(TypeName(p.itemType)), ITEMS);
        NothingNested(items);
      }
    } else {
      assert ParamInto([], p, strict) == m;
      NothingNested(m);
    }
    hide RequiresEverything, ObjectInto, AllFieldsRequired, WellBuilt, Placed, Basics, ParamInto;
  }

  lemma {:induction false} OnlyItems(m: seq<Member>)
    requires Has(m, ITEMS) && !Has(m, PROPERTIES)
    ensures RequiresEverything(JObject(m)) <==> RequiresEverything(Lookup(m, ITEMS))
  {
    hide ITEMS, PROPERTIES, REQUIRED, Position, Listed;
  }

  lemma {:induction false} NothingNested(m: seq<Member>)
    requires !Has(m, ITEMS) && !Has(m, PROPERTIES)
    ensures RequiresEverything(JObject(m))
  {
    hide ITEMS, PROPERTIES, REQUIRED, Position, Listed;
  }

  /** `AllFieldsRequired` holds exactly if every object schema that is emitted
      requires all of its properties. */
  lemma {:induction false} StrictCompatibleExactly(fields: seq<ToolParam>, strict: bool)
    requires WellBuilt(fields) && Placed(fields)
    ensures AllFieldsRequired(fields) <==> RequiresEverything(JObject(ObjectInto([], fields, strict)))
  {
    ObjectRequires([], fields, strict);
  }

  // ---- Documents that are not objects ----

  /** Text that is empty or parses to something else than an object is accepted
      exactly if no top-level field is required, though no such value satisfies
      the schema. */
  lemma {:induction false} NonObjectAccepted(fields: seq<ToolParam>, doc: Document)
    requires doc == Empty || (doc.Parsed? && !doc.json.JObject?)
    requires Distinct(fields)
    ensures ValidateObject(fields, doc) == Ok <==> forall i | 0 <= i < |fields| :: !fields[i].required
    ensures doc.Parsed? ==> !Satisfies(JObject(ObjectInto([], fields, false)), doc.json)
  {
    forall i | 0 <= i < |fields| ensures FieldOk(fields[i], Lookup([], fields[i].name)) <==> !fields[i].required {
    }
    if doc.Parsed? { ObjectMeaning([], fields, false, doc.json); }
    hide Satisfies, ObjectInto, FieldOk, ObjectOk;
  }

  /** The verdict on a text: malformed is refused; an object is accepted exactly
      if its declared fields are valid. */
  lemma {:induction false} DocumentsExactly(fields: seq<ToolParam>, obj: seq<Member>)
    ensures ValidateObject(fields, Malformed) == Fail(SchemaValidationFailed)
    ensures ValidateObject(fields, Parsed(JObject(obj))) ==
            if ValidateFields(fields, obj) then Ok else Fail(SchemaValidationFailed)
    ensures forall n: int :: TypeMatches(Integer, JInt(n)) <==> -2147483648 <= n <= 2147483647
  {
    hide FieldOk;
  }

  // ---- The three quirks, by example ----

  function Field(name: string, t: ParamType, required: bool, allowed: seq<string>): ToolParam {
    ToolParam(name, "", t, required, allowed, [], String, false)
  }

  /** An explicit null passes for an optional string, against the schema. */
  lemma {:induction false} NullPasses()
    ensures var fields, obj := [Field("a", String, false, [])], [Member("a", JNull)];
      ValidateFields(fields, obj) && !Satisfies(JObject(ObjectInto([], fields, false)), JObject(obj))
  {
    var fields, obj := [Field("a", String, false, [])], [Member("a", JNull)];
    assert Position(obj, "a") == Some(0) && Lookup(obj, fields[0].name) == JNull;
    assert ValidateFields(fields, obj);
    ParamMeaning(fields[0], false, JNull);
    TypeNames(String, JNull);
    assert !SchemaOk(fields[0], obj, false);
    ObjectMeaning([], fields, false, JObject(obj));
  }

  /** The number 2.0 is an integer to JSON Schema but not to the validator. */
  lemma {:induction false} WholeRealRefused()
    ensures var fields, obj := [Field("a", Integer, true, [])], [Member("a", JReal(2.0))];
      !ValidateFields(fields, obj) && Satisfies(JObject(ObjectInto([], fields, false)), JObject(obj))
  {
    var fields, obj := [Field("a", Integer, true, [])], [Member("a", JReal(2.0))];
    assert Position(obj, "a") == Some(0) && Lookup(obj, fields[0].name) == JReal(2.0);
    assert !FieldOk(fields[0], JReal(2.0));
    ParamMeaning(fields[0], false, JReal(2.0));
    TypeNames(Integer, JReal(2.0));
    assert SchemaOk(fields[0], obj, false);
    ObjectMeaning([], fields, false, JObject(obj));
  }

  /** An enumerated string is compared up to its first NUL only. */
  lemma {:induction false} HiddenTailPasses()
    ensures var fields, obj := [Field("a", String, true, ["on"])], [Member("a", JString("on\0x"))];
      ValidateFields(fields, obj) && !Satisfies(JObject(ObjectInto([], fields, false)), JObject(obj))
  {
    var fields, obj := [Field("a", String, true, ["on"])], [Member("a", JString("on\0x"))];
    var v := JString("on\0x");
    assert Position(obj, "a") == Some(0) && Lookup(obj, fields[0].name) == v;
    assert CString("on\0x") == "on";
    assert ValidateFields(fields, obj);
    ParamMeaning(fields[0], false, v);
    StringsContain(["on"], v);
    assert !SchemaOk(fields[0], obj, false);
    ObjectMeaning([], fields, false, JObject(obj));
  }

  /** An enumerated string with a NUL is never accepted, though it satisfies the
      schema. */
  lemma {:induction false} EnumeratedNulRefused()
    ensures var fields, obj := [Field("a", String, true, ["on\0x"])], [Member("a", JString("on\0x"))];
      !ValidateFields(fields, obj) && Satisfies(JObject(ObjectInto([], fields, false)), JObject(obj))
  {
    var fields, obj := [Field("a", String, true, ["on\0x"])], [Member("a", JString("on\0x"))];
    var v := JString("on\0x");
    assert Position(obj, "a") == Some(0) && Lookup(obj, fields[0].name) == v;
    assert |CString("on\0x")| == 2;
    assert !FieldOk(fields[0], v);
    ParamMeaning(fields[0], false, v);
    TypeNames(String, v);
    StringsContain(["on\0x"], v);
    assert SchemaOk(fields[0], obj, false);
    ObjectMeaning([], fields, false, JObject(obj));
  }
}
