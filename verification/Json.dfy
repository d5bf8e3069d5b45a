/** JSON values, and what a JSON Schema says about them. */
module Json {
  import opened Core

  /** Integers and other numbers are told apart, as the parser stores them. */
  datatype Json =
    | JNull
    | JBool(b: bool)
    | JInt(n: int)
    | JReal(x: real)
    | JString(s: string)
    | JArray(items: seq<Json>)
    | JObject(members: seq<Member>)

  datatype Member = Member(name: string, value: Json)

  /** The first member with that name. */
  function Position(ms: seq<Member>, name: string): (r: Option<nat>)
    ensures r.Some? ==> r.value < |ms| && ms[r.value].name == name
    ensures r.None? ==> forall i | 0 <= i < |ms| :: ms[i].name != name
  {
    if ms == [] then None
    else if ms[0].name == name then Some(0)
    else
      match Position(ms[1..], name)
      case None => None
      case Some(i) => Some(i + 1)
  }

  predicate Has(ms: seq<Member>, name: string) { Position(ms, name).Some? }

  /** A missing member reads as null. */
  function Lookup(ms: seq<Member>, name: string): Json {
    var i := Position(ms, name);
    if i.Some? then ms[i.value].value else JNull
  }

  /** Assigning a member: in place if it is there, at the end if not. */
  function Put(ms: seq<Member>, name: string, value: Json): seq<Member> {
    var i := Position(ms, name);
    if i.Some? then ms[i.value := Member(name, value)] else ms + [Member(name, value)]
  }

  lemma {:induction false} PositionConcat(a: seq<Member>, b: seq<Member>, name: string)
    ensures Position(a + b, name) ==
            if Position(a, name).Some? then Position(a, name)
            else if Position(b, name).Some? then Some(|a| + Position(b, name).value) else None
    decreases |a|
  {
    if a == [] {
      assert a + b == b;
    } else {
      assert (a + b)[1..] == a[1..] + b;
      PositionConcat(a[1..], b, name);
    }
  }

  lemma {:induction false} PositionUpdate(ms: seq<Member>, i: nat, value: Json, name: string)
    requires i < |ms|
    ensures Position(ms[i := Member(ms[i].name, value)], name) == Position(ms, name)
    decreases i
  {
    var ns := ms[i := Member(ms[i].name, value)];
    if i > 0 {
      assert ns[1..] == ms[1..][i - 1 := Member(ms[1..][i - 1].name, value)];
      PositionUpdate(ms[1..], i - 1, value, name);
    } else {
      assert ns[1..] == ms[1..];
    }
  }

  /** What was put is found; nothing else changes. */
  lemma {:induction false} LookupPut(ms: seq<Member>, name: string, value: Json, other: string)
    ensures Lookup(Put(ms, name, value), other) == if other == name then value else Lookup(ms, other)
    ensures Has(Put(ms, name, value), other) == (other == name || Has(ms, other))
  {
    var i := Position(ms, name);
    if i.Some? {
      PositionUpdate(ms, i.value, value, other);
    } else {
      PositionConcat(ms, [Member(name, value)], other);
    }
  }

  // ---- JSON Schema, for the keywords the writer emits ----

  const TYPE: string := "type"
  const DESCRIPTION: string := "description"
  const ENUM: string := "enum"
  const PROPERTIES: string := "properties"
  const REQUIRED: string := "required"
  const ITEMS: string := "items"
  const ADDITIONAL: string := "additionalProperties"

  /** Section 6.1.1 of JSON Schema Validation 2020-12: "integer" is any number
      with a zero fractional part. */
  predicate TypeKeywordOk(t: string, v: Json) {
    match v
    case JNull => t == "null"
    case JBool(_) => t == "boolean"
    case JInt(_) => t == "integer" || t == "number"
    case JReal(x) => t == "number" || (t == "integer" && IsIntegral(x))
    case JString(_) => t == "string"
    case JArray(_) => t == "array"
    case JObject(_) => t == "object"
  }

  predicate IsIntegral(x: real) { x.Floor as real == x }

  /** Whether `v` satisfies the schema. Keywords that do not apply to the kind
      of value, or are missing, say nothing. */
  ghost predicate Satisfies(schema: Json, v: Json)
    decreases schema
  {
    schema.JObject? ==>
      var m := schema.members;
      && (Lookup(m, TYPE).JString? ==> TypeKeywordOk(Lookup(m, TYPE).s, v))
      && (Lookup(m, ENUM).JArray? ==> v in Lookup(m, ENUM).items)
      && (v.JObject? ==> RequiredOk(Lookup(m, REQUIRED), v.members) && ExtrasOk(m, v.members))
      && (Position(m, PROPERTIES).Some? && v.JObject? ==>
            var props := m[Position(m, PROPERTIES).value].value;
            props.JObject? ==>
              forall i | 0 <= i < |props.members| && Has(v.members, props.members[i].name) ::
                Satisfies(props.members[i].value, Lookup(v.members, props.members[i].name)))
      && (Position(m, ITEMS).Some? && v.JArray? ==>
            forall i | 0 <= i < |v.items| :: Satisfies(m[Position(m, ITEMS).value].value, v.items[i]))
  }

  /** Section 6.5.3: every listed name is there. */
  ghost predicate RequiredOk(required: Json, ms: seq<Member>) {
    required.JArray? ==>
      forall i | 0 <= i < |required.items| && required.items[i].JString? :: Has(ms, required.items[i].s)
  }

  /** `additionalProperties: false` leaves room for the declared names only. */
  ghost predicate ExtrasOk(schema: seq<Member>, ms: seq<Member>) {
    Lookup(schema, ADDITIONAL) == JBool(false) ==>
      forall i | 0 <= i < |ms| ::
        Lookup(schema, PROPERTIES).JObject? && Has(Lookup(schema, PROPERTIES).members, ms[i].name)
  }

  /** Every object schema in it requires all of its properties. */
  ghost predicate RequiresEverything(schema: Json)
    decreases schema
  {
    schema.JObject? ==>
      var m := schema.members;
      && (Position(m, PROPERTIES).Some? ==>
            var props := m[Position(m, PROPERTIES).value].value;
            props.JObject? ==>
              forall i | 0 <= i < |props.members| ::
                Listed(Lookup(m, REQUIRED), props.members[i].name) && RequiresEverything(props.members[i].value))
      && (Position(m, ITEMS).Some? ==> RequiresEverything(m[Position(m, ITEMS).value].value))
  }

  ghost predicate Listed(required: Json, name: string) {
    required.JArray? && JString(name) in required.items
  }
}
