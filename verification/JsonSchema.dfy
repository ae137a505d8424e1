// A fragment of JSON Schema 2020-12: boolean schemas, type, enum, required,
// properties and additionalProperties. A keyword whose value has the wrong shape
// constrains nothing.
module JsonSchema {
  import opened Wrappers
  import opened JsonTree

  datatype Keywords = Keywords(
    kind: Option<Json>, enum: Option<Json>, required: Option<Json>,
    properties: map<string, Json>, additional: Option<Json>)

  function KeywordsOf(m: map<string, Json>): Keywords {
    Keywords(Field(m, "type"), Field(m, "enum"), Field(m, "required"),
             DecodeObject(Field(m, "properties")), Field(m, "additionalProperties"))
  }

  predicate HasType(v: Json, t: string) {
    match v
    case Null => t == "null"
    case Bool(_) => t == "boolean"
    case Num(n) => t == "number" || (t == "integer" && n.Floor as real == n)
    case Str(_) => t == "string"
    case Arr(_) => t == "array"
    case Obj(_) => t == "object"
  }

  ghost predicate TypeOk(kind: Option<Json>, v: Json) {
    match kind
    case Some(Str(t)) => HasType(v, t)
    case Some(Arr(ts)) => exists t :: t in ts && t.Str? && HasType(v, t.s)
    case _ => true
  }

  predicate EnumOk(enum: Option<Json>, v: Json) {
    enum.Some? && enum.value.Arr? ==> v in enum.value.items
  }

  predicate RequiredOk(required: Option<Json>, fields: map<string, Json>) {
    required.Some? && required.value.Arr? ==>
      forall k :: k in required.value.items && k.Str? ==> k.s in fields
  }

  ghost predicate Valid(schema: Json, v: Json)
    decreases schema
  {
    match schema
    case Bool(b) => b
    case Obj(m) =>
      var kw := KeywordsOf(m);
      && TypeOk(kw.kind, v)
      && EnumOk(kw.enum, v)
      && (v.Obj? ==>
            && RequiredOk(kw.required, v.fields)
            && forall k :: k in v.fields ==>
                 if k in kw.properties then Valid(kw.properties[k], v.fields[k])
                 else kw.additional.Some? ==> Valid(kw.additional.value, v.fields[k]))
    case _ => true
  }

  // The value of one property against the subschema that applies to it.
  ghost predicate PropertyOk(kw: Keywords, k: string, v: Json) {
    if k in kw.properties then Valid(kw.properties[k], v)
    else kw.additional.Some? ==> Valid(kw.additional.value, v)
  }

  // Everything an object schema asks except its enum.
  ghost predicate ShapeOk(kw: Keywords, v: Json) {
    && TypeOk(kw.kind, v)
    && (v.Obj? ==> RequiredOk(kw.required, v.fields) && forall k :: k in v.fields ==> PropertyOk(kw, k, v.fields[k]))
  }

  lemma {:induction false} ValidObject(m: map<string, Json>, v: Json)
    ensures Valid(Obj(m), v) <==> ShapeOk(KeywordsOf(m), v) && EnumOk(KeywordsOf(m).enum, v)
  {
    var kw := KeywordsOf(m);
    if v.Obj? {
      forall k | k in v.fields
        ensures PropertyOk(kw, k, v.fields[k]) <==>
                if k in kw.properties then Valid(kw.properties[k], v.fields[k])
                else kw.additional.Some? ==> Valid(kw.additional.value, v.fields[k])
      {
      }
    }
  }

  // ---- the keywords, one by one ----

  // What one type name asks of a value.
  lemma {:induction false} HasTypeMeans(v: Json)
    ensures HasType(v, "null") <==> v == Null
    ensures HasType(v, "boolean") <==> v.Bool?
    ensures HasType(v, "number") <==> v.Num?
    ensures HasType(v, "integer") <==> v.Num? && v.n.Floor as real == v.n
    ensures HasType(v, "string") <==> v.Str?
    ensures HasType(v, "array") <==> v.Arr?
    ensures HasType(v, "object") <==> v.Obj?
  {
    assert |"null"| == 4 && |"boolean"| == 7 && |"number"| == 6 && |"integer"| == 7;
    assert |"string"| == 6 && |"array"| == 5 && |"object"| == 6;
    assert "boolean"[0] != "integer"[0] && "number"[0] != "string"[0] && "string"[0] != "object"[0];
    assert "number"[0] != "object"[0];
  }

  ghost predicate TypeHolds(m: map<string, Json>, v: Json) {
    && ("type" in m && m["type"].Str? ==> HasType(v, m["type"].s))
    && ("type" in m && m["type"].Arr? ==> exists t :: t in m["type"].items && t.Str? && HasType(v, t.s))
  }

  ghost predicate EnumHolds(m: map<string, Json>, v: Json) {
    "enum" in m && m["enum"].Arr? ==> v in m["enum"].items
  }

  ghost predicate RequiredHolds(m: map<string, Json>, fields: map<string, Json>) {
    "required" in m && m["required"].Arr? ==> forall k :: Str(k) in m["required"].items ==> k in fields
  }

  // Properties by their own schemas, the others by additionalProperties.
  ghost predicate PropertiesHold(m: map<string, Json>, fields: map<string, Json>) {
    var listed := if "properties" in m && m["properties"].Obj? then m["properties"].fields else map[];
    forall k :: k in fields ==>
      && (k in listed ==> Valid(listed[k], fields[k]))
      && (k !in listed && "additionalProperties" in m ==> Valid(m["additionalProperties"], fields[k]))
  }

  // A value is valid exactly when every keyword of the schema holds.
  lemma {:induction false} ValidMeans(m: map<string, Json>, v: Json)
    ensures Valid(Obj(m), v) <==>
              && TypeHolds(m, v) && EnumHolds(m, v)
              && (v.Obj? ==> RequiredHolds(m, v.fields) && PropertiesHold(m, v.fields))
  {
    ValidObject(m, v);
    var kw := KeywordsOf(m);
    assert TypeOk(kw.kind, v) <==> TypeHolds(m, v);
    if v.Obj? {
      if RequiredHolds(m, v.fields) && "required" in m && m["required"].Arr? {
        forall k | k in m["required"].items && k.Str? ensures k.s in v.fields {
          assert k == Str(k.s);
        }
      }
      assert RequiredOk(kw.required, v.fields) <==> RequiredHolds(m, v.fields);
      forall k | k in v.fields
        ensures PropertyOk(kw, k, v.fields[k]) <==>
                && (k in kw.properties ==> Valid(kw.properties[k], v.fields[k]))
                && (k !in kw.properties && "additionalProperties" in m ==>
                      Valid(m["additionalProperties"], v.fields[k]))
      {
      }
    }
  }
}
