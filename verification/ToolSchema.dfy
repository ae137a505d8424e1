// Rewriting of tool schemas and tool-call arguments (internal/proxy/schema.go).
module ToolSchema {
  import opened Wrappers
  import opened JsonTree
  import opened JsonSchema

  const TENANT := "tenant"
  const LIST_INSTANCES := "list_instances"

  type ToolDef = map<string, Json>

  // A tool as one catalog holds it: a Go map, shared by reference.
  class RawTool {
    var fields: ToolDef

    constructor (fields: ToolDef)
      ensures this.fields == fields
    {
      this.fields := fields;
    }
  }

  function NameOf(def: ToolDef): string {
    if "name" in def then DecodeString(def["name"]) else ""
  }

  method CloneTool(t: RawTool) returns (out: RawTool)
    ensures fresh(out) && out.fields == t.fields
  {
    out := new RawTool(map[]);
    var todo := t.fields.Keys;
    while todo != {}
      invariant fresh(out) && todo <= t.fields.Keys
      invariant out.fields == map k | k in t.fields && k !in todo :: t.fields[k]
    {
      var k :| k in todo;
      todo := todo - {k};
      out.fields := out.fields[k := t.fields[k]];
    }
  }

  // ---- The advertised selector ----

  // The wording of descriptions is abbreviated.
  function TenantSchema(ids: seq<string>, required: bool): Json {
    var desc := if required then "Required." else "Optional.";
    var m := map["type" := Str("string"), "description" := Str(desc)];
    Obj(if |ids| > 0 then m["enum" := EncodeStrings(ids)] else m)
  }

  // The schema a missing or unusable inputSchema stands for.
  function EffectiveSchema(raw: Option<Json>): map<string, Json> {
    if raw.Some? && raw.value.Obj? then raw.value.fields else map["type" := Str("object")]
  }

  function RequiredNames(required: Option<Json>): seq<string> {
    var names := DecodeStrings(required);
    if TENANT in names then names else names + [TENANT]
  }

  // m with the selector added to its properties and, if asked, to its required list.
  function Injected(m: map<string, Json>, selector: Json, required: bool): map<string, Json> {
    var withProperty := m["properties" := Obj(KeywordsOf(m).properties[TENANT := selector])];
    if required then withProperty["required" := EncodeStrings(RequiredNames(KeywordsOf(m).required))] else withProperty
  }

  function InjectedTool(def: ToolDef, selector: Json, required: bool): ToolDef {
    def["inputSchema" := Obj(Injected(EffectiveSchema(Field(def, "inputSchema")), selector, required))]
  }

  // ---- what injection leaves and adds, field by field ----

  ghost predicate SameBut(p: map<string, Json>, q: map<string, Json>, keys: set<string>) {
    forall k :: k !in keys ==> Field(p, k) == Field(q, k)
  }

  // The names of the required list, "" for what is not a string, and "tenant" at the
  // end unless it was among them.
  ghost predicate RightlyRequired(before: Option<Json>, after: Option<Json>) {
    var was := if before.Some? && before.value.Arr? then before.value.items else [];
    && after.Some? && after.value.Arr?
    && var now := after.value.items;
       && |was| <= |now| && (forall i :: 0 <= i < |was| ==> now[i] == if was[i].Str? then was[i] else Str(""))
       && |now| == (if Str("tenant") in was then |was| else |was| + 1)
       && (Str("tenant") !in was ==> now[|was|] == Str("tenant"))
  }

  // Only the schema changes; in it only `tenant` among the properties and, if it is
  // asked for, the required list.
  ghost predicate RightlyInjected(before: ToolDef, selector: Json, required: bool, after: ToolDef) {
    && SameBut(before, after, {"inputSchema"})
    && "inputSchema" in after && after["inputSchema"].Obj?
    && var now := after["inputSchema"].fields;
       var was := if "inputSchema" in before && before["inputSchema"].Obj? then before["inputSchema"].fields
                  else map["type" := Str("object")];
       && SameBut(was, now, {"properties", "required"})
       && RightProperties(was, selector, now)
       && (if required then RightlyRequired(Field(was, "required"), Field(now, "required"))
           else Field(now, "required") == Field(was, "required"))
  }

  ghost predicate RightProperties(was: map<string, Json>, selector: Json, now: map<string, Json>) {
    && "properties" in now && now["properties"].Obj?
    && Field(now["properties"].fields, "tenant") == Some(selector)
    && SameBut(if "properties" in was && was["properties"].Obj? then was["properties"].fields else map[],
               now["properties"].fields, {"tenant"})
  }

  // A string, one of the ids if there are any.
  ghost predicate RightSelector(ids: seq<string>, selector: Json) {
    && selector.Obj? && Field(selector.fields, "type") == Some(Str("string"))
    && (ids == [] ==> "enum" !in selector.fields)
    && (ids != [] ==>
          && "enum" in selector.fields && selector.fields["enum"].Arr? && |selector.fields["enum"].items| == |ids|
          && forall i :: 0 <= i < |ids| ==> selector.fields["enum"].items[i] == Str(ids[i]))
  }

  lemma {:induction false} SelectorIsRight(ids: seq<string>, required: bool)
    ensures RightSelector(ids, TenantSchema(ids, required))
  {
  }

  lemma {:induction false} RequiredIsRight(required: Option<Json>)
    ensures RightlyRequired(required, Some(EncodeStrings(RequiredNames(required))))
  {
    var names := DecodeStrings(required);
    var was := if required.Some? && required.value.Arr? then required.value.items else [];
    if Str(TENANT) in was {
      var i :| 0 <= i < |was| && was[i] == Str(TENANT);
      assert names[i] == TENANT;
    }
    if TENANT in names {
      var i :| 0 <= i < |names| && names[i] == TENANT;
      assert was[i] == Str(TENANT);
    }
  }

  lemma {:induction false} InjectedIsRight(def: ToolDef, selector: Json, required: bool)
    ensures RightlyInjected(def, selector, required, InjectedTool(def, selector, required))
  {
    RequiredIsRight(KeywordsOf(EffectiveSchema(Field(def, "inputSchema"))).required);
    hide RightlyRequired;
  }

  method InjectTenantArg(t: RawTool, selector: Json, required: bool)
    modifies t
    ensures t.fields == InjectedTool(old(t.fields), selector, required)
    ensures RightlyInjected(old(t.fields), selector, required, t.fields)
  {
    hide RightlyInjected;
    InjectedIsRight(t.fields, selector, required);
    var sch: map<string, Json> := map["type" := Str("object")];
    if "inputSchema" in t.fields && t.fields["inputSchema"].Obj? {
      sch := t.fields["inputSchema"].fields;
    }
    var props: map<string, Json> := map[];
    if "properties" in sch && sch["properties"].Obj? {
      props := sch["properties"].fields;
    }
    props := props[TENANT := selector];
    ghost var m, kw := sch, KeywordsOf(sch);
    assert m == EffectiveSchema(Field(t.fields, "inputSchema"));
    assert props == kw.properties[TENANT := selector];
    sch := sch["properties" := Obj(props)];
    if required {
      assert Field(sch, "required") == kw.required;
      var reqList := DecodeStrings(Field(sch, "required"));
      if TENANT !in reqList {
        reqList := reqList + [TENANT];
      }
      sch := sch["required" := EncodeStrings(reqList)];
    }
    assert sch == Injected(m, selector, required);
    t.fields := t.fields["inputSchema" := Obj(sch)];
  }

  // ---- What injection means for the arguments ----

  function WithoutTenant(v: Json): Json {
    if v.Obj? then Obj(v.fields - {TENANT}) else v
  }

  // A value the selector schema accepts for the tenant argument.
  predicate Offered(ids: seq<string>, v: Json) {
    v.Str? && (ids == [] || v.s in ids)
  }

  // What the selector asks of the arguments.
  predicate SelectorOk(v: Json, ids: seq<string>, required: bool) {
    v.Obj? ==>
      && (TENANT in v.fields ==> Offered(ids, v.fields[TENANT]))
      && (required ==> TENANT in v.fields)
  }

  // The schema does not mention `tenant` where injection would touch it, and its
  // required list is a list of strings.
  ghost predicate TenantFree(kw: Keywords) {
    && TENANT !in kw.properties
    && (kw.required.Some? && kw.required.value.Arr? ==>
          forall k :: k in kw.required.value.items ==> k.Str? && k.s != TENANT)
    && (kw.enum.Some? && kw.enum.value.Arr? ==>
          forall v :: v in kw.enum.value.items && v.Obj? ==> TENANT !in v.fields)
  }

  // A top-level enum lists an object that the rest of the schema accepts.
  ghost predicate EnumeratesObject(kw: Keywords) {
    kw.enum.Some? && kw.enum.value.Arr? && exists v :: v in kw.enum.value.items && v.Obj? && ShapeOk(kw, v)
  }

  ghost predicate InjectionExact(m: map<string, Json>, ids: seq<string>, required: bool) {
    forall v :: Valid(Obj(Injected(m, TenantSchema(ids, required), required)), v)
                <==> SelectorOk(v, ids, required) && Valid(Obj(m), WithoutTenant(v))
  }

  // Injection, seen through the keywords it changes.
  function InjectedKeywords(kw: Keywords, selector: Json, required: bool): Keywords {
    kw.(properties := kw.properties[TENANT := selector],
        required := if required then Some(EncodeStrings(RequiredNames(kw.required))) else kw.required)
  }

  lemma {:induction false} InjectedKeywordsOf(m: map<string, Json>, selector: Json, required: bool)
    ensures KeywordsOf(Injected(m, selector, required)) == InjectedKeywords(KeywordsOf(m), selector, required)
  {
  }

  lemma {:induction false} EncodedStrings(ss: seq<string>, s: string)
    ensures Str(s) in EncodeStrings(ss).items <==> s in ss
    ensures forall v :: v in EncodeStrings(ss).items ==> v.Str?
  {
    var e := EncodeStrings(ss).items;
    if s in ss {
      var i :| 0 <= i < |ss| && ss[i] == s;
      assert e[i] == Str(s);
    }
  }

  lemma {:induction false} SelectorKeywords(ids: seq<string>, required: bool)
    ensures KeywordsOf(TenantSchema(ids, required).fields)
            == Keywords(Some(Str("string")), if ids == [] then None else Some(EncodeStrings(ids)), None, map[], None)
  {
  }

  lemma {:induction false} SelectorShape(kw: Keywords, ids: seq<string>, v: Json)
    requires kw == Keywords(Some(Str("string")), if ids == [] then None
            else Some(EncodeStrings(ids)), None, map[], None)
    ensures ShapeOk(kw, v) && EnumOk(kw.enum, v) <==> Offered(ids, v)
  {
    EncodedStrings(ids, if v.Str? then v.s else "");
    assert HasType(v, "string") <==> v.Str?;
  }

  lemma {:induction false} SelectorValid(ids: seq<string>, required: bool, v: Json)
    ensures Valid(TenantSchema(ids, required), v) <==> Offered(ids, v)
  {
    var m := TenantSchema(ids, required).fields;
    SelectorKeywords(ids, required);
    ValidObject(m, v);
    SelectorShape(KeywordsOf(m), ids, v);
  }

  lemma {:induction false} SelectorValidForAll(ids: seq<string>, required: bool)
    ensures forall v :: Valid(TenantSchema(ids, required), v) <==> Offered(ids, v)
  {
    forall v ensures Valid(TenantSchema(ids, required), v) <==> Offered(ids, v) {
      SelectorValid(ids, required, v);
    }
  }

  // The names added to by injection, as a set.
  lemma {:induction false} RequiredNamesAre(required: Option<Json>, s: string)
    requires required.Some? && required.value.Arr? ==> forall k :: k in required.value.items ==> k.Str? && k.s != TENANT
    ensures Str(s) in EncodeStrings(RequiredNames(required)).items
            <==> s == TENANT || (required.Some? && required.value.Arr? && Str(s) in required.value.items)
  {
    var names, orig := RequiredNames(required), DecodeStrings(required);
    EncodedStrings(names, s);
    if required.Some? && required.value.Arr? {
      var items := required.value.items;
      assert forall i :: 0 <= i < |items| ==> items[i] in items && orig[i] == items[i].s;
      if Str(s) in items {
        var i :| 0 <= i < |items| && items[i] == Str(s);
        assert orig[i] == s;
      }
    }
    assert names == orig + [TENANT];
  }

  lemma {:induction false} RequiredInjected(required: Option<Json>, fields: map<string, Json>)
    requires required.Some? && required.value.Arr? ==> forall k :: k in required.value.items ==> k.Str? && k.s != TENANT
    ensures RequiredOk(Some(EncodeStrings(RequiredNames(required))), fields)
            <==> TENANT in fields && RequiredOk(required, fields - {TENANT})
  {
    var items := EncodeStrings(RequiredNames(required)).items;
    EncodedStrings(RequiredNames(required), TENANT);
    RequiredNamesAre(required, TENANT);
    forall k | k in items || (required.Some? && required.value.Arr? && k in required.value.items)
      ensures k.Str?
      ensures k in items <==> k.s == TENANT || (required.Some? && required.value.Arr? && k in required.value.items)
    {
      RequiredNamesAre(required, k.s);
      assert k == Str(k.s);
    }
  }

  lemma {:induction false} TypeIgnoresTenant(kind: Option<Json>, v: Json)
    ensures TypeOk(kind, v) <==> TypeOk(kind, WithoutTenant(v))
  {
    assert forall t :: HasType(v, t) <==> HasType(WithoutTenant(v), t);
  }

  // With the enum put aside, injection is exact for every value.
  lemma {:induction false} InjectionButEnum(kw: Keywords, selector: Json, ids: seq<string>, required: bool, v: Json)
    requires TenantFree(kw)
    requires forall x :: Valid(selector, x) <==> Offered(ids, x)
    ensures ShapeOk(InjectedKeywords(kw, selector, required), v)
            <==> SelectorOk(v, ids, required) && ShapeOk(kw, WithoutTenant(v))
  {
    var inj := InjectedKeywords(kw, selector, required);
    TypeIgnoresTenant(kw.kind, v);
    if v.Obj? {
      var rest := v.fields - {TENANT};
      forall k | k in rest ensures PropertyOk(inj, k, v.fields[k]) <==> PropertyOk(kw, k, rest[k]) {
      }
      assert TENANT in v.fields ==> (PropertyOk(inj, TENANT, v.fields[TENANT]) <==> Offered(ids, v.fields[TENANT]));
      RequiredInjected(kw.required, v.fields);
      if !required {
        RequiredWithout(kw.required, v.fields);
      }
      assert forall k :: k in v.fields <==> k in rest || (k == TENANT && TENANT in v.fields);
    }
  }

  lemma {:induction false} RequiredWithout(required: Option<Json>, fields: map<string, Json>)
    requires required.Some? && required.value.Arr? ==> forall k :: k in required.value.items ==> k.Str? && k.s != TENANT
    ensures RequiredOk(required, fields) <==> RequiredOk(required, fields - {TENANT})
  {
  }

  // Whatever passes the injected schema names an offered tenant and, without it,
  // passes the original one.
  lemma {:induction false} InjectionSound(m: map<string, Json>, ids: seq<string>, required: bool, v: Json)
    requires TenantFree(KeywordsOf(m))
    requires Valid(Obj(Injected(m, TenantSchema(ids, required), required)), v)
    ensures SelectorOk(v, ids, required) && Valid(Obj(m), WithoutTenant(v))
  {
    var kw, selector := KeywordsOf(m), TenantSchema(ids, required);
    InjectedKeywordsOf(m, selector, required);
    ValidObject(Injected(m, selector, required), v);
    SelectorValidForAll(ids, required);
    InjectionButEnum(kw, selector, ids, required, v);
    EnumLeavesNoTenant(kw, v);
    ValidObject(m, WithoutTenant(v));
  }

  lemma {:induction false} EnumLeavesNoTenant(kw: Keywords, v: Json)
    requires TenantFree(kw)
    ensures EnumOk(kw.enum, v) ==> EnumOk(kw.enum, WithoutTenant(v))
  {
    if v.Obj? && TENANT !in v.fields {
      assert v.fields - {TENANT} == v.fields;
    }
  }

  lemma {:induction false} InjectionComplete(m: map<string, Json>, ids: seq<string>, required: bool, v: Json)
    requires TenantFree(KeywordsOf(m)) && !EnumeratesObject(KeywordsOf(m))
    requires SelectorOk(v, ids, required) && Valid(Obj(m), WithoutTenant(v))
    ensures Valid(Obj(Injected(m, TenantSchema(ids, required), required)), v)
  {
    var kw, selector := KeywordsOf(m), TenantSchema(ids, required);
    InjectedKeywordsOf(m, selector, required);
    ValidObject(Injected(m, selector, required), v);
    ValidObject(m, WithoutTenant(v));
    SelectorValidForAll(ids, required);
    InjectionButEnum(kw, selector, ids, required, v);
    NoObjectEnumerated(kw, v);
  }

  lemma {:induction false} NoObjectEnumerated(kw: Keywords, v: Json)
    requires !EnumeratesObject(kw) && ShapeOk(kw, WithoutTenant(v))
    ensures EnumOk(kw.enum, WithoutTenant(v)) ==> EnumOk(kw.enum, v)
  {
  }

  lemma {:induction false} EnumeratedObjectIsLost(m: map<string, Json>, ids: seq<string>, required: bool, o: Json)
    returns (v: Json)
    requires TenantFree(KeywordsOf(m))
    requires o.Obj? && ShapeOk(KeywordsOf(m), o)
    requires KeywordsOf(m).enum.Some? && KeywordsOf(m).enum.value.Arr? && o in KeywordsOf(m).enum.value.items
    ensures SelectorOk(v, ids, required) && Valid(Obj(m), WithoutTenant(v))
    ensures !Valid(Obj(Injected(m, TenantSchema(ids, required), required)), v)
  {
    var selector := TenantSchema(ids, required);
    v := Obj(o.fields[TENANT := Str(if ids == [] then "" else ids[0])]);
    assert WithoutTenant(v).fields == o.fields;
    ValidObject(m, o);
    InjectedKeywordsOf(m, selector, required);
    ValidObject(Injected(m, selector, required), v);
  }

  // Injection preserves meaning for all arguments, unless the schema enumerates
  // whole argument objects: those leave no room for a tenant.
  lemma {:induction false} InjectionPreservesMeaning(m: map<string, Json>, ids: seq<string>, required: bool)
    requires TenantFree(KeywordsOf(m))
    ensures InjectionExact(m, ids, required) <==> !EnumeratesObject(KeywordsOf(m))
  {
    if EnumeratesObject(KeywordsOf(m)) {
      var o :| o in KeywordsOf(m).enum.value.items && o.Obj? && ShapeOk(KeywordsOf(m), o);
      var v := EnumeratedObjectIsLost(m, ids, required, o);
      assert !Valid(Obj(Injected(m, TenantSchema(ids, required), required)), v);
    } else {
      forall v ensures Valid(Obj(Injected(m, TenantSchema(ids, required), required)), v)
                       <==> SelectorOk(v, ids, required) && Valid(Obj(m), WithoutTenant(v))
      {
        if Valid(Obj(Injected(m, TenantSchema(ids, required), required)), v) {
          InjectionSound(m, ids, required, v);
        } else if SelectorOk(v, ids, required) && Valid(Obj(m), WithoutTenant(v)) {
          InjectionComplete(m, ids, required, v);
        }
      }
    }
  }

  // With no ids to choose from the selector takes any string: the listing for callers
  // without a valid token.
  lemma {:induction false} FreeSelectorMeans(m: map<string, Json>, v: Json)
    requires TenantFree(KeywordsOf(m)) && !EnumeratesObject(KeywordsOf(m))
    ensures Valid(Obj(Injected(m, TenantSchema([], false), false)), v)
            <==> (v.Obj? && "tenant" in v.fields ==> v.fields["tenant"].Str?) && Valid(Obj(m), WithoutTenant(v))
  {
    if Valid(Obj(Injected(m, TenantSchema([], false), false)), v) {
      InjectionSound(m, [], false, v);
    } else if SelectorOk(v, [], false) && Valid(Obj(m), WithoutTenant(v)) {
      InjectionComplete(m, [], false, v);
    }
  }
}
