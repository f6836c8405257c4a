/**
 Widening output schemas to admit null, from pkg/registry/common/output.go, and what
 it does to the meaning of a schema.

 Schemas and documents are JSON trees. The keywords that have a meaning here are type
 (section 6.1.1 of JSON Schema Validation 2020-12), required, properties,
 additionalProperties, items and $ref into $defs.
 */
module OutputSchema {
  import opened Sequences

  datatype Json =
    | Null
    | Bool(b: bool)
    | Num(n: real)
    | Str(s: string)
    | Arr(items: seq<Json>)
    | Obj(fields: map<string, Json>)

  // ------------------------------------------------------------------
  // The rewrite
  // ------------------------------------------------------------------

  /** The value of a type keyword that names one type. */
  function WidenType(name: Json): Json
    requires name.Str?
  {
    if name.s != "null" then Arr([name, Str("null")]) else name
  }

  function AllowNull(node: Json): Json {
    match node
    case Obj(fields) =>
      Obj(map k | k in fields :: if k == "type" && fields[k].Str? then WidenType(fields[k]) else AllowNull(fields[k]))
    case Arr(items) => Arr(seq(|items|, i requires 0 <= i < |items| => AllowNull(items[i])))
    case _ => node
  }

  /** The rewrite as it is done, node by node, with the fields in any order. */
  method AllowNullTree(node: Json) returns (r: Json)
    ensures r == AllowNull(node)
    decreases node
  {
    match node
    case Obj(fields) =>
      var v := fields;
      var todo := fields.Keys;
      while todo != {}
        invariant todo <= fields.Keys && v.Keys == fields.Keys
        invariant forall k :: k in todo ==> v[k] == fields[k]
        invariant forall k :: k in fields && k !in todo ==> v[k] == AllowNull(node).fields[k]
        decreases |todo|
      {
        var k :| k in todo;
        todo := todo - {k};
        if k == "type" && v[k].Str? {
          if v[k].s != "null" {
            v := v[k := Arr([v[k], Str("null")])];
          }
        } else {
          var child := AllowNullTree(fields[k]);
          v := v[k := child];
        }
      }
      r := Obj(v);
    case Arr(items) =>
      var v := items;
      for i := 0 to |items|
        invariant |v| == |items|
        invariant forall j :: 0 <= j < i ==> v[j] == AllowNull(items[j])
        invariant forall j :: i <= j < |items| ==> v[j] == items[j]
      {
        var child := AllowNullTree(items[i]);
        v := v[i := child];
      }
      r := Arr(v);
    case _ =>
      r := node;
  }

  /** Widening a second time changes nothing, on any tree. */
  lemma {:induction false} AllowNullIdempotent(node: Json)
    ensures AllowNull(AllowNull(node)) == AllowNull(node)
  {
    match node
    case Obj(fields) =>
      var once, twice := AllowNull(node).fields, AllowNull(AllowNull(node)).fields;
      forall k | k in fields ensures twice[k] == once[k] {
        if k == "type" && fields[k].Str? {
          WidenedTypeStays(fields[k]);
        } else {
          AllowNullIdempotent(fields[k]);
          KindKept(fields[k]);
        }
      }
      assert twice == once;
    case Arr(items) =>
      forall i | 0 <= i < |items| ensures AllowNull(AllowNull(items[i])) == AllowNull(items[i]) {
        AllowNullIdempotent(items[i]);
      }
    case _ =>
  }

  lemma WidenedTypeStays(name: Json)
    requires name.Str?
    ensures AllowNull(Arr([name, Str("null")])) == Arr([name, Str("null")])
    ensures WidenType(name).Str? ==> WidenType(WidenType(name)) == WidenType(name)
  {
  }

  lemma KindKept(node: Json)
    ensures AllowNull(node).Str? <==> node.Str?
    ensures AllowNull(node).Obj? <==> node.Obj?
    ensures AllowNull(node).Arr? <==> node.Arr?
    ensures !node.Obj? && !node.Arr? ==> AllowNull(node) == node
  {
  }

  // ------------------------------------------------------------------
  // What a schema means
  // ------------------------------------------------------------------

  type Defs = map<string, Json>

  predicate HasType(name: string, doc: Json) {
    match doc
    case Null => name == "null"
    case Bool(_) => name == "boolean"
    case Num(n) => name == "number" || (name == "integer" && n.Floor as real == n)
    case Str(_) => name == "string"
    case Arr(_) => name == "array"
    case Obj(_) => name == "object"
  }

  /** Whether a type keyword admits a document. A tolerant reading takes every name
      of a single type to admit null as well. */
  predicate TypeAdmits(keyword: Json, doc: Json, tolerant: bool) {
    match keyword
    case Str(name) => HasType(name, doc) || (tolerant && doc.Null?)
    case Arr(names) => exists i :: 0 <= i < |names| && names[i].Str? && HasType(names[i].s, doc)
    case _ => true
  }

  /** The names that a required keyword lists are there. */
  predicate HasRequired(keyword: Json, doc: Json) {
    keyword.Arr? && doc.Obj? ==>
      forall i :: 0 <= i < |keyword.items| && keyword.items[i].Str? ==> keyword.items[i].s in doc.fields
  }

  const DEFS_PREFIX := "#/$defs/"

  /** The definition that a $ref names. */
  function Target(defs: Defs, ref: Json): Option<Json> {
    if ref.Str? && DEFS_PREFIX <= ref.s && ref.s[|DEFS_PREFIX|..] in defs
    then Some(defs[ref.s[|DEFS_PREFIX|..]]) else None
  }

  /** The schema that applies to a member of an object. */
  function MemberSchema(schema: map<string, Json>, name: string): Option<Json> {
    if "properties" in schema && schema["properties"].Obj? && name in schema["properties"].fields
    then Some(schema["properties"].fields[name])
    else if "additionalProperties" in schema then Some(schema["additionalProperties"])
    else None
  }

  predicate MembersReject(n: nat, defs: Defs, f: map<string, Json>, doc: Json, tolerant: bool)
    decreases doc, n, 0
  {
    doc.Obj? && exists k :: k in doc.fields && MemberSchema(f, k).Some?
                            && Rejects(n, defs, MemberSchema(f, k).value, doc.fields[k], tolerant)
  }

  predicate ItemsReject(n: nat, defs: Defs, f: map<string, Json>, doc: Json, tolerant: bool)
    decreases doc, n, 0
  {
    doc.Arr? && "items" in f && exists i :: 0 <= i < |doc.items| && Rejects(n, defs, f["items"], doc.items[i], tolerant)
  }

  predicate ReferenceRejects(n: nat, defs: Defs, f: map<string, Json>, doc: Json, tolerant: bool)
    decreases doc, n, 0
  {
    n > 0 && "$ref" in f && Target(defs, f["$ref"]).Some?
    && Rejects(n - 1, defs, Target(defs, f["$ref"]).value, doc, tolerant)
  }

  /** Whether a document breaks a schema in a way that shows after following at most n
      references. */
  predicate Rejects(n: nat, defs: Defs, schema: Json, doc: Json, tolerant: bool)
    decreases doc, n, 1
  {
    match schema
    case Bool(b) => !b
    case Obj(f) =>
      || ("type" in f && !TypeAdmits(f["type"], doc, tolerant))
      || ("required" in f && !HasRequired(f["required"], doc))
      || MembersReject(n, defs, f, doc, tolerant)
      || ItemsReject(n, defs, f, doc, tolerant)
      || ReferenceRejects(n, defs, f, doc, tolerant)
    case _ => false
  }

  ghost predicate Accepts(defs: Defs, schema: Json, doc: Json) {
    forall n: nat :: !Rejects(n, defs, schema, doc, false)
  }

  /** What the schema accepts if null is good wherever one type is named. */
  ghost predicate AcceptsOrNull(defs: Defs, schema: Json, doc: Json) {
    forall n: nat :: !Rejects(n, defs, schema, doc, true)
  }

  predicate NullFree(doc: Json) {
    match doc
    case Null => false
    case Arr(items) => forall i :: 0 <= i < |items| ==> NullFree(items[i])
    case Obj(fields) => forall k :: k in fields ==> NullFree(fields[k])
    case _ => true
  }

  /** A schema: in the places where the keywords want schemas, there are some. */
  predicate IsSchema(node: Json) {
    match node
    case Bool(_) => true
    case Obj(f) =>
      && ("items" in f ==> IsSchema(f["items"]))
      && ("additionalProperties" in f ==> IsSchema(f["additionalProperties"]))
      && ("properties" in f && f["properties"].Obj? ==>
            var p := f["properties"].fields; forall k :: k in p ==> IsSchema(p[k]))
    case _ => false
  }

  ghost predicate AreSchemas(defs: Defs) {
    forall k :: k in defs ==> IsSchema(defs[k])
  }

  /** The widened definitions. */
  function Widened(defs: Defs): Defs {
    AllowNull(Obj(defs)).fields
  }

  // ------------------------------------------------------------------
  // Widening keeps the meaning, on everything except null
  // ------------------------------------------------------------------

  lemma WidenedType(keyword: Json, doc: Json)
    ensures TypeAdmits(if keyword.Str? then WidenType(keyword) else AllowNull(keyword), doc, false)
            <==> TypeAdmits(keyword, doc, true)
  {
    match keyword
    case Str(name) =>
      if name != "null" {
        var names := WidenType(keyword).items;
        assert names[0] == keyword && names[1] == Str("null");
      }
    case Arr(names) =>
      var widened := AllowNull(keyword).items;
      forall i | 0 <= i < |names| ensures widened[i].Str? <==> names[i].Str? {
        KindKept(names[i]);
      }
    case _ => KindKept(keyword);
  }

  lemma WidenedRequired(keyword: Json, doc: Json)
    ensures HasRequired(AllowNull(keyword), doc) <==> HasRequired(keyword, doc)
  {
    KindKept(keyword);
    if keyword.Arr? {
      var widened := AllowNull(keyword).items;
      forall i | 0 <= i < |widened| ensures widened[i].Str? <==> keyword.items[i].Str? {
        KindKept(keyword.items[i]);
      }
    }
  }

  /** The members' schemas are widened too; a property that is named type is a
      schema like any other, not a keyword. */
  lemma WidenedMember(f: map<string, Json>, name: string)
    requires IsSchema(Obj(f))
    ensures
      var widened := MemberSchema(AllowNull(Obj(f)).fields, name);
      && widened.Some? == MemberSchema(f, name).Some?
      && (widened.Some? ==> IsSchema(MemberSchema(f, name).value)
                            && widened.value == AllowNull(MemberSchema(f, name).value))
  {
    if "properties" in f {
      KindKept(f["properties"]);
    }
  }

  lemma WidenedTarget(defs: Defs, ref: Json)
    requires AreSchemas(defs)
    ensures
      var widened := Target(Widened(defs), AllowNull(ref));
      && widened.Some? == Target(defs, ref).Some?
      && (widened.Some? ==> IsSchema(Target(defs, ref).value) && widened.value == AllowNull(Target(defs, ref).value))
  {
    KindKept(ref);
  }

  lemma {:induction false} WidenedMembersReject(n: nat, defs: Defs, f: map<string, Json>, doc: Json)
    requires IsSchema(Obj(f)) && AreSchemas(defs)
    ensures MembersReject(n, Widened(defs), AllowNull(Obj(f)).fields, doc, false) <==> MembersReject(n, defs, f, doc, true)
    decreases doc, n, 0
  {
    if doc.Obj? {
      var w := AllowNull(Obj(f)).fields;
      forall k | k in doc.fields
        ensures MemberSchema(w, k).Some? == MemberSchema(f, k).Some?
        ensures MemberSchema(f, k).Some? ==>
                  (Rejects(n, Widened(defs), MemberSchema(w, k).value, doc.fields[k], false)
                   <==> Rejects(n, defs, MemberSchema(f, k).value, doc.fields[k], true))
      {
        WidenedMember(f, k);
        if MemberSchema(f, k).Some? { WidenedRejects(n, defs, MemberSchema(f, k).value, doc.fields[k]); }
      }
    }
  }

  lemma {:induction false} WidenedItemsReject(n: nat, defs: Defs, f: map<string, Json>, doc: Json)
    requires IsSchema(Obj(f)) && AreSchemas(defs)
    ensures ItemsReject(n, Widened(defs), AllowNull(Obj(f)).fields, doc, false) <==> ItemsReject(n, defs, f, doc, true)
    decreases doc, n, 0
  {
    if doc.Arr? && "items" in f {
      forall i | 0 <= i < |doc.items|
        ensures Rejects(n, Widened(defs), AllowNull(f["items"]), doc.items[i], false)
                <==> Rejects(n, defs, f["items"], doc.items[i], true)
      {
        WidenedRejects(n, defs, f["items"], doc.items[i]);
      }
    }
  }

  lemma {:induction false} WidenedReferenceRejects(n: nat, defs: Defs, f: map<string, Json>, doc: Json)
    requires IsSchema(Obj(f)) && AreSchemas(defs)
    ensures ReferenceRejects(n, Widened(defs), AllowNull(Obj(f)).fields, doc, false) <==> ReferenceRejects(n, defs, f, doc, true)
    decreases doc, n, 0
  {
    if "$ref" in f {
      WidenedTarget(defs, f["$ref"]);
      if n > 0 && Target(defs, f["$ref"]).Some? { WidenedRejects(n - 1, defs, Target(defs, f["$ref"]).value, doc); }
    }
  }

  /** The widened schema rejects a document exactly if the schema does, read so that
      null is good wherever one type is named. */
  lemma {:induction false} WidenedRejects(n: nat, defs: Defs, schema: Json, doc: Json)
    requires IsSchema(schema) && AreSchemas(defs)
    ensures Rejects(n, Widened(defs), AllowNull(schema), doc, false) <==> Rejects(n, defs, schema, doc, true)
    decreases doc, n, 1
  {
    if schema.Obj? {
      var f := schema.fields;
      if "type" in f { WidenedType(f["type"], doc); }
      if "required" in f { WidenedRequired(f["required"], doc); }
      WidenedMembersReject(n, defs, f, doc);
      WidenedItemsReject(n, defs, f, doc);
      WidenedReferenceRejects(n, defs, f, doc);
    }
  }

  /** The tolerant reading differs only on null. */
  lemma {:induction false} ToleranceIsAboutNull(n: nat, defs: Defs, schema: Json, doc: Json)
    ensures Rejects(n, defs, schema, doc, true) ==> Rejects(n, defs, schema, doc, false)
    ensures NullFree(doc) && Rejects(n, defs, schema, doc, false) ==> Rejects(n, defs, schema, doc, true)
    decreases doc, n
  {
    if schema.Obj? {
      var f := schema.fields;
      if doc.Obj? {
        forall k | k in doc.fields && MemberSchema(f, k).Some?
          ensures Rejects(n, defs, MemberSchema(f, k).value, doc.fields[k], true) ==> Rejects(n, defs, MemberSchema(f, k).value, doc.fields[k], false)
          ensures NullFree(doc) && Rejects(n, defs, MemberSchema(f, k).value, doc.fields[k], false) ==> Rejects(n, defs, MemberSchema(f, k).value, doc.fields[k], true)
        {
          ToleranceIsAboutNull(n, defs, MemberSchema(f, k).value, doc.fields[k]);
        }
      }
      if doc.Arr? && "items" in f {
        forall i | 0 <= i < |doc.items|
          ensures Rejects(n, defs, f["items"], doc.items[i], true) ==> Rejects(n, defs, f["items"], doc.items[i], false)
          ensures NullFree(doc) && Rejects(n, defs, f["items"], doc.items[i], false) ==> Rejects(n, defs, f["items"], doc.items[i], true)
        {
          ToleranceIsAboutNull(n, defs, f["items"], doc.items[i]);
        }
      }
      if n > 0 && "$ref" in f && Target(defs, f["$ref"]).Some? {
        ToleranceIsAboutNull(n - 1, defs, Target(defs, f["$ref"]).value, doc);
      }
      assert MembersReject(n, defs, f, doc, true) ==> MembersReject(n, defs, f, doc, false);
      assert ItemsReject(n, defs, f, doc, true) ==> ItemsReject(n, defs, f, doc, false);
      assert ReferenceRejects(n, defs, f, doc, true) ==> ReferenceRejects(n, defs, f, doc, false);
      assert NullFree(doc) && MembersReject(n, defs, f, doc, false) ==> MembersReject(n, defs, f, doc, true);
      assert NullFree(doc) && ItemsReject(n, defs, f, doc, false) ==> ItemsReject(n, defs, f, doc, true);
      assert NullFree(doc) && ReferenceRejects(n, defs, f, doc, false) ==> ReferenceRejects(n, defs, f, doc, true);
    }
  }

  /** A widened schema accepts exactly what the schema accepts with null let in; so it
      accepts what the schema accepts, and on documents without null nothing else. */
  lemma WideningKeepsMeaning(defs: Defs, schema: Json, doc: Json)
    requires IsSchema(schema) && AreSchemas(defs)
    ensures Accepts(Widened(defs), AllowNull(schema), doc) <==> AcceptsOrNull(defs, schema, doc)
    ensures Accepts(defs, schema, doc) ==> Accepts(Widened(defs), AllowNull(schema), doc)
    ensures NullFree(doc) ==> (Accepts(Widened(defs), AllowNull(schema), doc) <==> Accepts(defs, schema, doc))
  {
    forall n: nat
      ensures Rejects(n, Widened(defs), AllowNull(schema), doc, false) <==> Rejects(n, defs, schema, doc, true)
      ensures Rejects(n, defs, schema, doc, true) ==> Rejects(n, defs, schema, doc, false)
      ensures NullFree(doc) && Rejects(n, defs, schema, doc, false) ==> Rejects(n, defs, schema, doc, true)
    {
      WidenedRejects(n, defs, schema, doc);
      ToleranceIsAboutNull(n, defs, schema, doc);
    }
  }

  // ------------------------------------------------------------------
  // The root
  // ------------------------------------------------------------------

  datatype Built = Schema(root: map<string, Json>) | NotAnObject

  /** buildSchema, from the reflected schema without its definitions, and those. */
  function BuildSchema(schema: Json, defs: Defs, field: string): Built {
    var payload := AllowNull(schema);
    if field == "" && !payload.Obj? then NotAnObject
    else
      var root :=
        if field != "" then map["properties" := Obj(map[field := payload]), "required" := Arr([Str(field)])]
        else payload.fields;
      var typed := root["type" := Str("object")];
      Schema(if |defs| > 0 then typed["$defs" := AllowNull(Obj(defs))] else typed)
  }

  /** The published schema's own definitions, as its references see them. */
  function RootDefs(root: map<string, Json>): Defs {
    if "$defs" in root && root["$defs"].Obj? then root["$defs"].fields else map[]
  }

  ghost predicate RootAccepts(root: map<string, Json>, doc: Json) {
    Accepts(RootDefs(root), Obj(root), doc)
  }

  /** The envelope that publishes a payload under a field admits exactly the objects
      with that field whose payload the widened schema admits; null is not one. */
  lemma EnvelopeMeans(schema: Json, defs: Defs, field: string, doc: Json)
    requires IsSchema(schema) && AreSchemas(defs) && field != ""
    ensures
      var built := BuildSchema(schema, defs, field);
      && built.Schema?
      && (RootAccepts(built.root, doc) <==>
            doc.Obj? && field in doc.fields && AcceptsOrNull(defs, schema, doc.fields[field]))
  {
    var root := BuildSchema(schema, defs, field).root;
    RootDefsAre(schema, defs, field);
    forall n: nat
      ensures Rejects(n, Widened(defs), Obj(root), doc, false) <==>
              !doc.Obj? || field !in doc.fields || Rejects(n, defs, schema, doc.fields[field], true)
    {
      EnvelopeRejects(n, root, Widened(defs), AllowNull(schema), field, doc);
      if doc.Obj? && field in doc.fields { WidenedRejects(n, defs, schema, doc.fields[field]); }
    }
    assert Rejects(0, Widened(defs), Obj(root), doc, false) ==> !RootAccepts(root, doc);
  }

  lemma RootDefsAre(schema: Json, defs: Defs, field: string)
    requires BuildSchema(schema, defs, field).Schema? && (field == "" ==> "$defs" !in schema.fields)
    ensures RootDefs(BuildSchema(schema, defs, field).root) == Widened(defs)
  {
    if |defs| == 0 { assert Widened(defs) == map[]; }
  }

  lemma EnvelopeRejects(n: nat, root: map<string, Json>, defs: Defs, payload: Json, field: string, doc: Json)
    requires "properties" in root && root["properties"] == Obj(map[field := payload])
    requires "required" in root && root["required"] == Arr([Str(field)])
    requires "type" in root && root["type"] == Str("object")
    requires "additionalProperties" !in root && "items" !in root && "$ref" !in root
    ensures Rejects(n, defs, Obj(root), doc, false) <==>
            !doc.Obj? || field !in doc.fields || Rejects(n, defs, payload, doc.fields[field], false)
  {
    assert root["required"].items[0] == Str(field);
    assert forall k :: MemberSchema(root, k).Some? <==> k == field;
  }

  lemma RetypedRejects(n: nat, defs: Defs, f: map<string, Json>, listed: Option<Json>, doc: Json)
    ensures
      var typed := f["type" := Str("object")];
      var root := if listed.Some? then typed["$defs" := listed.value] else typed;
      Rejects(n, defs, Obj(root), doc, false) <==> !doc.Obj? || Rejects(n, defs, Obj(f - {"type"}), doc, false)
  {
    var typed := f["type" := Str("object")];
    var root := if listed.Some? then typed["$defs" := listed.value] else typed;
    var untyped := f - {"type"};
    assert forall k :: MemberSchema(root, k) == MemberSchema(untyped, k);
    assert MembersReject(n, defs, root, doc, false) <==> MembersReject(n, defs, untyped, doc, false);
    assert ItemsReject(n, defs, root, doc, false) <==> ItemsReject(n, defs, untyped, doc, false);
    assert ReferenceRejects(n, defs, root, doc, false) <==> ReferenceRejects(n, defs, untyped, doc, false);
  }

  function Untyped(schema: Json): Json
    requires schema.Obj?
  {
    Obj(schema.fields - {"type"})
  }

  lemma UntypedIsWidened(schema: Json)
    requires IsSchema(schema) && schema.Obj?
    ensures IsSchema(Untyped(schema)) && AllowNull(Untyped(schema)) == Untyped(AllowNull(schema))
  {
  }

  lemma DirectRejects(n: nat, schema: Json, defs: Defs, doc: Json)
    requires IsSchema(schema) && AreSchemas(defs) && schema.Obj?
    ensures Rejects(n, Widened(defs), Obj(BuildSchema(schema, defs, "").root), doc, false)
            <==> !doc.Obj? || Rejects(n, defs, Untyped(schema), doc, true)
  {
    RetypedRejects(n, Widened(defs), AllowNull(schema).fields, if |defs| > 0 then Some(AllowNull(Obj(defs))) else None, doc);
    UntypedIsWidened(schema);
    WidenedRejects(n, defs, Untyped(schema), doc);
  }

  /** Published directly, a schema admits exactly the objects that it admits, null let
      in, but for its own type keyword, which the root replaces. */
  lemma DirectMeans(schema: Json, defs: Defs, doc: Json)
    requires IsSchema(schema) && AreSchemas(defs) && (schema.Obj? ==> "$defs" !in schema.fields)
    ensures
      var built := BuildSchema(schema, defs, "");
      && (built.Schema? <==> schema.Obj?)
      && (built.Schema? ==> (RootAccepts(built.root, doc) <==> doc.Obj? && AcceptsOrNull(defs, Untyped(schema), doc)))
  {
    KindKept(schema);
    if schema.Obj? {
      RootDefsAre(schema, defs, "");
      DirectAccepts(schema, defs, BuildSchema(schema, defs, "").root, doc);
    }
  }

  lemma DirectAccepts(schema: Json, defs: Defs, root: map<string, Json>, doc: Json)
    requires IsSchema(schema) && AreSchemas(defs) && schema.Obj?
    requires BuildSchema(schema, defs, "") == Schema(root) && RootDefs(root) == Widened(defs)
    ensures RootAccepts(root, doc) <==> doc.Obj? && AcceptsOrNull(defs, Untyped(schema), doc)
  {
    forall n: nat
      ensures Rejects(n, Widened(defs), Obj(root), doc, false) <==> !doc.Obj? || Rejects(n, defs, Untyped(schema), doc, true)
    {
      DirectRejects(n, schema, defs, doc);
    }
    assert Rejects(0, Widened(defs), Obj(root), doc, false) ==> !RootAccepts(root, doc);
  }

  /** A type keyword that says object rules nothing out among objects. */
  lemma ObjectTypeIsIdle(n: nat, defs: Defs, schema: Json, doc: Json)
    requires schema.Obj? && doc.Obj? && ("type" in schema.fields ==> schema.fields["type"] == Str("object"))
    ensures Rejects(n, defs, Untyped(schema), doc, true) <==> Rejects(n, defs, schema, doc, true)
  {
    var f, untyped := schema.fields, Untyped(schema).fields;
    assert forall k :: MemberSchema(untyped, k) == MemberSchema(f, k);
    assert MembersReject(n, defs, untyped, doc, true) <==> MembersReject(n, defs, f, doc, true);
    assert ItemsReject(n, defs, untyped, doc, true) <==> ItemsReject(n, defs, f, doc, true);
    assert ReferenceRejects(n, defs, untyped, doc, true) <==> ReferenceRejects(n, defs, f, doc, true);
  }

  /** So for a schema whose type, if it has one, is object, nothing is lost. */
  lemma DirectObjectMeans(schema: Json, defs: Defs, doc: Json)
    requires IsSchema(schema) && AreSchemas(defs) && schema.Obj? && "$defs" !in schema.fields
    requires "type" in schema.fields ==> schema.fields["type"] == Str("object")
    ensures RootAccepts(BuildSchema(schema, defs, "").root, doc) <==> doc.Obj? && AcceptsOrNull(defs, schema, doc)
  {
    DirectMeans(schema, defs, doc);
    if doc.Obj? {
      forall n: nat ensures Rejects(n, defs, Untyped(schema), doc, true) <==> Rejects(n, defs, schema, doc, true) {
        ObjectTypeIsIdle(n, defs, schema, doc);
      }
    }
  }

  /** The root never admits null, nor anything but an object. */
  lemma RootIsAnObject(schema: Json, defs: Defs, field: string, doc: Json)
    requires BuildSchema(schema, defs, field).Schema? && !doc.Obj?
    ensures !RootAccepts(BuildSchema(schema, defs, field).root, doc)
  {
    var root := BuildSchema(schema, defs, field).root;
    assert root["type"] == Str("object");
    assert Rejects(0, RootDefs(root), Obj(root), doc, false);
  }

  // ------------------------------------------------------------------
  // What is published
  // ------------------------------------------------------------------

  /** The kind of a payload's type, as far as it matters. */
  datatype Kind = List | Map | Other

  function EmptyForNull(kind: Kind, payload: Json): Json {
    if !payload.Null? then payload
    else match kind
      case List => Arr([])
      case Map => Obj(map[])
      case Other => payload
  }

  function Structured(field: string, kind: Kind, payload: Json): Json {
    if field != "" then Obj(map[field := EmptyForNull(kind, payload)])
    else if payload.Null? then Obj(map[])
    else payload
  }

  /** What is published satisfies the published schema exactly if the payload satisfies the
      schema it was reflected from, read so that null is good wherever one type is named.
      In an envelope an empty collection stands for null; published directly, the empty
      object does, and the root's type replaces the schema's own. */
  lemma PublishedIsAccepted(schema: Json, defs: Defs, field: string, kind: Kind, payload: Json)
    requires IsSchema(schema) && AreSchemas(defs)
    requires field == "" && schema.Obj? ==> "$defs" !in schema.fields
    ensures
      var built := BuildSchema(schema, defs, field);
      var shown := Structured(field, kind, payload);
      && (built.Schema? <==> field != "" || schema.Obj?)
      && (field != "" ==>
            (RootAccepts(built.root, shown) <==> AcceptsOrNull(defs, schema, EmptyForNull(kind, payload))))
      && (field == "" && schema.Obj? ==>
            (RootAccepts(built.root, shown) <==>
               if payload.Null? then AcceptsOrNull(defs, Untyped(schema), Obj(map[]))
               else payload.Obj? && AcceptsOrNull(defs, Untyped(schema), payload)))
  {
    if field != "" {
      EnvelopeMeans(schema, defs, field, Structured(field, kind, payload));
    } else {
      DirectMeans(schema, defs, Structured(field, kind, payload));
    }
  }

  /** No reference of the schema rules the document out. */
  ghost predicate ReferenceAdmits(defs: Defs, f: map<string, Json>, doc: Json) {
    forall n: nat :: !ReferenceRejects(n, defs, f, doc, true)
  }

  /** A schema for arrays admits the empty one. */
  lemma EmptyArrayIsAdmitted(schema: Json, defs: Defs)
    requires schema.Obj? && "type" in schema.fields && schema.fields["type"] == Str("array")
    requires ReferenceAdmits(defs, schema.fields, Arr([]))
    ensures AcceptsOrNull(defs, schema, Arr([]))
  {
    forall n: nat ensures !Rejects(n, defs, schema, Arr([]), true) {
      assert !ReferenceRejects(n, defs, schema.fields, Arr([]), true);
    }
  }

  /** A schema for objects admits the empty one, unless it requires some member. */
  lemma EmptyObjectIsAdmitted(schema: Json, defs: Defs)
    requires schema.Obj? && "type" in schema.fields && schema.fields["type"] == Str("object")
    requires "required" in schema.fields ==> HasRequired(schema.fields["required"], Obj(map[]))
    requires ReferenceAdmits(defs, schema.fields, Obj(map[]))
    ensures AcceptsOrNull(defs, schema, Obj(map[]))
  {
    forall n: nat ensures !Rejects(n, defs, schema, Obj(map[]), true) {
      assert !ReferenceRejects(n, defs, schema.fields, Obj(map[]), true);
    }
  }

  /** A nil slice is published as an array without items, which the published schema accepts. */
  lemma NilListIsPublished(schema: Json, defs: Defs, field: string)
    requires IsSchema(schema) && AreSchemas(defs) && field != "" && schema.Obj?
    requires "type" in schema.fields && schema.fields["type"] == Str("array")
    requires ReferenceAdmits(defs, schema.fields, Arr([]))
    ensures
      var shown := Structured(field, List, Null);
      && shown.Obj? && shown.fields.Keys == {field} && shown.fields[field] == Arr([])
      && BuildSchema(schema, defs, field).Schema? && RootAccepts(BuildSchema(schema, defs, field).root, shown)
  {
    EmptyArrayIsAdmitted(schema, defs);
    EnvelopeMeans(schema, defs, field, Structured(field, List, Null));
  }

  /** A nil map is published as an object without members, which the published schema accepts. */
  lemma NilMapIsPublished(schema: Json, defs: Defs, field: string)
    requires IsSchema(schema) && AreSchemas(defs) && field != "" && schema.Obj?
    requires "type" in schema.fields && schema.fields["type"] == Str("object")
    requires "required" in schema.fields ==> HasRequired(schema.fields["required"], Obj(map[]))
    requires ReferenceAdmits(defs, schema.fields, Obj(map[]))
    ensures
      var shown := Structured(field, Map, Null);
      && shown.Obj? && shown.fields.Keys == {field} && shown.fields[field] == Obj(map[])
      && BuildSchema(schema, defs, field).Schema? && RootAccepts(BuildSchema(schema, defs, field).root, shown)
  {
    EmptyObjectIsAdmitted(schema, defs);
    EnvelopeMeans(schema, defs, field, Structured(field, Map, Null));
  }

  /** Any other payload is published unchanged, and so is null where it stands for neither. */
  lemma OthersArePublishedUnchanged(field: string, kind: Kind, payload: Json)
    requires !payload.Null? || kind.Other?
    ensures field != "" ==> Structured(field, kind, payload) == Obj(map[field := payload])
    ensures field == "" && !payload.Null? ==> Structured(field, kind, payload) == payload
    ensures field == "" && payload.Null? ==> Structured(field, kind, payload) == Obj(map[])
  {
  }
}
