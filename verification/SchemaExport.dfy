/**
 The export as a whole, from accepted schemas to the flat bundle: references keep their meaning,
 and each definition comes out as its schema gave it.
 */
module SchemaExport {
  import opened Wrappers
  import opened Json
  import opened SchemaRefs
  import opened SchemaTitles
  import opened SchemaTitleRefs
  import opened SchemaBundle
  import opened SchemaMeaning
  import opened SchemaFlat

  /** Accepted schemas, one of them namespaced, and the definitions that bundling them yields. */
  ghost predicate Exported(schemas: seq<Schema>, defs: Definitions) {
    && AllAccepted(schemas) && (exists s | s in schemas :: s.namespace.Some?)
    && Collect(schemas, CollectTypes(schemas)) == Some(defs)
  }

  lemma ExportedBundle(schemas: seq<Schema>, defs: Definitions)
    requires Exported(schemas, defs)
    ensures ClosedBundle(defs) && AllV2(CollectTypes(schemas)) && Holds(defs, schemas, CollectTypes(schemas))
    ensures NamespaceOf(defs) == defs[V2].fields
  {
    TypesOwner(schemas);
    CollectContents(schemas, CollectTypes(schemas));
    BundleIsClosed(schemas);
  }

  // ---------------------------------------------------------------- references keep their meaning

  lemma RootNameIsLocal(s: Schema, types: map<string, string>, p: (string, Value), r: string)
    requires Accepted(s, types) && AllV2(types) && p in RootPairs(s, types)
    requires r in Refs(p.1) && NamespacePrefix(V2) <= r
    ensures Keep(r[|NamespacePrefix(V2)|..])
  {
    var q := RootPairOrigin(s, types, p, r);
    KnownRefShape(s, types, q);
    RefShape(s, types, q);
    assert r == NamespacePrefix(V2) + q[|DEFS|..];
  }

  lemma InnerNameIsLocal(s: Schema, types: map<string, string>, p: (string, Value), r: string)
    requires Accepted(s, types) && p in NamespacedPairs(s) && r in Refs(p.1) && NamespacePrefix(V2) <= r
    ensures Keep(r[|NamespacePrefix(V2)|..])
  {
    PrefixStartsWithDefs(r);
    NamespacedPairRefs(s, types, p, r);
  }

  /** A reference into the namespace names a local definition, and so never a special one. */
  lemma NamespacedNameIsLocal(schemas: seq<Schema>, defs: Definitions, n: string, r: string)
    requires AllAccepted(schemas) && Holds(defs, schemas, CollectTypes(schemas)) && AllV2(CollectTypes(schemas))
    requires (n in NamespaceOf(defs) && r in Refs(NamespaceOf(defs)[n])) || (n in defs && n != V2 && r in Refs(defs[n]))
    requires NamespacePrefix(V2) <= r
    ensures Keep(r[|NamespacePrefix(V2)|..])
  {
    if n in NamespaceOf(defs) && r in Refs(NamespaceOf(defs)[n]) {
      var s := InnerSource(defs, schemas, n);
      InnerNameIsLocal(s, CollectTypes(schemas), (n, NamespaceOf(defs)[n]), r);
    } else {
      var s := RootSource(defs, schemas, n);
      RootNameIsLocal(s, CollectTypes(schemas), (n, defs[n]), r);
    }
  }

  /** A definition reference of an accepted schema names one of its plain local definitions. */
  lemma RefShape(s: Schema, types: map<string, string>, q: string)
    requires Accepted(s, types) && q in Refs(s.value)
    ensures DEFS <= q ==> var m := q[|DEFS|..]; q == DEFS + m && m in Locals(s.value) && Plain(m) && Keep(m)
  {
  }

  lemma KnownRefShape(s: Schema, types: map<string, string>, q: string)
    requires Accepted(s, types) && AllV2(types) && q in Refs(s.value)
    ensures !(DEFS <= q) ==> KnownRef(q, types) == q && !(NamespacePrefix(V2) <= q)
    ensures DEFS <= q ==> KnownRef(q, types) == NamespacePrefix(V2) + q[|DEFS|..] || KnownRef(q, types) == q
    ensures DEFS <= q ==> !(NamespacePrefix(V2) <= q)
  {
    RefShape(s, types, q);
    PrefixStartsWithDefs(q);
    if DEFS <= q { PlainRefShape(q[|DEFS|..], types); }
  }

  lemma PlainRefShape(m: string, types: map<string, string>)
    requires Plain(m) && AllV2(types)
    ensures KnownRef(DEFS + m, types) == NamespacePrefix(V2) + m || KnownRef(DEFS + m, types) == DEFS + m
    ensures !(NamespacePrefix(V2) <= DEFS + m)
  {
    KnownRefOf(m, types);
    PlainIsNotNamespaced(m);
    assert (DEFS + m)[|DEFS|..] == m;
  }

  /** No reference of an exported definition is overridden. */
  lemma NotOverridden(schemas: seq<Schema>, defs: Definitions, n: string, r: string)
    requires Exported(schemas, defs) && ClosedBundle(defs)
    requires n in Locals(Flat(defs)) && Origin(defs, n).Some? && r in Refs(Origin(defs, n).value)
    ensures !Overridden(defs, r)
  {
    ExportedBundle(schemas, defs);
    OriginIs(defs, n);
    if NamespacePrefix(V2) <= r { NamespacedNameIsLocal(schemas, defs, n, r); }
  }

  lemma OriginIs(defs: Definitions, n: string)
    requires ClosedBundle(defs) && n in Locals(Flat(defs))
    ensures Origin(defs, n).Some?
    ensures FromRoot(defs, n) ==> n in defs && n != V2 && Origin(defs, n) == Some(defs[n])
    ensures !FromRoot(defs, n) ==> n in defs[V2].fields && Origin(defs, n) == Some(defs[V2].fields[n])
  {
    FlatLocals(defs, n);
    GatheredOrigin(defs, n);
  }
  /**
   Every definition reference of a flat definition leads to the rewritten image of what it
   denoted in the bundle.
   */
  lemma ExportPreservesMeaning(schemas: seq<Schema>, defs: Definitions, flat: Value, n: string, r: string)
    requires Exported(schemas, defs) && Flatten(BundleOf(defs)) == Some(flat)
    requires n in Locals(flat) && Origin(defs, n).Some? && r in Refs(Origin(defs, n).value) && DEFS <= r
    ensures Resolve(BundleOf(defs), r).Some?
    ensures Resolve(flat, FlatRef(r)) == Some(RewritePrefix(Resolve(BundleOf(defs), r).value))
  {
    ExportedBundle(schemas, defs);
    FlattenSucceeds(defs);
    NotOverridden(schemas, defs, n, r);
    FlatMeaning(defs, n, r);
  }

  // ---------------------------------------------------------------- definitions come out as they went in

  /** `s` gives the name `n` this body: its own, or that of a local definition with its titles. */
  predicate Gives(s: Schema, n: string, body: Value) {
    || (n == s.name && body == WithoutDefinitions(s.value))
    || (n in Locals(s.value) && body == Annotate(Locals(s.value)[n], None, Some(n)))
  }

  lemma GivesRefs(s: Schema, n: string, body: Value)
    requires Gives(s, n, body)
    ensures Refs(body) <= Refs(s.value)
  {
    WithoutDefinitionsRefs(s.value);
    if n in Locals(s.value) { LocalRefs(s.value, n); }
  }

  lemma LocalOfMapRefs(v: Value, f: string -> string, n: string)
    requires n in Locals(v) && n != REF
    ensures n in Locals(MapRefs(v, f)) && Locals(MapRefs(v, f))[n] == MapRefs(Locals(v)[n], f)
  {
    MapRefsMember(v, f, DEFINITIONS);
    MapRefsMember(v.fields[DEFINITIONS], f, n);
  }

  lemma WithoutDefinitionsMapRefs(v: Value, f: string -> string)
    ensures WithoutDefinitions(MapRefs(v, f)) == MapRefs(WithoutDefinitions(v), f)
  {
    if v.Object? {
      var a, b := WithoutDefinitions(MapRefs(v, f)), MapRefs(WithoutDefinitions(v), f);
      assert a.fields == b.fields;
    }
  }

  /** Two rewriters in a row act as the second if they do on every reference. */
  lemma SecondRewrite(v: Value, f: string -> string, g: string -> string)
    requires forall r | r in Refs(v) :: g(f(r)) == g(r)
    ensures MapRefs(MapRefs(v, f), g) == MapRefs(v, g)
  {
    MapRefsCompose(v, f, g);
    MapRefsAgree(v, r => g(f(r)), g);
  }

  lemma FlatRefAgain(s: Schema, types: map<string, string>, r: string)
    requires Accepted(s, types) && AllV2(types) && r in Refs(s.value)
    ensures FlatRef(NamespaceRef(r, V2)) == FlatRef(r) && FlatRef(KnownRef(r, types)) == FlatRef(r)
  {
    RefShape(s, types, r);
    KnownRefShape(s, types, r);
    if DEFS <= r {
      var m := r[|DEFS|..];
      PlainIsNotNamespaced(m);
      FlatRefRoot(m);
      FlatRefNamespaced(m);
      assert NamespaceRef(r, V2) == NamespacePrefix(V2) + m;
    }
  }

  /** Flattening undoes either rewrite of an accepted schema, up to the prefix itself. */
  lemma FlatOfRewritten(s: Schema, types: map<string, string>, v: Value)
    requires Accepted(s, types) && AllV2(types) && Refs(v) <= Refs(s.value)
    ensures RewritePrefix(RewriteToNamespace(v, V2)) == RewritePrefix(v)
    ensures RewritePrefix(RewriteToKnown(v, types)) == RewritePrefix(v)
  {
    forall r | r in Refs(v)
      ensures FlatRef(NamespaceRef(r, V2)) == FlatRef(r) && FlatRef(KnownRef(r, types)) == FlatRef(r)
    {
      FlatRefAgain(s, types, r);
    }
    SecondRewrite(v, r => NamespaceRef(r, V2), r => FlatRef(r));
    SecondRewrite(v, r => KnownRef(r, types), r => FlatRef(r));
  }

  lemma OwnBodyIs(s: Schema, types: map<string, string>, n: string)
    requires OneNamespace(s) && n in Locals(s.value)
    ensures var body := Annotate(Locals(s.value)[n], None, Some(n));
            OwnBody(s, types, n) ==
            if s.namespace.Some? then RewriteToNamespace(body, V2) else RewriteToKnown(body, types)
  {
    var v, title := Locals(s.value)[n], Some(n);
    LocalOfMapRefs(s.value, r => NamespaceRef(r, V2), n);
    LocalOfMapRefs(s.value, r => KnownRef(r, types), n);
    AnnotateMapRefs(v, None, title, r => NamespaceRef(r, V2));
    AnnotateMapRefs(v, None, title, r => KnownRef(r, types));
    RewriteToNamespaceIdempotent(Annotate(v, None, title), V2);
  }

  /** Whatever a schema contributes to the bundle flattens like the body the schema gave. */
  lemma ContributionSource(s: Schema, types: map<string, string>, p: (string, Value)) returns (body: Value)
    requires Accepted(s, types) && AllV2(types) && (p in NamespacedPairs(s) || p in RootPairs(s, types))
    ensures Gives(s, p.0, body) && RewritePrefix(p.1) == RewritePrefix(body)
  {
    var f: string -> string := if s.namespace.Some? then r => NamespaceRef(r, V2) else r => KnownRef(r, types);
    if p == (s.name, WithoutDefinitions(MapRefs(s.value, f))) {
      body := WithoutDefinitions(s.value);
      WithoutDefinitionsMapRefs(s.value, f);
    } else {
      LocalNamesKept(s.value, f);
      body := Annotate(Locals(s.value)[p.0], None, Some(p.0));
      OwnBodyIs(s, types, p.0);
    }
    GivesRefs(s, p.0, body);
    FlatOfRewritten(s, types, body);
  }

  /** No reference of the value leads into the namespace, or looks as if it did. */
  ghost predicate NoPrefix(v: Value) { forall r | r in Refs(v) :: !Contains(r, NamespacePrefix(V2)) }

  lemma PrefixFixed(v: Value)
    ensures RewritePrefix(v) == v <==> NoPrefix(v)
  {
    if NoPrefix(v) {
      forall r | r in Refs(v) ensures FlatRef(r) == r { ReplaceAllAbsent(r, NamespacePrefix(V2), DEFS); }
      MapRefsIdentity(v, r => FlatRef(r));
    }
    if RewritePrefix(v) == v {
      forall r | r in Refs(v) ensures !Contains(r, NamespacePrefix(V2)) {
        MapRefsFixed(v, r => FlatRef(r), r);
        ReplaceAllShrinks(r, NamespacePrefix(V2), DEFS);
      }
    }
  }

  /**
   Each definition of the flat document is what some schema gave its name, with titles added:
   literally so if and only if none of its references contains the namespace's prefix.
   */
  lemma ExportRoundTrip(schemas: seq<Schema>, defs: Definitions, flat: Value, n: string)
    returns (s: Schema, body: Value)
    requires Exported(schemas, defs) && Flatten(BundleOf(defs)) == Some(flat) && n in Locals(flat)
    ensures s in schemas && Gives(s, n, body) && (Locals(flat)[n] == body <==> NoPrefix(body))
  {
    ExportedBundle(schemas, defs);
    FlattenSucceeds(defs);
    FlatDefinition(defs, n);
    OriginIs(defs, n);
    if FromRoot(defs, n) {
      s := RootSource(defs, schemas, n);
    } else {
      s := InnerSource(defs, schemas, n);
    }
    body := ContributionSource(s, CollectTypes(schemas), (n, Origin(defs, n).value));
    PrefixFixed(body);
  }

  /**
   Every namespaced schema gets each of its definitions, and itself unless a shared root schema
   has its name, back as it gave them.
   */
  lemma NamespacedRoundTrip(schemas: seq<Schema>, defs: Definitions, flat: Value, s: Schema, n: string, body: Value)
    requires Exported(schemas, defs) && Flatten(BundleOf(defs)) == Some(flat)
    requires s in schemas && s.namespace.Some? && Gives(s, n, body) && (n in SHARED ==> n !in defs)
    ensures n in Locals(flat) && (Locals(flat)[n] == body <==> NoPrefix(body))
  {
    var types := CollectTypes(schemas);
    ExportedBundle(schemas, defs);
    FlattenSucceeds(defs);
    var image := InnerImage(s, types, n, body);
    assert (n, image) in AllNamespaced(schemas);
    FlatDefinition(defs, n);
    OriginIs(defs, n);
    PrefixFixed(body);
  }

  lemma InnerImage(s: Schema, types: map<string, string>, n: string, body: Value) returns (image: Value)
    requires Accepted(s, types) && AllV2(types) && s.namespace.Some? && Gives(s, n, body)
    ensures (n, image) in NamespacedPairs(s) && RewritePrefix(image) == RewritePrefix(body)
  {
    GivesRefs(s, n, body);
    FlatOfRewritten(s, types, body);
    if n == s.name && body == WithoutDefinitions(s.value) {
      WithoutDefinitionsMapRefs(s.value, r => NamespaceRef(r, V2));
      image := WithoutDefinitions(RewriteToNamespace(s.value, V2));
    } else {
      LocalIsLifted(s, types, n);
      OwnBodyIs(s, types, n);
      image := OwnBody(s, types, n);
    }
  }
  // ---------------------------------------------------------------- a reference that changes its meaning

  const REQUEST := "ClientRequest"
  const USER := "B"
  const OBJECT_TYPE := Object(map["type" := String("object")])
  const STRING_TYPE := Object(map["type" := String("string")])

  function ReferenceTo(r: string): Value { Object(map[REF := String(r)]) }

  /** A namespaced request, a schema that refers to it, and a root schema of the request's name. */
  function OverridingSchemas(): seq<Schema> {
    [Schema(Some(V2), REQUEST, OBJECT_TYPE, false),
     Schema(Some(V2), USER, ReferenceTo(DEFS + REQUEST), false),
     Schema(None, REQUEST, STRING_TYPE, false)]
  }

  function OverriddenBundle(): Definitions {
    map[V2 := Object(map[REQUEST := OBJECT_TYPE, USER := ReferenceTo(NamespacePrefix(V2) + REQUEST)]),
        REQUEST := STRING_TYPE]
  }

  lemma CollectStep(schemas: seq<Schema>, last: Schema, types: map<string, string>, defs: Definitions)
    requires Collect(schemas, types) == Some(defs)
    ensures Collect(schemas + [last], types) == AddSchema(defs, last, types)
  {
    assert (schemas + [last])[..|schemas|] == schemas;
  }

  /** A schema without local definitions, in a bundle whose namespace does not have its name. */
  lemma AddWithoutLocals(defs: Definitions, s: Schema, types: map<string, string>)
    requires s.namespace == Some(V2) && s.name !in IGNORED && NamespaceOk(defs) && s.name !in NamespaceOf(defs)
    requires s.value.Object? && DEFINITIONS !in s.value.fields
    ensures AddSchema(defs, s, types)
         == Some(defs[V2 := Object(NamespaceOf(defs)[s.name := RewriteToNamespace(s.value, V2)])])
  {
    var v := RewriteToNamespace(s.value, V2);
    assert v.fields - {DEFINITIONS} == v.fields;
    assert Lifted(v, V2) == map[] && LocalsOk(v) && WithoutDefinitions(v) == v;
    var entries := map[s.name := v];
    assert NamespaceOf(defs) + entries == NamespaceOf(defs)[s.name := v];
    assert entries != map[] by { assert s.name in entries; }
    assert InsertAll(defs, V2, entries) == Some(defs[V2 := Object(NamespaceOf(defs) + entries)]);
  }

  lemma AddRootWithoutLocals(defs: Definitions, s: Schema, types: map<string, string>)
    requires s.namespace == None && s.name !in IGNORED && s.value.Object? && DEFINITIONS !in s.value.fields
    ensures AddSchema(defs, s, types) == Some(defs[s.name := RewriteToKnown(s.value, types)])
  {
    var v := RewriteToKnown(s.value, types);
    assert v.fields - {DEFINITIONS} == v.fields;
    assert ForcedNames(v, s, types) == {} && RootLocals(v, s, types) == map[];
    assert defs + map[] == defs;
  }
  /** The bundle of two namespaced schemas and a root schema, none with local definitions. */
  lemma BundleOfThree(a: Schema, b: Schema, c: Schema, types: map<string, string>, x: Value, v: Value, y: Value)
    requires a.namespace == Some(V2) && b.namespace == Some(V2) && c.namespace == None
    requires forall s | s in {a, b, c} :: s.name !in IGNORED && s.value.Object? && DEFINITIONS !in s.value.fields
    requires x == RewriteToNamespace(a.value, V2) && v == RewriteToNamespace(b.value, V2)
    requires y == RewriteToKnown(c.value, types) && a.name != b.name
    ensures Collect([a, b, c], types) == Some(map[V2 := Object(map[a.name := x, b.name := v])][c.name := y])
  {
    assert a in {a, b, c} && b in {a, b, c} && c in {a, b, c};
    var first := map[V2 := Object(map[a.name := x])];
    var second := map[V2 := Object(map[a.name := x, b.name := v])];
    AddFirst(a, types, x);
    CollectStep([], a, types, map[]);
    AddSecond(first, b, types, map[a.name := x], v, second);
    CollectStep([a], b, types, first);
    AddRootWithoutLocals(second, c, types);
    CollectStep([a, b], c, types, second);
    Triple(a, b, c);
  }

  lemma Triple<T>(a: T, b: T, c: T)
    ensures [] + [a] == [a] && [a] + [b] == [a, b] && [a, b] + [c] == [a, b, c]
  {
  }

  lemma AddFirst(s: Schema, types: map<string, string>, v: Value)
    requires s.namespace == Some(V2) && s.name !in IGNORED && s.value.Object? && DEFINITIONS !in s.value.fields
    requires v == RewriteToNamespace(s.value, V2)
    ensures AddSchema(map[], s, types) == Some(map[V2 := Object(map[s.name := v])])
  {
    AddWithoutLocals(map[], s, types);
  }

  lemma AddSecond(defs: Definitions, s: Schema, types: map<string, string>, inner: Definitions, v: Value,
                  after: Definitions)
    requires s.namespace == Some(V2) && s.name !in IGNORED && s.value.Object? && DEFINITIONS !in s.value.fields
    requires defs == map[V2 := Object(inner)] && s.name !in inner && v == RewriteToNamespace(s.value, V2)
    requires after == map[V2 := Object(inner[s.name := v])]
    ensures AddSchema(defs, s, types) == Some(after)
  {
    AddWithoutLocals(defs, s, types);
    assert NamespaceOf(defs) == inner;
    assert defs[V2 := Object(inner[s.name := v])] == after;
  }

  lemma NamespacedReference(m: string)
    requires Plain(m)
    ensures RewriteToNamespace(ReferenceTo(DEFS + m), V2) == ReferenceTo(NamespacePrefix(V2) + m)
  {
    PlainIsNotNamespaced(m);
    assert (DEFS + m)[|DEFS|..] == m;
    assert NamespaceRef(DEFS + m, V2) == NamespacePrefix(V2) + m;
  }

  /**
   Outside the accepted inputs flattening can change what a reference means: here the reference
   to the namespaced request comes to denote the root schema of that name.
   */
  lemma OverriddenReference(schemas: seq<Schema>, defs: Definitions, r: string)
    requires schemas == OverridingSchemas() && defs == OverriddenBundle() && r == NamespacePrefix(V2) + REQUEST
    ensures Collect(schemas, CollectTypes(schemas)) == Some(defs) && Flatten(BundleOf(defs)) == Some(Flat(defs))
    ensures USER in Locals(Flat(defs)) && Origin(defs, USER) == Some(ReferenceTo(r))
    ensures Resolve(BundleOf(defs), r) == Some(OBJECT_TYPE) && Resolve(Flat(defs), FlatRef(r)) == Some(STRING_TYPE)
    ensures !AllAccepted(schemas)
  {
    var a, b, c := schemas[0], schemas[1], schemas[2];
    PlainTypes();
    UnchangedTypes(CollectTypes(schemas));
    NamespacedReference(REQUEST);
    BundleOfThree(a, b, c, CollectTypes(schemas), OBJECT_TYPE, ReferenceTo(r), STRING_TYPE);
    assert schemas == [a, b, c];
    NotSelfContained(b);
    assert b in schemas;
    OverriddenMeaning(defs, REQUEST, USER, OBJECT_TYPE, STRING_TYPE, r);
  }

  lemma UnchangedTypes(types: map<string, string>)
    ensures RewriteToNamespace(OBJECT_TYPE, V2) == OBJECT_TYPE && RewriteToKnown(STRING_TYPE, types) == STRING_TYPE
  {
    PlainTypes();
    MapRefsIdentity(OBJECT_TYPE, r => NamespaceRef(r, V2));
    MapRefsIdentity(STRING_TYPE, r => KnownRef(r, types));
  }

  lemma NotSelfContained(s: Schema)
    requires s.value == ReferenceTo(DEFS + REQUEST)
    ensures !SelfContained(s)
  {
    assert DEFS + REQUEST in Refs(s.value) && Locals(s.value) == map[];
  }

  lemma PlainTypes()
    ensures Refs(OBJECT_TYPE) == {} && Refs(STRING_TYPE) == {}
    ensures Plain(REQUEST) && REQUEST in SHARED && REQUEST != V2 && REQUEST != REF && USER != REF && USER != V2
    ensures USER !in SHARED && USER != REQUEST
  {
  }

  lemma OverriddenIsClosed(defs: Definitions, m: string, u: string, x: Value, y: Value, r: string)
    requires defs == map[V2 := Object(map[m := x, u := ReferenceTo(r)]), m := y]
    requires r == NamespacePrefix(V2) + m && Plain(m) && m != V2 && m != REF && u != REF && u != m
    requires Refs(x) == {} && Refs(y) == {}
    ensures ClosedBundle(defs) && defs[V2].fields == map[m := x, u := ReferenceTo(r)]
  {
    var inner := map[m := x, u := ReferenceTo(r)];
    assert Refs(ReferenceTo(r)) == {r};
    assert r[|NamespacePrefix(V2)|..] == m;
    assert NamespacedTarget(r, inner);
    assert REF !in defs && REF !in inner;
  }

  lemma OverriddenMeaning(defs: Definitions, m: string, u: string, x: Value, y: Value, r: string)
    requires defs == map[V2 := Object(map[m := x, u := ReferenceTo(r)]), m := y]
    requires r == NamespacePrefix(V2) + m && Plain(m) && m != V2 && m != REF && u != REF && u != m && u != V2
    requires Refs(x) == {} && Refs(y) == {} && m in SHARED && u !in SHARED
    ensures ClosedBundle(defs) && Flatten(BundleOf(defs)) == Some(Flat(defs))
    ensures u in Locals(Flat(defs)) && Origin(defs, u) == Some(ReferenceTo(r))
    ensures Resolve(BundleOf(defs), r) == Some(x) && Resolve(Flat(defs), FlatRef(r)) == Some(y)
  {
    OverriddenIsClosed(defs, m, u, x, y, r);
    FlattenSucceeds(defs);
    FlatDefinition(defs, u);
    OverriddenTarget(r, m);
    ResolveNamespaced(BundleOf(defs), V2, m);
    FlatMeaning(defs, u, r);
    MapRefsIdentity(y, r => FlatRef(r));
  }

  lemma OverriddenTarget(r: string, m: string)
    requires r == NamespacePrefix(V2) + m
    ensures r in Refs(ReferenceTo(r)) && NamespacePrefix(V2) <= r && DEFS <= r && TargetName(r) == m
  {
    assert r[|NamespacePrefix(V2)|..] == m;
    PrefixStartsWithDefs(r);
  }
}
