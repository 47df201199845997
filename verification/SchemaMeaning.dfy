/** What a reference of a schema denotes once the schema has become part of a bundle. */
module SchemaMeaning {
  import opened Wrappers
  import opened Json
  import opened SchemaRefs
  import opened SchemaTitles
  import opened SchemaBundle

  /** The body that `s` itself gives its local definition `n`, rewritten for the bundle. */
  function OwnBody(s: Schema, types: map<string, string>, n: string): Value
    requires n in Locals(s.value)
  {
    if s.namespace.Some? then
      LocalNamesKept(s.value, r => NamespaceRef(r, V2));
      RewriteToNamespace(Annotate(Locals(RewriteToNamespace(s.value, V2))[n], None, Some(n)), V2)
    else
      LocalNamesKept(s.value, r => KnownRef(r, types));
      Annotate(Locals(RewrittenRoot(s, types))[n], None, Some(n))
  }

  ghost predicate Bundled(schemas: seq<Schema>, defs: Definitions) {
    && (forall s | s in schemas :: OneNamespace(s))
    && Collect(schemas, CollectTypes(schemas)) == Some(defs)
  }

  lemma BundledContents(schemas: seq<Schema>, defs: Definitions)
    requires Bundled(schemas, defs)
    ensures AllV2(CollectTypes(schemas)) && Holds(defs, schemas, CollectTypes(schemas))
    ensures defs - {V2} == RootMap(schemas, CollectTypes(schemas))
  {
    TypesOwner(schemas);
    CollectContents(schemas, CollectTypes(schemas));
  }

  /** The definition of `n` in the namespace of a bundle. */
  function InNamespace(defs: Definitions, n: string): Option<Value> {
    if HasObject(Object(defs), V2) && n in defs[V2].fields then Some(defs[V2].fields[n]) else None
  }

  lemma LocalIsLifted(s: Schema, types: map<string, string>, n: string)
    requires s.namespace.Some? && s.name !in IGNORED && n in Locals(s.value) && Keep(n)
    ensures (n, OwnBody(s, types, n)) in NamespacedPairs(s)
  {
    LocalNamesKept(s.value, r => NamespaceRef(r, V2));
    var lifted := Lifted(RewriteToNamespace(s.value, V2), V2);
    assert n in lifted && lifted[n] == OwnBody(s, types, n);
    assert (n, lifted[n]) in Pairs(lifted);
  }

  lemma ItemInNamespace(defs: Definitions, n: string, body: Value)
    requires (n, body) in NamespaceItems(defs)
    ensures InNamespace(defs, n) == Some(body)
  {
  }

  /** A reference of a namespaced schema to a definition of its own still denotes that definition. */
  lemma NamespacedReferenceMeans(schemas: seq<Schema>, defs: Definitions, s: Schema, n: string)
    requires Bundled(schemas, defs) && s in schemas && s.namespace.Some? && s.name !in IGNORED
    requires n in Locals(s.value) && Keep(n)
    ensures Resolve(BundleOf(defs), NamespaceRef(DEFS + n, V2)) == Some(OwnBody(s, CollectTypes(schemas), n))
  {
    var types := CollectTypes(schemas);
    var body := OwnBody(s, types, n);
    BundledContents(schemas, defs);
    LocalIsLifted(s, types, n);
    assert (n, body) in AllNamespaced(schemas);
    ItemInNamespace(defs, n, body);
    NamespacedTargetIs(defs, n);
  }

  lemma NamespacedTargetIs(defs: Definitions, n: string)
    requires Plain(n) && NamespaceOk(defs)
    ensures NamespaceRef(DEFS + n, V2) == NamespacePrefix(V2) + n
    ensures Resolve(BundleOf(defs), NamespacePrefix(V2) + n) == InNamespace(defs, n)
  {
    assert (DEFS + n)[|DEFS|..] == n;
    PlainIsNotNamespaced(n);
    ResolveNamespaced(BundleOf(defs), V2, n);
  }

  /**
   A reference of a root schema to a definition of its own denotes the namespace's definition of
   that name when a namespace owns it, and otherwise the last root contribution of that name.
   */
  lemma RootReferenceMeans(schemas: seq<Schema>, defs: Definitions, s: Schema, n: string)
    requires Bundled(schemas, defs) && s in schemas && s.namespace.None? && s.name !in IGNORED
    requires n in Locals(s.value) && Keep(n)
    ensures var types := CollectTypes(schemas);
            var target := Resolve(BundleOf(defs), KnownRef(DEFS + n, types));
            if NamespaceFor(n, types).Some?
            then target == InNamespace(defs, n)
            else n in RootMap(schemas, types) && target == Some(RootMap(schemas, types)[n])
  {
    var types := CollectTypes(schemas);
    BundledContents(schemas, defs);
    KnownRefOf(n, types);
    if NamespaceFor(n, types).Some? {
      NamespacedTargetIs(defs, n);
    } else {
      LocalIsContributed(s, types, n);
      InRootMap(schemas, types, s, n);
      RootTargetIs(defs, RootMap(schemas, types), n);
    }
  }

  lemma LocalIsContributed(s: Schema, types: map<string, string>, n: string)
    requires s.namespace.None? && s.name !in IGNORED && n in Locals(s.value) && Keep(n)
    requires NamespaceFor(n, types).None?
    ensures n in RootContribution(s, types)
    ensures n != s.name ==> RootContribution(s, types)[n] == OwnBody(s, types, n)
  {
    LocalNamesKept(s.value, r => KnownRef(r, types));
  }

  lemma RootTargetIs(defs: Definitions, root: Definitions, n: string)
    requires defs - {V2} == root && n in root && Plain(n)
    ensures Resolve(BundleOf(defs), DEFS + n) == Some(root[n])
  {
    assert n in defs - {V2};
    ResolveRoot(BundleOf(defs), n);
  }

  lemma KnownRefOf(n: string, types: map<string, string>)
    requires Plain(n) && AllV2(types)
    ensures KnownRef(DEFS + n, types) == (if NamespaceFor(n, types).Some? then NamespacePrefix(V2) + n else DEFS + n)
  {
    SegmentOf(n, "");
    assert (DEFS + n)[|DEFS|..] == n;
  }

  lemma {:induction false} InRootMap(schemas: seq<Schema>, types: map<string, string>, s: Schema, n: string)
    requires s in schemas && n in RootContribution(s, types)
    ensures n in RootMap(schemas, types)
  {
    var init, last := schemas[..|schemas| - 1], schemas[|schemas| - 1];
    assert schemas == init + [last];
    if s in init { InRootMap(init, types, s, n); }
  }

  /**
   Of the root schemas, the last to define a name decides what it denotes. The reference of `s`
   at position `i` denotes its own definition if no later schema contributes the name.
   */
  lemma LastRootDefinitionWins(schemas: seq<Schema>, defs: Definitions, i: nat, n: string)
    requires Bundled(schemas, defs) && i < |schemas| && schemas[i].namespace.None? && schemas[i].name !in IGNORED
    requires n in Locals(schemas[i].value) && Keep(n) && n != schemas[i].name
    requires NamespaceFor(n, CollectTypes(schemas)).None?
    requires forall j | i < j < |schemas| :: n !in RootContribution(schemas[j], CollectTypes(schemas))
    ensures var types := CollectTypes(schemas);
            Resolve(BundleOf(defs), KnownRef(DEFS + n, types)) == Some(OwnBody(schemas[i], types, n))
  {
    var types, s := CollectTypes(schemas), schemas[i];
    RootReferenceMeans(schemas, defs, s, n);
    LocalIsContributed(s, types, n);
    RootMapLast(schemas, types, i, n);
  }
}
