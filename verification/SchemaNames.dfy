/** Which names a bundle defines at its root and in its namespace, in terms of the schemas alone. */
module SchemaNames {
  import opened Wrappers
  import opened Json
  import opened SchemaRefs
  import opened SchemaTitles
  import opened SchemaBundle
  import opened SchemaMeaning

  predicate HasEntry(v: Value, key: string, n: string) {
    HasObject(v, key) && n in v.fields[key].fields
  }

  /** The name may be lifted: the exporter treats these few apart. */
  predicate Liftable(n: string) {
    && n != "Option<()>" && n != "ClientNotification" && n != "ClientRequest"
    && n != "ServerNotification" && n != "ServerRequest"
  }

  /** A namespaced schema has the name, or has a definition of that name under either key. */
  predicate Claims(t: Schema, n: string) {
    t.namespace.Some? && (n == t.name || HasEntry(t.value, "definitions", n) || HasEntry(t.value, "$defs", n))
  }

  ghost predicate Claimed(schemas: seq<Schema>, n: string) {
    exists t :: t in schemas && Claims(t, n)
  }

  /** `m` is `n` without all the decimal digits at its end. */
  ghost predicate Stem(n: string, m: string) {
    && m <= n && (forall i | |m| <= i < |n| :: '0' <= n[i] <= '9')
    && (m != "" ==> !('0' <= m[|m| - 1] <= '9'))
  }

  /** A namespace owns the name: it is claimed, or its stem is. */
  ghost predicate Owned(schemas: seq<Schema>, n: string) {
    Claimed(schemas, n) || exists m :: Stem(n, m) && m != n && Claimed(schemas, m)
  }

  // ---------------------------------------------------------------- who owns a name

  lemma {:induction false} TrimDigitsIsStem(n: string)
    ensures Stem(n, TrimDigits(n))
    ensures forall m | Stem(n, m) :: m == TrimDigits(n)
  {
    if n != "" && IsDigit(n[|n| - 1]) {
      var init := n[..|n| - 1];
      TrimDigitsIsStem(init);
      forall m | Stem(n, m) ensures m == TrimDigits(n) {
        StemOfInit(n, m);
      }
      assert forall i | |TrimDigits(init)| <= i < |init| :: n[i] == init[i];
    } else {
      forall m | Stem(n, m) ensures m == n { StemEnd(n, m); }
    }
  }

  lemma StemOfInit(n: string, m: string)
    requires Stem(n, m) && n != "" && '0' <= n[|n| - 1] <= '9'
    ensures Stem(n[..|n| - 1], m)
  {
    StemEnd(n, m);
    assert m <= n[..|n| - 1];
  }

  lemma StemEnd(n: string, m: string)
    requires Stem(n, m)
    ensures |m| < |n| ==> '0' <= n[|n| - 1] <= '9'
    ensures |m| >= |n| ==> m == n && (n == "" || !('0' <= n[|n| - 1] <= '9'))
  {
  }

  lemma TypesAreClaimed(schemas: seq<Schema>, n: string)
    requires forall s | s in schemas :: OneNamespace(s)
    ensures n in CollectTypes(schemas) <==> Claimed(schemas, n)
  {
    TypesOwner(schemas);
    forall t | t in schemas ensures Claims(t, n) <==> t.namespace.Some? && n in TypeNames(t) {}
  }

  lemma OwnedMeans(schemas: seq<Schema>, n: string)
    requires forall s | s in schemas :: OneNamespace(s)
    ensures NamespaceFor(n, CollectTypes(schemas)).Some? <==> Owned(schemas, n)
  {
    TrimDigitsIsStem(n);
    TypesAreClaimed(schemas, n);
    TypesAreClaimed(schemas, TrimDigits(n));
  }

  // ---------------------------------------------------------------- the names at the root

  /** The root schema gives the root map the name. */
  ghost predicate GivesRoot(schemas: seq<Schema>, s: Schema, n: string) {
    && s.namespace.None? && s.name != "Option<()>"
    && (n == s.name
        || (HasEntry(s.value, "definitions", n) && Liftable(n) && (s.inV1Dir || !Owned(schemas, n))))
  }

  lemma RootNameMeans(schemas: seq<Schema>, s: Schema, n: string)
    requires forall s | s in schemas :: OneNamespace(s)
    ensures GivesRoot(schemas, s, n) <==> exists p :: p in RootPairs(s, CollectTypes(schemas)) && p.0 == n
  {
    var types := CollectTypes(schemas);
    var v := RewrittenRoot(s, types);
    OwnedMeans(schemas, n);
    LocalNamesKept(s.value, r => KnownRef(r, types));
    if GivesRoot(schemas, s, n) {
      if n == s.name {
        assert (n, WithoutDefinitions(v)) in RootPairs(s, types);
      } else {
        assert (n, RootLocals(v, s, types)[n]) in RootPairs(s, types);
      }
    }
  }

  /**
   The root map defines exactly the names of the root schemas, and those of their definitions that
   no namespace owns or that come from the v1 directory.
   */
  lemma RootNames(schemas: seq<Schema>, defs: Definitions, n: string)
    requires Bundled(schemas, defs) && n != V2
    ensures n in defs <==> exists s :: s in schemas && GivesRoot(schemas, s, n)
  {
    var types := CollectTypes(schemas);
    BundledContents(schemas, defs);
    if n in defs {
      assert n in defs - {V2};
      assert (n, defs[n]) in AllRoot(schemas, types);
      var s :| s in schemas && (n, defs[n]) in RootPairs(s, types);
      RootNameMeans(schemas, s, n);
    }
    if exists s :: s in schemas && GivesRoot(schemas, s, n) {
      var s :| s in schemas && GivesRoot(schemas, s, n);
      RootNameMeans(schemas, s, n);
      var p :| p in RootPairs(s, types) && p.0 == n;
      assert p in AllRoot(schemas, types);
    }
  }

  // ---------------------------------------------------------------- the names in the namespace

  predicate GivesNamespace(s: Schema, n: string) {
    && s.namespace.Some? && s.name != "Option<()>"
    && (n == s.name || (HasEntry(s.value, "definitions", n) && Liftable(n)))
  }

  lemma NamespaceNameMeans(s: Schema, n: string)
    ensures GivesNamespace(s, n) <==> exists p :: p in NamespacedPairs(s) && p.0 == n
  {
    var v := RewriteToNamespace(s.value, V2);
    LocalNamesKept(s.value, r => NamespaceRef(r, V2));
    if GivesNamespace(s, n) {
      if n == s.name {
        assert (n, WithoutDefinitions(v)) in NamespacedPairs(s);
      } else {
        assert (n, Lifted(v, V2)[n]) in NamespacedPairs(s);
      }
    }
  }

  /** The namespace defines exactly the names of the namespaced schemas and of their definitions. */
  lemma NamespaceNames(schemas: seq<Schema>, defs: Definitions, n: string)
    requires Bundled(schemas, defs)
    ensures n in NamespaceOf(defs) <==> exists s :: s in schemas && GivesNamespace(s, n)
  {
    BundledContents(schemas, defs);
    var inner := NamespaceOf(defs);
    if n in inner {
      assert (n, inner[n]) in AllNamespaced(schemas);
      var s :| s in schemas && (n, inner[n]) in NamespacedPairs(s);
      NamespaceNameMeans(s, n);
    }
    if exists s :: s in schemas && GivesNamespace(s, n) {
      var s :| s in schemas && GivesNamespace(s, n);
      NamespaceNameMeans(s, n);
      var p :| p in NamespacedPairs(s) && p.0 == n;
      assert p in AllNamespaced(schemas);
      assert p in Pairs(inner);
    }
  }
}
