/**
 The bundler as the exporter runs it: loops over the schemas, over the local definitions of a
 schema in some order, and over the names taken over by a namespace.
 */
module SchemaBundler {
  import opened Wrappers
  import opened Json
  import opened SchemaRefs
  import opened SchemaTitles
  import opened SchemaBundle

  function LiftedPart(v: Value, ns: string, names: set<string>): Definitions {
    map n | n in Lifted(v, ns) && n in names :: Lifted(v, ns)[n]
  }

  lemma InsertOneMore(defs: Definitions, ns: string, entries: Definitions, n: string, v: Value)
    requires n !in entries && InsertAll(defs, ns, entries).Some?
    ensures InsertAll(defs, ns, entries[n := v]) == InsertAll(InsertAll(defs, ns, entries).value, ns, map[n := v])
  {
    var current := if ns in defs then defs[ns] else Object(map[]);
    assert n in entries[n := v] && n in map[n := v];
    if entries == map[] {
      assert entries[n := v] == map[n := v];
    } else {
      var d := InsertAll(defs, ns, entries).value;
      assert d[ns] == Object(current.fields + entries);
      assert current.fields + entries[n := v] == (current.fields + entries) + map[n := v];
      assert n in d[ns].fields <==> n in current.fields;
      if n in current.fields && current.fields[n] != v {
        assert InsertAll(defs, ns, entries[n := v]).None?;
      } else {
        assert forall k | k in entries[n := v] :: k == n || (k in entries && entries[n := v][k] == entries[k]);
        var all := current.fields + entries[n := v];
        assert defs[ns := Object(current.fields + entries)][ns := Object(all)] == defs[ns := Object(all)];
      }
    }
  }

  lemma InsertFewer(defs: Definitions, ns: string, fewer: Definitions, entries: Definitions)
    requires InsertAll(defs, ns, entries).Some?
    requires forall n | n in fewer :: n in entries && entries[n] == fewer[n]
    ensures InsertAll(defs, ns, fewer).Some?
  {
  }

  method AddNamespacedSchema(defs: Definitions, s: Schema, ns: string) returns (r: Option<Definitions>)
    ensures r == AddNamespaced(defs, s, ns)
  {
    var v := RewriteToNamespace(s.value, ns);
    var locals := Locals(v);
    var definitions := defs;
    var pending := locals.Keys;
    while pending != {}
      invariant pending <= locals.Keys
      invariant forall n | n in locals.Keys - pending && Keep(n) :: AnnotateOk(locals[n], Some(n))
      invariant InsertAll(defs, ns, LiftedPart(v, ns, locals.Keys - pending)) == Some(definitions)
    {
      var name :| name in pending;
      ghost var before := LiftedPart(v, ns, locals.Keys - pending);
      pending := pending - {name};
      ghost var after := LiftedPart(v, ns, locals.Keys - pending);
      if !Keep(name) {
        assert after == before;
        continue;
      }
      if !AnnotateOk(locals[name], Some(name)) { return None; }
      var definition := RewriteToNamespace(Annotate(locals[name], None, Some(name)), ns);
      assert after == before[name := definition];
      InsertOneMore(defs, ns, before, name, definition);
      var inserted := InsertAll(definitions, ns, map[name := definition]);
      if inserted.None? {
        if InsertAll(defs, ns, Lifted(v, ns)).Some? { InsertFewer(defs, ns, after, Lifted(v, ns)); }
        return None;
      }
      definitions := inserted.value;
    }
    assert LiftedPart(v, ns, locals.Keys - pending) == Lifted(v, ns);
    r := InsertAll(definitions, ns, map[s.name := WithoutDefinitions(v)]);
  }

  function RootPart(v: Value, s: Schema, types: map<string, string>, names: set<string>): Definitions {
    map n | n in RootLocals(v, s, types) && n in names :: RootLocals(v, s, types)[n]
  }

  predicate PartOk(v: Value, names: set<string>) {
    forall n | n in names && n in Locals(v) && Keep(n) :: AnnotateOk(Locals(v)[n], Some(n))
  }

  lemma RootPartStep(v: Value, s: Schema, types: map<string, string>, names: set<string>, n: string)
    requires n in Locals(v)
    ensures PartOk(v, names + {n}) <==> PartOk(v, names) && (Keep(n) ==> AnnotateOk(Locals(v)[n], Some(n)))
    ensures RootPart(v, s, types, names + {n}) ==
            if Keep(n) && TakenOver(n, s, types).None?
            then RootPart(v, s, types, names)[n := Annotate(Locals(v)[n], None, Some(n))]
            else RootPart(v, s, types, names)
  {
  }

  lemma UpdateLast(a: Definitions, b: Definitions, n: string, v: Value)
    ensures (a + b)[n := v] == a + b[n := v]
  {
  }

  lemma RootPartWhole(v: Value, s: Schema, types: map<string, string>)
    ensures RootPart(v, s, types, Locals(v).Keys) == RootLocals(v, s, types)
    ensures RootPart(v, s, types, {}) == map[]
    ensures PartOk(v, Locals(v).Keys) <==> LocalsOk(v)
  {
  }

  /** The names in a list of taken-over definitions. */
  function Names(forced: seq<(string, string)>): seq<string> {
    seq(|forced|, i requires 0 <= i < |forced| => forced[i].0)
  }

  /** The list holds the names of `done` that a namespace takes over, each with that namespace. */
  predicate Listed(forced: seq<(string, string)>, v: Value, s: Schema, types: map<string, string>, done: set<string>) {
    && (set n | n in Names(forced)) == ForcedNames(v, s, types) * done
    && forall f | f in forced :: NamespaceFor(f.0, types) == Some(f.1)
  }

  lemma ListedStep(forced: seq<(string, string)>, v: Value, s: Schema, types: map<string, string>,
                   done: set<string>, n: string)
    requires Listed(forced, v, s, types, done)
    ensures n !in ForcedNames(v, s, types) ==> Listed(forced, v, s, types, done + {n})
    ensures n in ForcedNames(v, s, types) ==>
              Listed(forced + [(n, TakenOver(n, s, types).value)], v, s, types, done + {n})
  {
    if n in ForcedNames(v, s, types) {
      var owner := TakenOver(n, s, types).value;
      assert Names(forced + [(n, owner)]) == Names(forced) + [n];
      assert (set m | m in Names(forced) + [n]) == (set m | m in Names(forced)) + {n};
    }
  }

  /** Lift the local definitions of a root schema, setting aside those a namespace takes over. */
  method LiftRootLocals(defs: Definitions, s: Schema, v: Value, types: map<string, string>)
    returns (definitions: Option<Definitions>, forced: seq<(string, string)>)
    ensures definitions == if LocalsOk(v) then Some(defs + RootLocals(v, s, types)) else None
    ensures definitions.Some? ==> Listed(forced, v, s, types, Locals(v).Keys)
  {
    RootPartWhole(v, s, types);
    var lifted := defs;
    forced := [];
    var pending := Locals(v).Keys;
    ghost var done: set<string> := {};
    while pending != {}
      invariant done + pending == Locals(v).Keys && PartOk(v, done)
      invariant lifted == defs + RootPart(v, s, types, done)
      invariant Listed(forced, v, s, types, done)
    {
      var name :| name in pending;
      assert name in Locals(v);
      ghost var part := RootPart(v, s, types, done);
      RootPartStep(v, s, types, done, name);
      ListedStep(forced, v, s, types, done, name);
      pending, done := pending - {name}, done + {name};
      if !Keep(name) { continue; }
      if !AnnotateOk(Locals(v)[name], Some(name)) { return None, forced; }
      var owner := TakenOver(name, s, types);
      if owner.Some? {
        forced := forced + [(name, owner.value)];
      } else {
        var body := Annotate(Locals(v)[name], None, Some(name));
        UpdateLast(defs, part, name, body);
        lifted := lifted[name := body];
      }
    }
    assert done == Locals(v).Keys;
    definitions := Some(lifted);
  }

  /** Add a root schema, visiting the names that a namespace takes over in some order. */
  method AddRootSchema(defs: Definitions, s: Schema, types: map<string, string>) returns (r: Option<Definitions>)
    ensures exists order :: OrderOf(order, s, types) && r == AddRootIn(defs, s, types, order)
  {
    var v := RewriteToKnown(s.value, types);
    var definitions, forced := LiftRootLocals(defs, s, v, types);
    VisitIsOrder(s, types);
    if definitions.None? { return None; }
    assert ForcedNames(v, s, types) * Locals(v).Keys == ForcedNames(v, s, types);
    assert OrderOf(Names(forced), s, types);
    var body := RewriteListed(WithoutDefinitions(v), forced, types);
    r := Some(definitions.value[s.name := body]);
  }

  /** Rewrite the references to each listed name, in the order of the list. */
  method RewriteListed(v: Value, forced: seq<(string, string)>, types: map<string, string>) returns (body: Value)
    requires forall i | 0 <= i < |forced| :: NamespaceFor(forced[i].0, types) == Some(forced[i].1)
    ensures body == RewriteForced(v, Names(forced), types)
  {
    body := v;
    ghost var order := Names(forced);
    for i := 0 to |forced|
      invariant body == RewriteForced(v, order[..i], types)
    {
      assert order[..i + 1][..i] == order[..i];
      body := RewriteNamed(body, forced[i].1, forced[i].0);
    }
    assert order[..|forced|] == order;
  }

  /**
   The bundle for any schemas, for some orders in which the taken-over names are visited. With one
   namespace the bundle does not depend on them.
   */
  method BuildSchemaBundle(schemas: seq<Schema>) returns (r: Option<Value>)
    ensures exists orders :: OrdersOf(orders, schemas, CollectTypes(schemas)) && r == BundleIn(schemas, orders)
    ensures (forall s | s in schemas :: OneNamespace(s)) ==> r == Bundle(schemas)
  {
    var types := CollectTypes(schemas);
    var definitions: Definitions := map[];
    ghost var orders := [];
    for i := 0 to |schemas|
      invariant OrdersOf(orders, schemas[..i], types)
      invariant CollectIn(schemas[..i], types, orders) == Some(definitions)
    {
      var added := AddOneSchema(definitions, schemas[i], types);
      ghost var order :| OrderOf(order, schemas[i], types)
                         && added == AddSchemaIn(definitions, schemas[i], types, order);
      OneMoreSchema(schemas, orders, i, order, types);
      orders := orders + [order];
      if added.None? {
        AbortedBundle(schemas, orders, i + 1, types);
        return None;
      }
      definitions := added.value;
    }
    assert schemas[..|schemas|] == schemas;
    UsualBundle(schemas, orders);
    r := Some(BundleOf(definitions));
  }

  /** One schema of the loop. */
  method AddOneSchema(defs: Definitions, s: Schema, types: map<string, string>) returns (r: Option<Definitions>)
    ensures exists order :: OrderOf(order, s, types) && r == AddSchemaIn(defs, s, types, order)
  {
    VisitIsOrder(s, types);
    if s.name in IGNORED { return Some(defs); }
    match s.namespace
    case Some(ns) => r := AddNamespacedSchema(defs, s, ns);
    case None => r := AddRootSchema(defs, s, types);
  }

  ghost function AnyOrders(schemas: seq<Schema>, types: map<string, string>): seq<seq<string>> {
    seq(|schemas|, i requires 0 <= i < |schemas| =>
          Visit(ForcedNames(RewriteToKnown(schemas[i].value, types), schemas[i], types)))
  }

  lemma AbortedBundle(schemas: seq<Schema>, orders: seq<seq<string>>, i: nat, types: map<string, string>)
    requires types == CollectTypes(schemas) && i <= |schemas| && OrdersOf(orders, schemas[..i], types)
    requires CollectIn(schemas[..i], types, orders).None?
    ensures var all := orders + AnyOrders(schemas[i..], types);
            && OrdersOf(all, schemas, types) && BundleIn(schemas, all).None?
            && ((forall s | s in schemas :: OneNamespace(s)) ==> Bundle(schemas).None?)
  {
    var rest := AnyOrders(schemas[i..], types);
    var all := orders + rest;
    forall k | i <= k < |schemas| ensures OrderOf(all[k], schemas[k], types) {
      assert all[k] == rest[k - i] && schemas[i..][k - i] == schemas[k];
      VisitIsOrder(schemas[k], types);
    }
    forall k | 0 <= k < i ensures OrderOf(all[k], schemas[k], types) {
      assert all[k] == orders[k] && schemas[..i][k] == schemas[k];
    }
    assert all[..i] == orders;
    AbortIsFinal(schemas, all, i, types);
    UsualBundle(schemas, all);
  }

  lemma OneMoreSchema(schemas: seq<Schema>, orders: seq<seq<string>>, i: nat, order: seq<string>,
                      types: map<string, string>)
    requires i < |schemas| && OrdersOf(orders, schemas[..i], types) && OrderOf(order, schemas[i], types)
    requires CollectIn(schemas[..i], types, orders).Some?
    ensures OrdersOf(orders + [order], schemas[..i + 1], types)
    ensures CollectIn(schemas[..i + 1], types, orders + [order])
         == AddSchemaIn(CollectIn(schemas[..i], types, orders).value, schemas[i], types, order)
  {
    assert schemas[..i + 1][..i] == schemas[..i] && (orders + [order])[..i] == orders;
  }

  lemma UsualBundle(schemas: seq<Schema>, orders: seq<seq<string>>)
    requires OrdersOf(orders, schemas, CollectTypes(schemas))
    ensures (forall s | s in schemas :: OneNamespace(s)) ==> BundleIn(schemas, orders) == Bundle(schemas)
  {
    if forall s | s in schemas :: OneNamespace(s) {
      TypesOwner(schemas);
      CollectAnyOrder(schemas, CollectTypes(schemas), orders);
    }
  }

  lemma {:induction false} AbortIsFinal(schemas: seq<Schema>, orders: seq<seq<string>>, i: nat,
                                        types: map<string, string>)
    requires i <= |schemas| == |orders| && CollectIn(schemas[..i], types, orders[..i]).None?
    ensures CollectIn(schemas, types, orders).None?
    decreases |schemas| - i
  {
    if i < |schemas| {
      AbortGoesOn(schemas, orders, i, types);
      AbortIsFinal(schemas, orders, i + 1, types);
    } else {
      assert schemas[..i] == schemas && orders[..i] == orders;
    }
  }

  lemma AbortGoesOn(schemas: seq<Schema>, orders: seq<seq<string>>, i: nat, types: map<string, string>)
    requires i < |schemas| == |orders| && CollectIn(schemas[..i], types, orders[..i]).None?
    ensures CollectIn(schemas[..i + 1], types, orders[..i + 1]).None?
  {
    assert schemas[..i + 1][..i] == schemas[..i] && orders[..i + 1][..i] == orders[..i];
  }
}
