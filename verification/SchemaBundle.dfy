/**
 The schema bundler: many self-contained schemas become one bundle. Local definitions are
 lifted into a shared map, those of namespaced schemas below the entry of their namespace,
 and every reference is rewritten to follow its definition.

 A bundle is None when the exporter stops: on two different bodies for one name in a
 namespace, on a namespace entry that is not an object, or on a title collision.
 */
module SchemaBundle {
  import opened Wrappers
  import opened Json
  import opened SchemaRefs
  import opened SchemaTitles

  datatype Schema = Schema(namespace: Option<string>, name: string, value: Value, inV1Dir: bool)

  type Definitions = map<string, Value>

  const V2 := "v2"
  const IGNORED := {"Option<()>"}
  const SPECIAL := {"ClientNotification", "ClientRequest", "ServerNotification", "ServerRequest"}

  predicate Keep(name: string) { name !in IGNORED && name !in SPECIAL }

  function RewriteToNamespace(v: Value, ns: string): Value {
    MapRefs(v, r => NamespaceRef(r, ns))
  }

  function RewriteToKnown(v: Value, types: map<string, string>): Value {
    MapRefs(v, r => KnownRef(r, types))
  }

  function RewriteNamed(v: Value, ns: string, name: string): Value {
    MapRefs(v, r => NamedRef(r, ns, name))
  }

  function Locals(v: Value): Definitions {
    if HasObject(v, DEFINITIONS) then v.fields[DEFINITIONS].fields else map[]
  }

  function WithoutDefinitions(v: Value): Value {
    if v.Object? then Object(v.fields - {DEFINITIONS}) else v
  }

  // ---------------------------------------------------------------- one schema at a time

  function KeysUnder(v: Value, key: string): set<string> {
    if HasObject(v, key) then v.fields[key].fields.Keys else {}
  }

  function TypeNames(s: Schema): set<string> {
    {s.name} + KeysUnder(s.value, DEFINITIONS) + KeysUnder(s.value, "$defs")
  }

  /** Which namespace owns each name; the first schema to claim a name wins. */
  function CollectTypes(schemas: seq<Schema>): map<string, string> {
    if schemas == [] then map[]
    else
      var s := schemas[|schemas| - 1];
      var earlier := CollectTypes(schemas[..|schemas| - 1]);
      if s.namespace.None? then earlier else (map n | n in TypeNames(s) :: s.namespace.value) + earlier
  }

  predicate LocalsOk(v: Value) {
    forall n | n in Locals(v) && Keep(n) :: AnnotateOk(Locals(v)[n], Some(n))
  }

  /** The local definitions of a namespaced schema, ready for their namespace. */
  function Lifted(v: Value, ns: string): Definitions {
    map n | n in Locals(v) && Keep(n) :: RewriteToNamespace(Annotate(Locals(v)[n], None, Some(n)), ns)
  }

  /** The namespace that takes over a local definition of a root schema. */
  function TakenOver(n: string, s: Schema, types: map<string, string>): Option<string> {
    if s.inV1Dir then None else NamespaceFor(n, types)
  }

  /** The local definitions a root schema adds to the root map. */
  function RootLocals(v: Value, s: Schema, types: map<string, string>): Definitions {
    map n | n in Locals(v) && Keep(n) && TakenOver(n, s, types).None? :: Annotate(Locals(v)[n], None, Some(n))
  }

  function ForcedNames(v: Value, s: Schema, types: map<string, string>): set<string> {
    set n | n in Locals(v) && Keep(n) && TakenOver(n, s, types).Some?
  }

  /** Some order of a set of names. */
  ghost function Visit(names: set<string>): seq<string> {
    if names == {} then [] else var n :| n in names; [n] + Visit(names - {n})
  }

  /** Rewrite the references to each taken-over name in turn. */
  function RewriteForced(v: Value, names: seq<string>, types: map<string, string>): Value {
    if names == [] then v
    else
      var earlier, last := RewriteForced(v, names[..|names| - 1], types), names[|names| - 1];
      match NamespaceFor(last, types)
      case Some(ns) => RewriteNamed(earlier, ns, last)
      case None => earlier
  }

  /** Insert entries below a namespace; None if some name is taken by a different body. */
  function InsertAll(defs: Definitions, ns: string, entries: Definitions): Option<Definitions> {
    var current := if ns in defs then defs[ns] else Object(map[]);
    if entries == map[] then Some(defs)
    else if !current.Object? then None
    else if exists n | n in entries :: n in current.fields && current.fields[n] != entries[n] then None
    else Some(defs[ns := Object(current.fields + entries)])
  }

  function AddNamespaced(defs: Definitions, s: Schema, ns: string): Option<Definitions> {
    var v := RewriteToNamespace(s.value, ns);
    if !LocalsOk(v) then None
    else
      match InsertAll(defs, ns, Lifted(v, ns))
      case None => None
      case Some(d) => InsertAll(d, ns, map[s.name := WithoutDefinitions(v)])
  }

  /** Add a root schema, visiting the names that a namespace takes over in this order. */
  function AddRootIn(defs: Definitions, s: Schema, types: map<string, string>, order: seq<string>): Option<Definitions>
  {
    var v := RewriteToKnown(s.value, types);
    if !LocalsOk(v) then None
    else
      Some((defs + RootLocals(v, s, types))[s.name := RewriteForced(WithoutDefinitions(v), order, types)])
  }

  function AddSchemaIn(defs: Definitions, s: Schema, types: map<string, string>, order: seq<string>)
    : Option<Definitions>
  {
    if s.name in IGNORED then Some(defs)
    else if s.namespace.Some? then AddNamespaced(defs, s, s.namespace.value)
    else AddRootIn(defs, s, types, order)
  }

  function CollectIn(schemas: seq<Schema>, types: map<string, string>, orders: seq<seq<string>>): Option<Definitions>
    requires |orders| == |schemas|
  {
    if schemas == [] then Some(map[])
    else
      var n := |schemas| - 1;
      match CollectIn(schemas[..n], types, orders[..n])
      case None => None
      case Some(defs) => AddSchemaIn(defs, schemas[n], types, orders[n])
  }

  /** The order lists exactly the names that a namespace takes over from `s`. */
  predicate OrderOf(order: seq<string>, s: Schema, types: map<string, string>) {
    (set n | n in order) == ForcedNames(RewriteToKnown(s.value, types), s, types)
  }

  predicate OrdersOf(orders: seq<seq<string>>, schemas: seq<Schema>, types: map<string, string>) {
    |orders| == |schemas| && forall i | 0 <= i < |schemas| :: OrderOf(orders[i], schemas[i], types)
  }

  ghost function AddSchema(defs: Definitions, s: Schema, types: map<string, string>): Option<Definitions> {
    AddSchemaIn(defs, s, types, Visit(ForcedNames(RewriteToKnown(s.value, types), s, types)))
  }

  ghost function Collect(schemas: seq<Schema>, types: map<string, string>): Option<Definitions> {
    if schemas == [] then Some(map[])
    else
      match Collect(schemas[..|schemas| - 1], types)
      case None => None
      case Some(defs) => AddSchema(defs, schemas[|schemas| - 1], types)
  }

  function BundleOf(defs: Definitions): Value {
    Object(map["$schema" := String("http://json-schema.org/draft-07/schema#"),
               "title" := String("CodexAppServerProtocol"),
               "type" := String("object"),
               DEFINITIONS := Object(defs)])
  }

  function BundleIn(schemas: seq<Schema>, orders: seq<seq<string>>): Option<Value>
    requires |orders| == |schemas|
  {
    match CollectIn(schemas, CollectTypes(schemas), orders)
    case None => None
    case Some(defs) => Some(BundleOf(defs))
  }

  ghost function Bundle(schemas: seq<Schema>): Option<Value> {
    match Collect(schemas, CollectTypes(schemas))
    case None => None
    case Some(defs) => Some(BundleOf(defs))
  }

  // ---------------------------------------------------------------- inputs with one namespace

  /** The only namespace is `v2`; no schema or definition bears that name or the name `$ref`. */
  predicate OneNamespace(s: Schema) {
    && (s.namespace == None || s.namespace == Some(V2))
    && s.name != V2 && s.name != REF
    && forall n | n in Locals(s.value) :: n != V2 && n != REF && Plain(n)
  }

  lemma {:induction false} TypesOwner(schemas: seq<Schema>)
    requires forall s | s in schemas :: OneNamespace(s)
    ensures forall n | n in CollectTypes(schemas) :: CollectTypes(schemas)[n] == V2
    ensures CollectTypes(schemas).Keys == set s, n | s in schemas && s.namespace.Some? && n in TypeNames(s) :: n
  {
    if schemas != [] {
      var init, last := schemas[..|schemas| - 1], schemas[|schemas| - 1];
      assert schemas == init + [last];
      assert OneNamespace(last);
      TypesOwner(init);
    }
  }

  /** After the rewrite to known namespaces, the rewrite of a taken-over name finds nothing. */
  lemma ForcedRefIsFixed(r: string, types: map<string, string>, name: string)
    requires Plain(name) && name != V2 && forall n | n in types :: types[n] == V2
    requires NamespaceFor(name, types) == Some(V2)
    ensures NamedRef(KnownRef(r, types), V2, name) == KnownRef(r, types)
  {
    var q := KnownRef(r, types);
    if DEFS <= q && (DEFS + name + "/" <= q || q == DEFS + name) {
      SegmentAfter(name, q);
      KnownSegment(r, types);
    }
  }

  /** A rewritten reference begins with the namespace, any other with a name no namespace claims. */
  lemma KnownSegment(r: string, types: map<string, string>)
    requires DEFS <= KnownRef(r, types) && forall n | n in types :: types[n] == V2
    ensures var s := Segment(KnownRef(r, types)[|DEFS|..]); s == V2 || NamespaceFor(s, types).None?
  {
    var q := KnownRef(r, types);
    if q != r {
      var suffix := r[|DEFS|..];
      assert q[|DEFS|..] == V2 + "/" + suffix;
      SegmentOf(V2, suffix);
    }
  }

  lemma SegmentAfter(name: string, q: string)
    requires '/' !in name && DEFS <= q && (DEFS + name + "/" <= q || q == DEFS + name)
    ensures Segment(q[|DEFS|..]) == name
  {
    if DEFS + name + "/" <= q {
      var rest := q[|DEFS + name + "/"|..];
      assert q[|DEFS|..] == name + "/" + rest;
      SegmentOf(name, rest);
    } else {
      assert q[|DEFS|..] == name;
      SegmentOf(name, "");
    }
  }

  lemma {:induction false} RewriteForcedIsFixed(v: Value, names: seq<string>, types: map<string, string>)
    requires forall n | n in types :: types[n] == V2
    requires forall n | n in names :: Plain(n) && n != V2
    requires forall q | q in Refs(v) :: exists r :: q == KnownRef(r, types)
    ensures RewriteForced(v, names, types) == v
  {
    if names != [] {
      var n := names[|names| - 1];
      RewriteForcedIsFixed(v, names[..|names| - 1], types);
      if NamespaceFor(n, types).Some? {
        forall q | q in Refs(v) ensures NamedRef(q, V2, n) == q {
          var r :| q == KnownRef(r, types);
          ForcedRefIsFixed(r, types, n);
        }
        MapRefsIdentity(v, r => NamedRef(r, V2, n));
      }
    }
  }

  // ---------------------------------------------------------------- what a bundle contains

  /** No name with two bodies. */
  ghost predicate Functional(pairs: set<(string, Value)>) {
    forall p, q | p in pairs && q in pairs && p.0 == q.0 :: p == q
  }

  function Pairs(m: Definitions): set<(string, Value)> {
    set n | n in m :: (n, m[n])
  }

  function RewrittenRoot(s: Schema, types: map<string, string>): Value {
    RewriteToKnown(s.value, types)
  }

  /** What a schema puts into the namespace: its definitions and itself, with rewritten bodies. */
  function NamespacedPairs(s: Schema): set<(string, Value)> {
    if s.name in IGNORED || s.namespace.None? then {}
    else
      var v := RewriteToNamespace(s.value, V2);
      Pairs(Lifted(v, V2)) + {(s.name, WithoutDefinitions(v))}
  }

  /** What a schema puts into the root map. */
  function RootPairs(s: Schema, types: map<string, string>): set<(string, Value)> {
    if s.name in IGNORED || s.namespace.Some? then {}
    else
      var v := RewrittenRoot(s, types);
      Pairs(RootLocals(v, s, types)) + {(s.name, WithoutDefinitions(v))}
  }

  /** Annotating the local definitions of `s` meets no title collision. */
  predicate TitlesOk(s: Schema, types: map<string, string>) {
    s.name in IGNORED ||
    LocalsOk(if s.namespace.Some? then RewriteToNamespace(s.value, V2) else RewrittenRoot(s, types))
  }

  function AllNamespaced(schemas: seq<Schema>): set<(string, Value)> {
    set s, p | s in schemas && p in NamespacedPairs(s) :: p
  }

  function AllRoot(schemas: seq<Schema>, types: map<string, string>): set<(string, Value)> {
    set s, p | s in schemas && p in RootPairs(s, types) :: p
  }

  /** The namespace of a bundle, empty when there is none. */
  function NamespaceOf(defs: Definitions): Definitions {
    if HasObject(Object(defs), V2) then defs[V2].fields else map[]
  }

  /** The entries of the namespace of a bundle under construction. */
  function NamespaceItems(defs: Definitions): set<(string, Value)> {
    Pairs(NamespaceOf(defs))
  }

  predicate NamespaceOk(defs: Definitions) {
    V2 in defs ==> defs[V2].Object?
  }

  /** Two maps agree where they overlap just when their pairs together are a function: that of their union. */
  lemma PairsOfUnion(a: Definitions, b: Definitions)
    ensures Functional(Pairs(a) + Pairs(b)) <==> forall n | n in a && n in b :: a[n] == b[n]
    ensures Functional(Pairs(a) + Pairs(b)) ==> Pairs(a + b) == Pairs(a) + Pairs(b)
  {
    var pairs := Pairs(a) + Pairs(b);
    if Functional(pairs) {
      forall n | n in a && n in b ensures a[n] == b[n] {
        assert (n, a[n]) in pairs && (n, b[n]) in pairs;
      }
      forall p ensures p in Pairs(a + b) <==> p in pairs {
      }
    }
  }

  lemma InsertAllItems(defs: Definitions, entries: Definitions)
    requires NamespaceOk(defs)
    ensures var pairs := Pairs(entries);
            && (InsertAll(defs, V2, entries).Some? <==> Functional(NamespaceItems(defs) + pairs))
            && (InsertAll(defs, V2, entries).Some? ==>
                  var d := InsertAll(defs, V2, entries).value;
                  NamespaceOk(d) && NamespaceItems(d) == NamespaceItems(defs) + pairs && d - {V2} == defs - {V2})
  {
    var current := if V2 in defs then defs[V2].fields else map[];
    assert NamespaceItems(defs) == Pairs(current);
    PairsOfUnion(current, entries);
    if entries == map[] {
      assert Pairs(entries) == {} && NamespaceItems(defs) + {} == NamespaceItems(defs);
    }
  }

  /** A well-behaved table of types: every owner is the one namespace. */
  predicate AllV2(types: map<string, string>) {
    forall n | n in types :: types[n] == V2
  }

  function InsertBoth(defs: Definitions, first: Definitions, name: string, body: Value): Option<Definitions> {
    match InsertAll(defs, V2, first)
    case None => None
    case Some(d) => InsertAll(d, V2, map[name := body])
  }

  lemma FunctionalPart(some: set<(string, Value)>, all: set<(string, Value)>)
    requires some <= all
    ensures Functional(all) ==> Functional(some)
  {
  }

  lemma InsertBothItems(defs: Definitions, first: Definitions, name: string, body: Value)
    requires NamespaceOk(defs)
    ensures var all := NamespaceItems(defs) + (Pairs(first) + {(name, body)});
            var r := InsertBoth(defs, first, name, body);
            && (r.Some? <==> Functional(all))
            && (r.Some? ==> NamespaceOk(r.value) && r.value - {V2} == defs - {V2} && NamespaceItems(r.value) == all)
  {
    var some, all := NamespaceItems(defs) + Pairs(first), NamespaceItems(defs) + (Pairs(first) + {(name, body)});
    assert some + {(name, body)} == all;
    FunctionalPart(some, all);
    InsertAllItems(defs, first);
    PairsOfOne(name, body);
    var r := InsertAll(defs, V2, first);
    if r.Some? { InsertAllItems(r.value, map[name := body]); }
  }

  lemma PairsOfOne(n: string, v: Value)
    ensures Pairs(map[n := v]) == {(n, v)}
  {
    assert n in map[n := v];
  }

  lemma AddNamespacedContents(defs: Definitions, s: Schema, types: map<string, string>)
    requires OneNamespace(s) && NamespaceOk(defs) && s.name !in IGNORED && s.namespace.Some?
    ensures var r := AddNamespaced(defs, s, V2);
            && (r.Some? <==> TitlesOk(s, types) && Functional(NamespaceItems(defs) + NamespacedPairs(s)))
            && (r.Some? ==> NamespaceOk(r.value) && r.value - {V2} == defs - {V2}
                            && NamespaceItems(r.value) == NamespaceItems(defs) + NamespacedPairs(s))
  {
    var v := RewriteToNamespace(s.value, V2);
    InsertBothItems(defs, Lifted(v, V2), s.name, WithoutDefinitions(v));
    AddNamespacedIs(defs, s, v);
  }

  lemma AddNamespacedIs(defs: Definitions, s: Schema, v: Value)
    requires v == RewriteToNamespace(s.value, V2)
    ensures AddNamespaced(defs, s, V2)
         == if LocalsOk(v) then InsertBoth(defs, Lifted(v, V2), s.name, WithoutDefinitions(v)) else None
  {
  }

  /** The body of a root schema is left alone by the forced rewrites, in whatever order they come. */
  lemma RootBodyIsFixed(s: Schema, types: map<string, string>, order: seq<string>)
    requires OneNamespace(s) && AllV2(types) && OrderOf(order, s, types)
    ensures RewriteForced(WithoutDefinitions(RewrittenRoot(s, types)), order, types)
         == WithoutDefinitions(RewrittenRoot(s, types))
  {
    var v := RewrittenRoot(s, types);
    var body := WithoutDefinitions(v);
    LocalNamesKept(s.value, r => KnownRef(r, types));
    forall q | q in Refs(body) ensures exists r :: q == KnownRef(r, types) {
      WithoutDefinitionsRefs(v);
      var r := RefOrigin(s.value, r => KnownRef(r, types), q);
    }
    forall n | n in order ensures Plain(n) && n != V2 {
      assert n in ForcedNames(v, s, types);
    }
    RewriteForcedIsFixed(body, order, types);
  }

  /** So the order never matters. */
  lemma AddRootAnyOrder(defs: Definitions, s: Schema, types: map<string, string>, order: seq<string>)
    requires OneNamespace(s) && AllV2(types) && OrderOf(order, s, types)
    ensures var v := RewrittenRoot(s, types);
            AddRootIn(defs, s, types, order) ==
            if LocalsOk(v) then Some((defs + RootLocals(v, s, types))[s.name := WithoutDefinitions(v)]) else None
  {
    RootBodyIsFixed(s, types, order);
  }

  lemma VisitIsOrder(s: Schema, types: map<string, string>)
    ensures OrderOf(Visit(ForcedNames(RewriteToKnown(s.value, types), s, types)), s, types)
  {
    VisitElements(ForcedNames(RewriteToKnown(s.value, types), s, types));
  }

  lemma AddRootIs(defs: Definitions, s: Schema, types: map<string, string>)
    requires OneNamespace(s) && AllV2(types) && s.name !in IGNORED && s.namespace.None?
    ensures var v := RewrittenRoot(s, types);
            AddSchema(defs, s, types) ==
            if LocalsOk(v) then Some((defs + RootLocals(v, s, types))[s.name := WithoutDefinitions(v)]) else None
  {
    VisitIsOrder(s, types);
    AddRootAnyOrder(defs, s, types, Visit(ForcedNames(RewriteToKnown(s.value, types), s, types)));
  }

  /** With one namespace, every order of visiting taken-over names yields the same bundle. */
  lemma {:induction false} CollectAnyOrder(schemas: seq<Schema>, types: map<string, string>, orders: seq<seq<string>>)
    requires (forall s | s in schemas :: OneNamespace(s)) && AllV2(types) && OrdersOf(orders, schemas, types)
    ensures CollectIn(schemas, types, orders) == Collect(schemas, types)
    decreases |schemas|
  {
    if schemas != [] {
      var n := |schemas| - 1;
      CollectAnyOrder(schemas[..n], types, orders[..n]);
      if CollectIn(schemas[..n], types, orders[..n]).Some? {
        AddAnyOrder(CollectIn(schemas[..n], types, orders[..n]).value, schemas[n], types, orders[n]);
      }
    }
  }

  lemma AddAnyOrder(defs: Definitions, s: Schema, types: map<string, string>, order: seq<string>)
    requires OneNamespace(s) && AllV2(types) && OrderOf(order, s, types)
    ensures AddSchemaIn(defs, s, types, order) == AddSchema(defs, s, types)
  {
    if s.name !in IGNORED && s.namespace.None? {
      AddRootAnyOrder(defs, s, types, order);
      AddRootIs(defs, s, types);
    }
  }

  lemma LocalNamesKept(v: Value, f: string -> string)
    ensures Locals(MapRefs(v, f)).Keys == Locals(v).Keys
  {
  }

  lemma WithoutDefinitionsRefs(v: Value)
    ensures Refs(WithoutDefinitions(v)) <= Refs(v)
  {
  }

  lemma {:induction false} VisitElements(names: set<string>)
    ensures forall n :: n in Visit(names) <==> n in names
  {
    if names != {} {
      var n := Visit(names)[0];
      assert Visit(names) == [n] + Visit(names - {n});
      VisitElements(names - {n});
    }
  }

  lemma UnionContents(defs: Definitions, locals: Definitions, name: string, body: Value)
    requires V2 !in locals && name != V2
    ensures var d := (defs + locals)[name := body];
            && (V2 in d <==> V2 in defs) && (V2 in defs ==> d[V2] == defs[V2])
            && (forall n | n in d - {V2} ::
                  (n, d[n]) in Pairs(locals) + {(name, body)} || (n in defs && d[n] == defs[n]))
            && (forall n | n in defs :: n in d)
            && (forall p | p in Pairs(locals) + {(name, body)} :: p.0 in d - {V2})
  {
  }

  lemma AddRootContents(defs: Definitions, s: Schema, types: map<string, string>)
    requires OneNamespace(s) && NamespaceOk(defs) && AllV2(types) && s.name !in IGNORED && s.namespace.None?
    ensures var r := AddSchema(defs, s, types);
            && (r.Some? <==> TitlesOk(s, types))
            && (r.Some? ==>
                  && NamespaceOk(r.value) && NamespaceItems(r.value) == NamespaceItems(defs)
                  && (V2 in r.value <==> V2 in defs)
                  && (forall n | n in r.value - {V2} ::
                        (n, r.value[n]) in RootPairs(s, types) || (n in defs && r.value[n] == defs[n]))
                  && (forall n | n in defs :: n in r.value)
                  && (forall p | p in RootPairs(s, types) :: p.0 in r.value - {V2}))
  {
    var v := RewrittenRoot(s, types);
    AddRootIs(defs, s, types);
    LocalNamesKept(s.value, r => KnownRef(r, types));
    if LocalsOk(v) { UnionContents(defs, RootLocals(v, s, types), s.name, WithoutDefinitions(v)); }
  }

  /** What a bundle under construction holds after some schemas. */
  ghost predicate Holds(defs: Definitions, schemas: seq<Schema>, types: map<string, string>) {
    HoldsPairs(defs, AllNamespaced(schemas), AllRoot(schemas, types))
  }

  /** The namespace holds exactly these pairs, the root map for each name one of those. */
  ghost predicate HoldsPairs(defs: Definitions, named: set<(string, Value)>, root: set<(string, Value)>) {
    && NamespaceOk(defs)
    && (V2 in defs <==> named != {})
    && NamespaceItems(defs) == named
    && (forall n | n in defs - {V2} :: (n, defs[n]) in root)
    && (forall p | p in root :: p.0 in defs - {V2})
  }

  lemma AllOf(schemas: seq<Schema>, types: map<string, string>)
    requires schemas != []
    ensures var init, last := schemas[..|schemas| - 1], schemas[|schemas| - 1];
            && AllNamespaced(schemas) == AllNamespaced(init) + NamespacedPairs(last)
            && AllRoot(schemas, types) == AllRoot(init, types) + RootPairs(last, types)
  {
  }

  /** Adding `s` succeeds just when no title and no name conflicts, and then adds its pairs. */
  ghost predicate AddsPairs(defs: Definitions, s: Schema, types: map<string, string>,
                            named: set<(string, Value)>, root: set<(string, Value)>)
  {
    var r := AddSchema(defs, s, types);
    && (r.Some? <==> TitlesOk(s, types) && Functional(named + NamespacedPairs(s)))
    && (r.Some? ==> HoldsPairs(r.value, named + NamespacedPairs(s), root + RootPairs(s, types)))
  }

  lemma NoPairs(defs: Definitions, s: Schema, types: map<string, string>,
                named: set<(string, Value)>, root: set<(string, Value)>)
    requires HoldsPairs(defs, named, root)
    ensures Functional(named)
    ensures s.name in IGNORED || s.namespace.None? ==> named + NamespacedPairs(s) == named
    ensures s.name in IGNORED || s.namespace.Some? ==> root + RootPairs(s, types) == root
  {
  }

  lemma AddNamespacedPairs(defs: Definitions, s: Schema, types: map<string, string>,
                           named: set<(string, Value)>, root: set<(string, Value)>)
    requires OneNamespace(s) && HoldsPairs(defs, named, root) && s.name !in IGNORED && s.namespace.Some?
    ensures AddsPairs(defs, s, types, named, root)
  {
    NoPairs(defs, s, types, named, root);
    AddNamespacedContents(defs, s, types);
    assert (s.name, WithoutDefinitions(RewriteToNamespace(s.value, V2))) in NamespacedPairs(s);
  }

  lemma AddRootPairs(defs: Definitions, s: Schema, types: map<string, string>,
                     named: set<(string, Value)>, root: set<(string, Value)>)
    requires OneNamespace(s) && AllV2(types) && HoldsPairs(defs, named, root)
    requires s.name !in IGNORED && s.namespace.None?
    ensures AddsPairs(defs, s, types, named, root)
  {
    NoPairs(defs, s, types, named, root);
    AddRootContents(defs, s, types);
  }

  lemma AddIgnored(defs: Definitions, s: Schema, types: map<string, string>,
                   named: set<(string, Value)>, root: set<(string, Value)>)
    requires HoldsPairs(defs, named, root) && s.name in IGNORED
    ensures AddsPairs(defs, s, types, named, root)
  {
    NoPairs(defs, s, types, named, root);
  }

  lemma AddSchemaContents(defs: Definitions, schemas: seq<Schema>, s: Schema, types: map<string, string>)
    requires OneNamespace(s) && AllV2(types) && Holds(defs, schemas, types)
    ensures var r := AddSchema(defs, s, types);
            && (r.Some? <==> TitlesOk(s, types) && Functional(AllNamespaced(schemas) + NamespacedPairs(s)))
            && (r.Some? ==> Holds(r.value, schemas + [s], types))
  {
    var named, root := AllNamespaced(schemas), AllRoot(schemas, types);
    if s.name in IGNORED {
      AddIgnored(defs, s, types, named, root);
    } else if s.namespace.Some? {
      AddNamespacedPairs(defs, s, types, named, root);
    } else {
      AddRootPairs(defs, s, types, named, root);
    }
    AllOfNext(schemas, s, types);
  }

  lemma AllOfNext(schemas: seq<Schema>, s: Schema, types: map<string, string>)
    ensures AllNamespaced(schemas + [s]) == AllNamespaced(schemas) + NamespacedPairs(s)
    ensures AllRoot(schemas + [s], types) == AllRoot(schemas, types) + RootPairs(s, types)
  {
    AllOf(schemas + [s], types);
    assert (schemas + [s])[..|schemas|] == schemas;
  }

  /** What one schema puts into the root map; its own body overrides a local definition of its name. */
  function RootContribution(s: Schema, types: map<string, string>): Definitions {
    if s.name in IGNORED || s.namespace.Some? then map[]
    else RootLocals(RewrittenRoot(s, types), s, types)[s.name := WithoutDefinitions(RewrittenRoot(s, types))]
  }

  /** The root map: of several bodies for one name the last one wins. */
  function RootMap(schemas: seq<Schema>, types: map<string, string>): Definitions {
    if schemas == [] then map[]
    else RootMap(schemas[..|schemas| - 1], types) + RootContribution(schemas[|schemas| - 1], types)
  }

  lemma {:induction false} RootMapLast(schemas: seq<Schema>, types: map<string, string>, i: nat, n: string)
    requires i < |schemas| && n in RootContribution(schemas[i], types)
    requires forall j | i < j < |schemas| :: n !in RootContribution(schemas[j], types)
    ensures n in RootMap(schemas, types) && RootMap(schemas, types)[n] == RootContribution(schemas[i], types)[n]
    decreases |schemas|
  {
    if i < |schemas| - 1 { RootMapLast(schemas[..|schemas| - 1], types, i, n); }
  }

  lemma {:induction false} CollectRoot(schemas: seq<Schema>, types: map<string, string>)
    requires (forall s | s in schemas :: OneNamespace(s)) && AllV2(types)
    requires Collect(schemas, types).Some?
    ensures Collect(schemas, types).value - {V2} == RootMap(schemas, types)
  {
    if schemas != [] {
      var init, last := schemas[..|schemas| - 1], schemas[|schemas| - 1];
      CollectRoot(init, types);
      CollectHolds(init, types);
      AddToRoot(Collect(init, types).value, last, types);
    }
  }

  lemma AddToRoot(defs: Definitions, s: Schema, types: map<string, string>)
    requires OneNamespace(s) && AllV2(types) && NamespaceOk(defs) && AddSchema(defs, s, types).Some?
    ensures AddSchema(defs, s, types).value - {V2} == (defs - {V2}) + RootContribution(s, types)
  {
    if s.name !in IGNORED && s.namespace.Some? {
      AddNamespacedContents(defs, s, types);
    } else if s.name !in IGNORED {
      AddRootIs(defs, s, types);
      LocalNamesKept(s.value, r => KnownRef(r, types));
      BesideNamespace(defs, RootLocals(RewrittenRoot(s, types), s, types), s.name,
                      WithoutDefinitions(RewrittenRoot(s, types)));
    }
  }

  lemma BesideNamespace(defs: Definitions, locals: Definitions, name: string, body: Value)
    requires V2 !in locals && name != V2
    ensures (defs + locals)[name := body] - {V2} == (defs - {V2}) + locals[name := body]
  {
  }

  lemma {:induction false} CollectHolds(schemas: seq<Schema>, types: map<string, string>)
    requires (forall s | s in schemas :: OneNamespace(s)) && AllV2(types)
    ensures Collect(schemas, types).Some? <==>
            (forall s | s in schemas :: TitlesOk(s, types)) && Functional(AllNamespaced(schemas))
    ensures Collect(schemas, types).Some? ==> Holds(Collect(schemas, types).value, schemas, types)
  {
    if schemas != [] {
      var init, last := schemas[..|schemas| - 1], schemas[|schemas| - 1];
      assert schemas == init + [last];
      CollectHolds(init, types);
      AllOf(schemas, types);
      assert OneNamespace(last);
      if Collect(init, types).Some? {
        AddSchemaContents(Collect(init, types).value, init, last, types);
      }
      assert forall s :: s in schemas <==> s in init || s == last;
    }
  }

  /**
   Bundling succeeds exactly when no title collides and no name of the namespace has two
   bodies; the namespace then holds every contribution with exactly its rewritten body, and the root map
   the last contribution for each name.
   */
  lemma CollectContents(schemas: seq<Schema>, types: map<string, string>)
    requires (forall s | s in schemas :: OneNamespace(s)) && AllV2(types)
    ensures Collect(schemas, types).Some? <==>
            (forall s | s in schemas :: TitlesOk(s, types)) && Functional(AllNamespaced(schemas))
    ensures Collect(schemas, types).Some? ==>
              var defs := Collect(schemas, types).value;
              Holds(defs, schemas, types) && defs - {V2} == RootMap(schemas, types)
  {
    CollectHolds(schemas, types);
    if Collect(schemas, types).Some? { CollectRoot(schemas, types); }
  }

  // ---------------------------------------------------------------- the order of the schemas

  lemma PairsDetermine(a: Definitions, b: Definitions)
    requires Pairs(a) == Pairs(b)
    ensures a == b
  {
    forall n | n in a ensures n in b && b[n] == a[n] {
      assert (n, a[n]) in Pairs(b);
    }
    forall n | n in b ensures n in a {
      assert (n, b[n]) in Pairs(a);
    }
  }

  lemma RootEntryDetermined(a: Definitions, b: Definitions, schemas: seq<Schema>, types: map<string, string>, n: string)
    requires Holds(a, schemas, types) && Holds(b, schemas, types) && Functional(AllRoot(schemas, types))
    requires n in a && n != V2
    ensures n in b && a[n] == b[n]
  {
    assert n in a - {V2};
    assert (n, a[n]) in AllRoot(schemas, types);
    assert n in b - {V2};
    assert (n, b[n]) in AllRoot(schemas, types);
  }

  lemma NamespaceDetermined(a: Definitions, b: Definitions)
    requires NamespaceOk(a) && NamespaceOk(b) && (V2 in a <==> V2 in b) && NamespaceItems(a) == NamespaceItems(b)
    ensures V2 in a ==> a[V2] == b[V2]
  {
    if V2 in a { PairsDetermine(a[V2].fields, b[V2].fields); }
  }

  lemma HoldsDetermines(a: Definitions, b: Definitions, schemas: seq<Schema>, types: map<string, string>)
    requires Holds(a, schemas, types) && Holds(b, schemas, types) && Functional(AllRoot(schemas, types))
    ensures a == b
  {
    EntriesAgree(a, b, schemas, types);
    EntriesAgree(b, a, schemas, types);
    assert a.Keys == b.Keys;
  }

  lemma EntriesAgree(a: Definitions, b: Definitions, schemas: seq<Schema>, types: map<string, string>)
    requires Holds(a, schemas, types) && Holds(b, schemas, types) && Functional(AllRoot(schemas, types))
    ensures forall n | n in a :: n in b && a[n] == b[n]
  {
    NamespaceDetermined(a, b);
    forall n | n in a && n != V2 ensures n in b && a[n] == b[n] {
      RootEntryDetermined(a, b, schemas, types, n);
    }
  }

  lemma SameMembers(a: seq<Schema>, b: seq<Schema>)
    requires multiset(a) == multiset(b)
    ensures forall s :: s in a <==> s in b
  {
    forall s ensures s in a <==> s in b {
      assert s in a <==> s in multiset(a);
      assert s in b <==> s in multiset(b);
    }
  }

  /**
   Success never depends on the order of the schemas, and when root bodies agree neither does
   the bundle.
   */
  lemma BundleOrderIndependent(a: seq<Schema>, b: seq<Schema>)
    requires (forall s | s in a :: OneNamespace(s)) && multiset(a) == multiset(b)
    ensures Bundle(a).Some? <==> Bundle(b).Some?
    ensures Functional(AllRoot(a, CollectTypes(a))) ==> Bundle(a) == Bundle(b)
  {
    SameMembers(a, b);
    TypesOwner(a);
    TypesOwner(b);
    var types := CollectTypes(a);
    assert types == CollectTypes(b);
    SameContributions(a, b, types);
    CollectContents(a, types);
    CollectContents(b, types);
    if Collect(a, types).Some? && Functional(AllRoot(a, types)) {
      HoldsSame(Collect(b, types).value, a, b, types);
      HoldsDetermines(Collect(a, types).value, Collect(b, types).value, a, types);
    }
  }

  lemma SameContributions(a: seq<Schema>, b: seq<Schema>, types: map<string, string>)
    requires forall s :: s in a <==> s in b
    ensures AllNamespaced(a) == AllNamespaced(b) && AllRoot(a, types) == AllRoot(b, types)
  {
  }

  lemma HoldsSame(defs: Definitions, a: seq<Schema>, b: seq<Schema>, types: map<string, string>)
    requires Holds(defs, b, types)
    requires AllNamespaced(a) == AllNamespaced(b) && AllRoot(a, types) == AllRoot(b, types)
    ensures Holds(defs, a, types)
  {
  }

  // ---------------------------------------------------------------- closure under references

  /** Every definition reference of the schema names one of its own local definitions. */
  predicate SelfContained(s: Schema) {
    forall r | r in Refs(s.value) && DEFS <= r :: r[|DEFS|..] in Locals(s.value)
  }

  /**
   The inputs the exporter is meant for: self-contained schemas of one namespace, whose local
   definitions are all lifted and are never looked up by a name without its numeric suffix.
   */
  predicate Accepted(s: Schema, types: map<string, string>) {
    && OneNamespace(s)
    && SelfContained(s)
    && (forall n | n in Locals(s.value) :: Keep(n))
    && (s.namespace.Some? ==> s.name !in IGNORED && KeysUnder(s.value, "$defs") == {})
    && (s.namespace.None? ==> forall n | n in Locals(s.value) && n !in types :: NamespaceFor(n, types).None?)
  }

  ghost predicate AllAccepted(schemas: seq<Schema>) {
    forall s | s in schemas :: Accepted(s, CollectTypes(schemas))
  }

  predicate NamespacedTarget(r: string, inner: Definitions) {
    && NamespacePrefix(V2) <= r
    && r[|NamespacePrefix(V2)|..] in inner
    && Plain(r[|NamespacePrefix(V2)|..])
  }

  predicate RootTarget(r: string, defs: Definitions, inner: Definitions) {
    && DEFS <= r
    && r[|DEFS|..] in defs
    && r[|DEFS|..] != V2
    && r[|DEFS|..] !in inner
    && Plain(r[|DEFS|..])
  }

  /** Every reference resolves, and none from the namespace `inner` leads out of it. */
  predicate ClosedUnder(defs: Definitions, inner: Definitions) {
    && REF !in defs && REF !in inner
    && (forall n, r | n in inner && r in Refs(inner[n]) && DEFS <= r :: NamespacedTarget(r, inner))
    && (forall n, r | n in defs && n != V2 && r in Refs(defs[n]) && DEFS <= r ::
          NamespacedTarget(r, inner) || RootTarget(r, defs, inner))
  }

  /** A closed bundle with a namespace. */
  predicate ClosedBundle(defs: Definitions) {
    V2 in defs && defs[V2].Object? && ClosedUnder(defs, defs[V2].fields)
  }

  /** An annotated local definition refers to nothing its schema does not refer to. */
  lemma LocalRefs(v: Value, n: string)
    requires n in Locals(v)
    ensures Refs(Annotate(Locals(v)[n], None, Some(n))) <= Refs(v)
  {
    var defs := v.fields[DEFINITIONS];
    AnnotateRefs(defs.fields[n], None, Some(n));
    assert Refs(defs.fields[n]) <= Refs(defs);
  }

  lemma PlainIsNotNamespaced(n: string)
    ensures V2 + "/" <= n ==> '/' in n
  {
    if V2 + "/" <= n { assert n[2] == '/'; }
  }

  /** A definition reference moves below the namespace together with its definition. */
  lemma NamespacedRefShape(s: Schema, q: string)
    requires OneNamespace(s) && SelfContained(s) && q in Refs(s.value)
    ensures var r := NamespaceRef(q, V2);
            && NamespaceRef(r, V2) == r
            && (DEFS <= r ==> NamespacePrefix(V2) <= r && r[|NamespacePrefix(V2)|..] in Locals(s.value))
  {
    NamespaceRefIdempotent(q, V2);
    if DEFS <= q {
      var n := q[|DEFS|..];
      assert Plain(n);
      PlainIsNotNamespaced(n);
      assert NamespaceRef(q, V2) == NamespacePrefix(V2) + n;
    }
  }

  /** References of what a namespaced schema contributes stay inside the namespace. */
  lemma NamespacedPairRefs(s: Schema, types: map<string, string>, p: (string, Value), r: string)
    requires Accepted(s, types) && p in NamespacedPairs(s) && r in Refs(p.1) && DEFS <= r
    ensures NamespacePrefix(V2) <= r && r[|NamespacePrefix(V2)|..] in Locals(s.value)
  {
    var f := r => NamespaceRef(r, V2);
    var v := RewriteToNamespace(s.value, V2);
    if p == (s.name, WithoutDefinitions(v)) {
      WithoutDefinitionsRefs(v);
      var q := RefOrigin(s.value, f, r);
      NamespacedRefShape(s, q);
    } else {
      LocalRefs(v, p.0);
      var r' := RefOrigin(Annotate(Locals(v)[p.0], None, Some(p.0)), f, r);
      var q := RefOrigin(s.value, f, r');
      NamespacedRefShape(s, q);
    }
  }

  lemma RootPairOrigin(s: Schema, types: map<string, string>, p: (string, Value), r: string) returns (q: string)
    requires Accepted(s, types) && p in RootPairs(s, types) && r in Refs(p.1)
    ensures q in Refs(s.value) && r == KnownRef(q, types)
  {
    var f := r => KnownRef(r, types);
    var v := RewrittenRoot(s, types);
    if p == (s.name, WithoutDefinitions(v)) {
      WithoutDefinitionsRefs(v);
    } else {
      LocalRefs(v, p.0);
    }
    q := RefOrigin(s.value, f, r);
  }

  /** References of what a root schema contributes go to the owner of the name, or to a lifted sibling. */
  lemma RootPairRefs(s: Schema, types: map<string, string>, p: (string, Value), r: string)
    requires Accepted(s, types) && AllV2(types) && p in RootPairs(s, types) && r in Refs(p.1) && DEFS <= r
    ensures
      || (NamespacePrefix(V2) <= r && r[|NamespacePrefix(V2)|..] in types && Plain(r[|NamespacePrefix(V2)|..]))
      || (r[|DEFS|..] in Locals(s.value) && NamespaceFor(r[|DEFS|..], types) == None)
  {
    var q := RootPairOrigin(s, types, p, r);
    if DEFS <= q {
      var n := q[|DEFS|..];
      assert n in Locals(s.value) && Plain(n);
      SegmentOf(n, "");
      if NamespaceFor(n, types).Some? {
        assert s.namespace.None?;
        assert n in types;
        assert r == NamespacePrefix(V2) + n;
      } else {
        assert r == q;
      }
    }
  }

  /** A schema puts exactly the names it claims into the namespace. */
  lemma NamesOfSchema(s: Schema, types: map<string, string>, n: string)
    requires Accepted(s, types) && s.namespace.Some?
    ensures n in TypeNames(s) <==> exists p :: p in NamespacedPairs(s) && p.0 == n
  {
    LocalNamesKept(s.value, r => NamespaceRef(r, V2));
    var v := RewriteToNamespace(s.value, V2);
    if n == s.name {
      assert (n, WithoutDefinitions(v)) in NamespacedPairs(s);
    } else if n in TypeNames(s) {
      assert (n, Lifted(v, V2)[n]) in NamespacedPairs(s);
    }
  }

  /** The namespace holds exactly the names that its schemas claim. */
  lemma NamesOfNamespace(schemas: seq<Schema>)
    requires AllAccepted(schemas)
    ensures forall n :: n in CollectTypes(schemas) <==> exists p :: p in AllNamespaced(schemas) && p.0 == n
  {
    TypesOwner(schemas);
    forall n | n in CollectTypes(schemas) ensures exists p :: p in AllNamespaced(schemas) && p.0 == n {
      var s :| s in schemas && s.namespace.Some? && n in TypeNames(s);
      NamesOfSchema(s, CollectTypes(schemas), n);
      var p :| p in NamespacedPairs(s) && p.0 == n;
      assert p in AllNamespaced(schemas);
    }
    forall p | p in AllNamespaced(schemas) ensures p.0 in CollectTypes(schemas) {
      var s :| s in schemas && p in NamespacedPairs(s);
      NamesOfSchema(s, CollectTypes(schemas), p.0);
    }
  }

  lemma NamespaceKeys(defs: Definitions, schemas: seq<Schema>)
    requires AllAccepted(schemas) && Holds(defs, schemas, CollectTypes(schemas))
    ensures NamespaceOf(defs).Keys == CollectTypes(schemas).Keys
  {
    NamesOfNamespace(schemas);
    var inner := NamespaceOf(defs);
    forall n ensures n in inner <==> n in CollectTypes(schemas) {
      if n in inner { assert (n, inner[n]) in AllNamespaced(schemas); }
      if n in CollectTypes(schemas) {
        var p :| p in AllNamespaced(schemas) && p.0 == n;
        assert p in Pairs(inner);
      }
    }
  }

  /**
   A bundle of accepted schemas is closed: every definition reference in it resolves. It has a
   namespace when one of the schemas is namespaced.
   */
  lemma BundleIsClosed(schemas: seq<Schema>)
    requires AllAccepted(schemas) && Collect(schemas, CollectTypes(schemas)).Some?
    ensures var defs := Collect(schemas, CollectTypes(schemas)).value;
            && NamespaceOk(defs) && ClosedUnder(defs, NamespaceOf(defs))
            && ((exists s | s in schemas :: s.namespace.Some?) ==> ClosedBundle(defs))
  {
    var types := CollectTypes(schemas);
    var defs := Collect(schemas, types).value;
    var inner := NamespaceOf(defs);
    TypesOwner(schemas);
    CollectContents(schemas, types);
    NoRefNames(defs, schemas);
    forall n, r | n in inner && r in Refs(inner[n]) && DEFS <= r ensures NamespacedTarget(r, inner) {
      InnerRefResolves(defs, schemas, n, r);
    }
    forall n, r | n in defs && n != V2 && r in Refs(defs[n]) && DEFS <= r
      ensures NamespacedTarget(r, inner) || RootTarget(r, defs, inner)
    {
      RootRefResolves(defs, schemas, n, r);
    }
    if exists s | s in schemas :: s.namespace.Some? { NamespaceInhabited(schemas); }
  }

  lemma NoRefNames(defs: Definitions, schemas: seq<Schema>)
    requires AllAccepted(schemas) && Holds(defs, schemas, CollectTypes(schemas))
    ensures REF !in defs && REF !in NamespaceOf(defs)
  {
    var types, inner := CollectTypes(schemas), NamespaceOf(defs);
    if REF in inner {
      assert (REF, inner[REF]) in AllNamespaced(schemas);
      var s :| s in schemas && (REF, inner[REF]) in NamespacedPairs(s);
      PairsAvoidRef(s, types, inner[REF]);
    }
    if REF in defs {
      assert REF in defs - {V2};
      assert (REF, defs[REF]) in AllRoot(schemas, types);
      var s :| s in schemas && (REF, defs[REF]) in RootPairs(s, types);
      PairsAvoidRef(s, types, defs[REF]);
    }
  }

  lemma PairsAvoidRef(s: Schema, types: map<string, string>, v: Value)
    requires Accepted(s, types)
    ensures (REF, v) !in NamespacedPairs(s) && (REF, v) !in RootPairs(s, types)
  {
    LocalNamesKept(s.value, r => NamespaceRef(r, V2));
    LocalNamesKept(s.value, r => KnownRef(r, types));
  }

  lemma LocalNameIsClaimed(schemas: seq<Schema>, s: Schema, n: string)
    requires AllAccepted(schemas) && s in schemas && s.namespace.Some? && n in Locals(s.value)
    ensures n in CollectTypes(schemas) && Plain(n)
  {
    TypesOwner(schemas);
    assert n in TypeNames(s);
  }

  /** What the namespace holds comes from some namespaced schema. */
  lemma InnerSource(defs: Definitions, schemas: seq<Schema>, n: string) returns (s: Schema)
    requires AllAccepted(schemas) && Holds(defs, schemas, CollectTypes(schemas)) && n in NamespaceOf(defs)
    ensures s in schemas && (n, NamespaceOf(defs)[n]) in NamespacedPairs(s)
  {
    assert (n, NamespaceOf(defs)[n]) in AllNamespaced(schemas);
    s :| s in schemas && (n, NamespaceOf(defs)[n]) in NamespacedPairs(s);
  }

  /** What the root map holds comes from some root schema. */
  lemma RootSource(defs: Definitions, schemas: seq<Schema>, n: string) returns (s: Schema)
    requires AllAccepted(schemas) && Holds(defs, schemas, CollectTypes(schemas)) && n in defs && n != V2
    ensures s in schemas && (n, defs[n]) in RootPairs(s, CollectTypes(schemas))
  {
    assert n in defs - {V2};
    assert (n, defs[n]) in AllRoot(schemas, CollectTypes(schemas));
    s :| s in schemas && (n, defs[n]) in RootPairs(s, CollectTypes(schemas));
  }

  lemma InnerRefResolves(defs: Definitions, schemas: seq<Schema>, n: string, r: string)
    requires AllAccepted(schemas) && Holds(defs, schemas, CollectTypes(schemas))
    requires n in NamespaceOf(defs) && r in Refs(NamespaceOf(defs)[n]) && DEFS <= r
    ensures NamespacedTarget(r, NamespaceOf(defs))
  {
    NamespaceKeys(defs, schemas);
    var s := InnerSource(defs, schemas, n);
    NamespacedPairRefs(s, CollectTypes(schemas), (n, NamespaceOf(defs)[n]), r);
    LocalNameIsClaimed(schemas, s, r[|NamespacePrefix(V2)|..]);
  }

  lemma RootRefResolves(defs: Definitions, schemas: seq<Schema>, n: string, r: string)
    requires AllAccepted(schemas) && Holds(defs, schemas, CollectTypes(schemas))
    requires n in defs && n != V2 && r in Refs(defs[n]) && DEFS <= r
    ensures NamespacedTarget(r, NamespaceOf(defs)) || RootTarget(r, defs, NamespaceOf(defs))
  {
    var types := CollectTypes(schemas);
    TypesOwner(schemas);
    NamespaceKeys(defs, schemas);
    var s := RootSource(defs, schemas, n);
    RootPairRefs(s, types, (n, defs[n]), r);
    if r[|DEFS|..] in Locals(s.value) && NamespaceFor(r[|DEFS|..], types) == None {
      SiblingIsLifted(defs, schemas, s, r[|DEFS|..]);
    }
  }

  lemma NamespaceInhabited(schemas: seq<Schema>)
    requires AllAccepted(schemas) && exists s | s in schemas :: s.namespace.Some?
    ensures AllNamespaced(schemas) != {}
  {
    var s :| s in schemas && s.namespace.Some?;
    assert (s.name, WithoutDefinitions(RewriteToNamespace(s.value, V2))) in NamespacedPairs(s);
    assert (s.name, WithoutDefinitions(RewriteToNamespace(s.value, V2))) in AllNamespaced(schemas);
  }

  lemma SiblingIsLifted(defs: Definitions, schemas: seq<Schema>, s: Schema, n: string)
    requires AllAccepted(schemas) && Holds(defs, schemas, CollectTypes(schemas)) && s in schemas
    requires s.namespace.None? && s.name !in IGNORED
    requires n in Locals(s.value) && NamespaceFor(n, CollectTypes(schemas)) == None
    ensures n in defs - {V2}
  {
    var types := CollectTypes(schemas);
    var v := RewrittenRoot(s, types);
    LocalNamesKept(s.value, r => KnownRef(r, types));
    assert n in RootLocals(v, s, types);
    var p := (n, RootLocals(v, s, types)[n]);
    assert p in RootPairs(s, types);
    assert p in AllRoot(schemas, types);
  }
}
