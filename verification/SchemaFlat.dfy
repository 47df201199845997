/**
 The flat bundle: the definitions of the `v2` namespace move to the root, joined by the shared
 root schemas and everything at the root that these still need.
 */
module SchemaFlat {
  import opened Wrappers
  import opened Json
  import opened SchemaRefs
  import opened SchemaBundle
  import opened Graph

  const SHARED := {"ClientRequest", "ServerNotification"}

  /** The names behind the root definition references of a value. */
  function NonV2Names(v: Value): set<string> {
    set r | r in Refs(v) && DEFS <= r && !(NamespacePrefix(V2) <= r) :: r[|DEFS|..]
  }

  function DependencyGraph(defs: Definitions): Edges {
    map n | n in defs :: NonV2Names(defs[n])
  }

  function SharedNames(defs: Definitions): set<string> {
    set s, n | s in SHARED && s in defs && n in NonV2Names(defs[s]) :: n
  }

  /** The worklist over root definitions; names without a definition are kept but not followed. */
  method CollectDefinitionDependencies(defs: Definitions, names: set<string>) returns (seen: set<string>)
    ensures seen == Reachable(DependencyGraph(defs), names)
  {
    ghost var g := DependencyGraph(defs);
    seen := {};
    var toProcess := SomeOrder(names);
    WorklistStarts(g, names);
    while toProcess != []
      invariant Worklist(g, names, seen, Elements(toProcess))
      decreases Reachable(g, names) - seen, |toProcess|
    {
      ElementsOfLast(toProcess);
      var name := toProcess[|toProcess| - 1];
      toProcess := toProcess[..|toProcess| - 1];
      if name in seen {
        assert seen + Elements(toProcess) == seen + (Elements(toProcess) + {name});
        continue;
      }
      var next: seq<string> := [];
      if name in defs {
        next := SomeOrder(NonV2Names(defs[name]) - (seen + {name}));
      }
      WorklistStep(g, names, seen, Elements(toProcess), name, Elements(next));
      ElementsOfConcat(toProcess, next);
      seen, toProcess := seen + {name}, toProcess + next;
    }
    WorklistEnds(g, names, seen);
  }

  /** A hash set handed over element by element, in an order nothing depends on. */
  method SomeOrder(names: set<string>) returns (order: seq<string>)
    ensures Elements(order) == names
  {
    order := [];
    var rest := names;
    while rest != {}
      invariant rest <= names && Elements(order) == names - rest
    {
      var n :| n in rest;
      ElementsOfConcat(order, [n]);
      order := order + [n];
      rest := rest - {n};
    }
  }

  function FlatRef(r: string): string {
    ReplaceAll(r, NamespacePrefix(V2), DEFS)
  }

  function RewritePrefix(v: Value): Value {
    MapRefs(v, r => FlatRef(r))
  }

  /** The flat definitions before their references are rewritten. */
  function Gathered(defs: Definitions, dependencies: set<string>): Definitions
    requires HasObject(Object(defs), V2)
  {
    defs[V2].fields + PulledIn(defs, defs[V2].fields, dependencies) + SharedDefinitions(defs)
  }

  ghost function Dependencies(defs: Definitions): set<string> {
    Reachable(DependencyGraph(defs), SharedNames(defs))
  }

  function FlatRoot(bundle: Value, definitions: Definitions): Value
    requires bundle.Object?
  {
    var title := if HasString(bundle, "title") then bundle.fields["title"].text else "CodexAppServerProtocol";
    RewritePrefix(Object(bundle.fields["title" := String(title + "V2")][DEFINITIONS := Object(definitions)]))
  }

  predicate RefersToNamespace(v: Value) {
    exists r | r in Refs(v) :: NamespacePrefix(V2) <= r
  }

  /** Some definition reference of the document names, by its first token, no definition. */
  predicate MissesDefinition(v: Value) {
    exists r | r in Refs(v) && DEFS <= r :: Segment(r[|DEFS|..]) !in Locals(v)
  }

  ghost function Flatten(bundle: Value): Option<Value> {
    if !HasObject(bundle, DEFINITIONS) || !HasObject(bundle.fields[DEFINITIONS], V2) then None
    else
      var defs := bundle.fields[DEFINITIONS].fields;
      var flat := FlatRoot(bundle, Gathered(defs, Dependencies(defs)));
      if RefersToNamespace(flat) || MissesDefinition(flat) then None else Some(flat)
  }

  /** No reference leads into the namespace, and every definition reference has a definition to go to. */
  ghost predicate InOrder(v: Value) {
    forall path, r | RefAt(v, path, r) ::
      && !("#/definitions/v2/" <= r)
      && ("#/definitions/" <= r ==>
            HasObject(v, "definitions") && Segment(r[14..]) in v.fields["definitions"].fields)
  }

  /** Flattening gives up exactly when there is no namespace or its result is not in order. */
  lemma FlattenChecks(bundle: Value)
    ensures Flatten(bundle).Some? ==> InOrder(Flatten(bundle).value)
    ensures Flatten(bundle).Some? <==>
            && HasObject(bundle, "definitions") && HasObject(bundle.fields["definitions"], "v2")
            && var defs := bundle.fields["definitions"].fields;
               InOrder(FlatRoot(bundle, Gathered(defs, Dependencies(defs))))
  {
    if HasObject(bundle, DEFINITIONS) && HasObject(bundle.fields[DEFINITIONS], V2) {
      var defs := bundle.fields[DEFINITIONS].fields;
      OrderMeans(FlatRoot(bundle, Gathered(defs, Dependencies(defs))));
    }
  }

  /** The flat document says in its title what it is; its other members stay as they were. */
  lemma FlatHead(bundle: Value, flat: Value, key: string)
    requires Flatten(bundle) == Some(flat)
    ensures flat.Object? && flat.fields.Keys == bundle.fields.Keys + {"title"}
    ensures HasString(flat, "title") && flat.fields["title"].text ==
              (if HasString(bundle, "title") then bundle.fields["title"].text else "CodexAppServerProtocol") + "V2"
    ensures key in bundle.fields && key !in {"title", "definitions", "$ref"} ==>
              flat.fields[key] == RewritePrefix(bundle.fields[key])
  {
    var defs := bundle.fields[DEFINITIONS].fields;
    var title := if HasString(bundle, "title") then bundle.fields["title"].text else "CodexAppServerProtocol";
    var m := bundle.fields["title" := String(title + "V2")][DEFINITIONS := Object(Gathered(defs, Dependencies(defs)))];
    assert "title"[0] == 't' && REF[0] == '$' && DEFINITIONS[0] == 'd';
    assert flat == RewritePrefix(Object(m));
    StringStays(m, "title", title + "V2");
  }

  lemma StringStays(m: Definitions, key: string, text: string)
    requires key in m && m[key] == String(text) && key != REF
    ensures key in RewritePrefix(Object(m)).fields && RewritePrefix(Object(m)).fields[key] == String(text)
  {
    MemberRewritten(m, r => FlatRef(r), key);
    assert MapRefs(String(text), r => FlatRef(r)) == String(text);
  }

  lemma MemberRewritten(m: Definitions, f: string -> string, key: string)
    requires key in m && key != REF
    ensures key in MapRefs(Object(m), f).fields && MapRefs(Object(m), f).fields[key] == MapRefs(m[key], f)
  {
  }

  lemma OrderMeans(v: Value)
    ensures InOrder(v) <==> !RefersToNamespace(v) && !MissesDefinition(v)
  {
    assert NamespacePrefix(V2) == "#/definitions/v2/" && |DEFS| == 14;
    forall r ensures r in Refs(v) <==> exists path :: RefAt(v, path, r) { RefsMean(v, r); }
    if InOrder(v) {
      forall r | r in Refs(v) ensures !(NamespacePrefix(V2) <= r) && (DEFS <= r ==> Segment(r[|DEFS|..]) in Locals(v)) {
        var path :| RefAt(v, path, r);
      }
    }
    forall path, r | RefAt(v, path, r) ensures r in Refs(v) {}
  }

  function SharedDefinitions(defs: Definitions): Definitions {
    map n | n in SHARED && n in defs :: defs[n]
  }

  /** The root definitions that join those of the namespace. */
  function PulledIn(defs: Definitions, inner: Definitions, dependencies: set<string>): Definitions {
    map n | n in dependencies && n in defs && n != V2 && n !in inner :: defs[n]
  }

  method CollectShared(defs: Definitions) returns (shared: Definitions, nonV2: set<string>)
    ensures shared == SharedDefinitions(defs) && nonV2 == SharedNames(defs)
  {
    shared, nonV2 := map[], {};
    var names := SHARED;
    while names != {}
      invariant names <= SHARED
      invariant shared == map n | n in SHARED - names && n in defs :: defs[n]
      invariant nonV2 == set s, n | s in SHARED - names && s in defs && n in NonV2Names(defs[s]) :: n
    {
      var name :| name in names;
      names := names - {name};
      if name in defs {
        nonV2 := nonV2 + NonV2Names(defs[name]);
        shared := shared[name := defs[name]];
      }
    }
  }

  method PullIn(defs: Definitions, inner: Definitions, dependencies: set<string>) returns (flat: Definitions)
    ensures flat == inner + PulledIn(defs, inner, dependencies)
  {
    flat := inner;
    var pending := dependencies;
    while pending != {}
      invariant pending <= dependencies
      invariant flat == inner + PulledIn(defs, inner, dependencies - pending)
    {
      var name :| name in pending;
      assert dependencies - (pending - {name}) == (dependencies - pending) + {name};
      pending := pending - {name};
      if name != V2 && name !in flat && name in defs {
        flat := flat[name := defs[name]];
      }
    }
    assert dependencies - pending == dependencies;
  }

  method BuildFlatV2Schema(bundle: Value) returns (r: Option<Value>)
    ensures r == Flatten(bundle)
  {
    if !HasObject(bundle, DEFINITIONS) || !HasObject(bundle.fields[DEFINITIONS], V2) { return None; }
    var defs := bundle.fields[DEFINITIONS].fields;
    var shared, nonV2 := CollectShared(defs);
    var dependencies := CollectDefinitionDependencies(defs, nonV2);
    var flatDefinitions := PullIn(defs, defs[V2].fields, dependencies);
    var flat := FlatRoot(bundle, flatDefinitions + shared);
    if RefersToNamespace(flat) || MissesDefinition(flat) { return None; }
    return Some(flat);
  }

  // ---------------------------------------------------------------- flattening preserves meaning

  lemma PrefixSlashes(s: string)
    ensures NamespacePrefix(V2) <= s ==> s[1] == '/' && s[16] == '/'
  {
  }

  lemma FlatRefNamespaced(n: string)
    requires Plain(n)
    ensures FlatRef(NamespacePrefix(V2) + n) == DEFS + n
  {
    var p := NamespacePrefix(V2);
    assert (p + n)[|p|..] == n;
    forall i | 0 <= i < |n| ensures !(p <= n[i..]) { PrefixSlashes(n[i..]); }
    ReplaceAllAbsent(n, p, DEFS);
  }

  lemma FlatRefRoot(n: string)
    requires Plain(n)
    ensures FlatRef(DEFS + n) == DEFS + n
  {
    var p, r := NamespacePrefix(V2), DEFS + n;
    forall i | 0 <= i <= |r| - |p| ensures !(p <= r[i..]) {
      // a match would put the '/' that ends "v2/" inside `n`
      PrefixSlashes(r[i..]);
      assert r[i + 16] == n[i + 2];
    }
    ReplaceAllAbsent(r, p, DEFS);
  }

  /** The bundle definition a flat definition comes from: a shared root schema overrides a namespaced one. */
  function Origin(defs: Definitions, n: string): Option<Value>
    requires HasObject(Object(defs), V2)
  {
    if FromRoot(defs, n) then Some(defs[n])
    else if n in defs[V2].fields then Some(defs[V2].fields[n]) else None
  }

  predicate FromRoot(defs: Definitions, n: string)
    requires HasObject(Object(defs), V2)
  {
    n in defs && (n in SHARED || n !in defs[V2].fields)
  }

  lemma GatheredOrigin(defs: Definitions, n: string)
    requires ClosedBundle(defs) && n in Gathered(defs, Dependencies(defs))
    ensures Origin(defs, n) == Some(Gathered(defs, Dependencies(defs))[n])
    ensures FromRoot(defs, n) ==> n != V2 && (n in SHARED || n in Dependencies(defs))
    ensures !FromRoot(defs, n) ==> n in defs[V2].fields
  {
    SharedIsNotV2();
  }

  lemma SharedIsNotV2()
    ensures V2 !in SHARED
  {
  }

  /** Root references of gathered definitions were followed by the dependency worklist. */
  lemma RootTargetGathered(defs: Definitions, n: string, r: string)
    requires ClosedBundle(defs) && n in Gathered(defs, Dependencies(defs)) && FromRoot(defs, n)
    requires r in Refs(Gathered(defs, Dependencies(defs))[n]) && RootTarget(r, defs, defs[V2].fields)
    ensures r[|DEFS|..] in Gathered(defs, Dependencies(defs))
  {
    var m, g := r[|DEFS|..], DependencyGraph(defs);
    GatheredOrigin(defs, n);
    ReachableIsLeast(g, SharedNames(defs));
    RootTargetIsNotNamespaced(r, defs);
    assert m in NonV2Names(defs[n]);
    if n in SHARED {
      assert m in SharedNames(defs);
    } else {
      assert m in g[n];
    }
  }

  lemma RootTargetIsNotNamespaced(r: string, defs: Definitions)
    requires HasObject(Object(defs), V2) && RootTarget(r, defs, defs[V2].fields)
    ensures !(NamespacePrefix(V2) <= r)
  {
    PrefixSlashes(r);
    assert |r| > 16 ==> r[16] == r[|DEFS|..][2];
  }

  /** The name a definition reference ends in. */
  function TargetName(r: string): string
    requires DEFS <= r
  {
    if NamespacePrefix(V2) <= r then r[|NamespacePrefix(V2)|..] else r[|DEFS|..]
  }

  /** A namespaced reference whose target a shared root schema overrides. */
  predicate Overridden(defs: Definitions, r: string) {
    NamespacePrefix(V2) <= r && r[|NamespacePrefix(V2)|..] in SHARED && r[|NamespacePrefix(V2)|..] in defs
  }

  lemma NamespacedTargetFlat(defs: Definitions, r: string)
    requires ClosedBundle(defs) && NamespacedTarget(r, defs[V2].fields)
    ensures var m := TargetName(r);
            Plain(m) && m in Gathered(defs, Dependencies(defs)) && FlatRef(r) == DEFS + m
            && Resolve(BundleOf(defs), r) == Some(defs[V2].fields[m])
            && Origin(defs, m) == Some(if Overridden(defs, r) then defs[m] else defs[V2].fields[m])
  {
    var m := TargetName(r);
    assert r == NamespacePrefix(V2) + m;
    FlatRefNamespaced(m);
    ResolveNamespaced(BundleOf(defs), V2, m);
  }

  lemma RootTargetFlat(defs: Definitions, n: string, r: string)
    requires ClosedBundle(defs) && n in Gathered(defs, Dependencies(defs)) && FromRoot(defs, n)
    requires r in Refs(Gathered(defs, Dependencies(defs))[n]) && RootTarget(r, defs, defs[V2].fields)
    ensures var m := TargetName(r);
            Plain(m) && m in Gathered(defs, Dependencies(defs)) && FlatRef(r) == DEFS + m && !Overridden(defs, r)
            && m in defs && Resolve(BundleOf(defs), r) == Some(defs[m]) && Origin(defs, m) == Some(defs[m])
  {
    RootTargetGathered(defs, n, r);
    RootTargetItself(defs, r);
  }

  lemma RootTargetItself(defs: Definitions, r: string)
    requires ClosedBundle(defs) && RootTarget(r, defs, defs[V2].fields)
    ensures var m := TargetName(r);
            m == r[|DEFS|..] && Plain(m) && m in defs && FlatRef(r) == DEFS + m && !Overridden(defs, r)
            && Resolve(BundleOf(defs), r) == Some(defs[m]) && Origin(defs, m) == Some(defs[m])
  {
    RootTargetIsNotNamespaced(r, defs);
    var m := r[|DEFS|..];
    assert r == DEFS + m;
    FlatRefRoot(m);
    ResolveRoot(BundleOf(defs), m);
  }

  /** A reference of a gathered definition, and where it leads before and after flattening. */
  lemma TargetFlat(defs: Definitions, n: string, r: string)
    requires ClosedBundle(defs) && n in Gathered(defs, Dependencies(defs))
    requires r in Refs(Gathered(defs, Dependencies(defs))[n]) && DEFS <= r
    ensures var m := TargetName(r);
            Plain(m) && m in Gathered(defs, Dependencies(defs)) && FlatRef(r) == DEFS + m
            && Resolve(BundleOf(defs), r).Some?
            && Origin(defs, m) == (if Overridden(defs, r) then Some(defs[m]) else Resolve(BundleOf(defs), r))
  {
    GatheredOrigin(defs, n);
    if NamespacedTarget(r, defs[V2].fields) {
      NamespacedTargetFlat(defs, r);
    } else {
      RootTargetFlat(defs, n, r);
    }
  }

  lemma PrefixStartsWithDefs(s: string)
    ensures NamespacePrefix(V2) <= s ==> DEFS <= s
  {
  }

  lemma FlatRefHead(s: string)
    ensures NamespacePrefix(V2) <= s ==> DEFS <= FlatRef(s) && FlatRef(s)[0] == '#'
  {
  }

  lemma {:induction false} FlatRefKeepsStart(s: string, d: string)
    requires '#' !in d && d <= FlatRef(s)
    ensures d <= s
  {
    FlatRefHead(s);
    assert d != "" ==> d[0] in d;
    if d != "" && !(NamespacePrefix(V2) <= s) {
      assert FlatRef(s) == [s[0]] + FlatRef(s[1..]);
      assert d == [s[0]] + d[1..] && FlatRef(s)[1..] == FlatRef(s[1..]);
      FlatRefKeepsStart(s[1..], d[1..]);
    }
  }

  /** The prefix rewrite turns no other reference into a definition reference. */
  lemma FlatRefStart(s: string)
    ensures DEFS <= FlatRef(s) ==> DEFS <= s
  {
    PrefixStartsWithDefs(s);
    if DEFS <= FlatRef(s) && !(NamespacePrefix(V2) <= s) {
      assert FlatRef(s) == [s[0]] + FlatRef(s[1..]);
      assert DEFS == [s[0]] + DEFS[1..] && FlatRef(s)[1..] == FlatRef(s[1..]);
      FlatRefKeepsStart(s[1..], DEFS[1..]);
    }
  }

  /** In a document whose other members are strings, all references sit in the definitions. */
  lemma DocumentRefs(m: Definitions, definitions: Definitions, r: string)
    requires DEFINITIONS in m && m[DEFINITIONS] == Object(definitions) && REF !in m && REF !in definitions
    requires forall k | k in m && k != DEFINITIONS :: m[k].String?
    requires r in Refs(Object(m))
    ensures exists n | n in definitions :: r in Refs(definitions[n])
  {
  }

  ghost function FlatDocument(defs: Definitions): Definitions
    requires HasObject(Object(defs), V2)
  {
    var b := BundleOf(defs).fields;
    b["title" := String(b["title"].text + "V2")][DEFINITIONS := Object(Gathered(defs, Dependencies(defs)))]
  }

  lemma FlatRootOfBundle(defs: Definitions)
    requires HasObject(Object(defs), V2)
    ensures FlatRoot(BundleOf(defs), Gathered(defs, Dependencies(defs))) == RewritePrefix(Object(FlatDocument(defs)))
    ensures var m := FlatDocument(defs); REF !in m && forall k | k in m && k != DEFINITIONS :: m[k].String?
  {
  }

  lemma NoRefGathered(defs: Definitions)
    requires ClosedBundle(defs)
    ensures REF !in Gathered(defs, Dependencies(defs))
  {
  }

  ghost function Flat(defs: Definitions): Value
    requires HasObject(Object(defs), V2)
  {
    FlatRoot(BundleOf(defs), Gathered(defs, Dependencies(defs)))
  }

  lemma FlatRefSource(defs: Definitions, q: string) returns (n: string, r: string)
    requires ClosedBundle(defs) && q in Refs(Flat(defs))
    ensures n in Gathered(defs, Dependencies(defs)) && r in Refs(Gathered(defs, Dependencies(defs))[n])
    ensures q == FlatRef(r)
  {
    var gathered := Gathered(defs, Dependencies(defs));
    FlatRootOfBundle(defs);
    NoRefGathered(defs);
    r := RefOrigin(Object(FlatDocument(defs)), r => FlatRef(r), q);
    DocumentRefs(FlatDocument(defs), gathered, r);
    n :| n in gathered && r in Refs(gathered[n]);
  }

  lemma AfterDefs(m: string)
    ensures (DEFS + m)[|DEFS|..] == m
  {
  }

  /** The definition references of the flat document all go to flat definitions. */
  lemma FlatRootRefs(defs: Definitions, q: string)
    requires ClosedBundle(defs) && q in Refs(Flat(defs)) && DEFS <= q
    ensures Plain(q[|DEFS|..]) && q[|DEFS|..] in Gathered(defs, Dependencies(defs))
  {
    var n, r := FlatRefSource(defs, q);
    FlatRefStart(r);
    TargetFlat(defs, n, r);
    AfterDefs(TargetName(r));
  }

  lemma FlatLocals(defs: Definitions, n: string)
    requires ClosedBundle(defs)
    ensures var flat := Flat(defs);
            && HasObject(flat, DEFINITIONS)
            && Locals(flat).Keys == Gathered(defs, Dependencies(defs)).Keys
            && (n in Locals(flat) ==> Locals(flat)[n] == RewritePrefix(Gathered(defs, Dependencies(defs))[n]))
  {
    FlatRootOfBundle(defs);
    NoRefGathered(defs);
    LocalNamesKept(Object(FlatDocument(defs)), r => FlatRef(r));
  }

  /** Neither check of the flattener fails on a closed bundle. */
  lemma FlattenSucceeds(defs: Definitions)
    requires ClosedBundle(defs)
    ensures Flatten(BundleOf(defs)) == Some(Flat(defs))
  {
    var flat := Flat(defs);
    FlatLocals(defs, "");
    forall q | q in Refs(flat)
      ensures !(NamespacePrefix(V2) <= q) && (DEFS <= q ==> Segment(q[|DEFS|..]) in Locals(flat))
    {
      if DEFS <= q {
        FlatRootRefs(defs, q);
        var m := q[|DEFS|..];
        SegmentOf(m, "");
        PrefixSlashes(q);
        assert |q| > 16 ==> q[16] == m[2];
      } else {
        PrefixStartsWithDefs(q);
      }
    }
  }

  /** The dependency worklist follows root definitions only: it never meets a name of the namespace. */
  lemma DependenciesOutside(defs: Definitions)
    requires ClosedBundle(defs)
    ensures forall n | n in Dependencies(defs) :: n in defs && n != V2 && n !in defs[V2].fields
  {
    var g, inner := DependencyGraph(defs), defs[V2].fields;
    var outside := set n | n in defs && n != V2 && n !in inner;
    SharedIsNotV2();
    forall n | n in defs && n != V2 ensures NonV2Names(defs[n]) <= outside {
      RootNamesOutside(defs, n);
    }
    assert SharedNames(defs) <= outside && Closed(g, outside);
    ReachableIsLeast(g, SharedNames(defs));
  }

  lemma RootNamesOutside(defs: Definitions, n: string)
    requires ClosedBundle(defs) && n in defs && n != V2
    ensures forall m | m in NonV2Names(defs[n]) :: m in defs && m != V2 && m !in defs[V2].fields
  {
    forall m | m in NonV2Names(defs[n]) ensures m in defs && m != V2 && m !in defs[V2].fields {
      var r :| r in Refs(defs[n]) && DEFS <= r && !(NamespacePrefix(V2) <= r) && m == r[|DEFS|..];
      assert RootTarget(r, defs, defs[V2].fields);
    }
  }

  /**
   The flat document has a definition for every name of the namespace, every shared root schema
   and every dependency of these. Each is the rewritten image of one bundle definition, and its
   references are exactly the rewritten ones.
   */
  lemma FlatDefinition(defs: Definitions, n: string)
    requires ClosedBundle(defs)
    ensures n in Locals(Flat(defs)) <==>
            n in defs[V2].fields || (n in SHARED && n in defs) || n in Dependencies(defs)
    ensures n in Locals(Flat(defs)) ==> Origin(defs, n).Some?
    ensures n in Locals(Flat(defs)) ==> Locals(Flat(defs))[n] == RewritePrefix(Origin(defs, n).value)
    ensures n in Locals(Flat(defs)) ==>
              Refs(Locals(Flat(defs))[n]) == set q | q in Refs(Origin(defs, n).value) :: FlatRef(q)
  {
    FlatLocals(defs, n);
    DependenciesOutside(defs);
    if n in Locals(Flat(defs)) {
      GatheredOrigin(defs, n);
      RefsOfMapRefs(Origin(defs, n).value, r => FlatRef(r));
    }
  }

  /**
   Each definition reference of a flat definition leads, in the flat document, to the rewritten
   image of the node that the original denotes in the bundle, unless a shared root schema
   overrides that node: then to the rewritten image of the shared schema.
   */
  lemma FlatMeaning(defs: Definitions, n: string, r: string)
    requires ClosedBundle(defs)
    requires n in Locals(Flat(defs)) && Origin(defs, n).Some? && r in Refs(Origin(defs, n).value) && DEFS <= r
    ensures Resolve(BundleOf(defs), r).Some?
    ensures Resolve(Flat(defs), FlatRef(r)) ==
            Some(RewritePrefix(if Overridden(defs, r) then defs[TargetName(r)] else Resolve(BundleOf(defs), r).value))
  {
    var m := TargetName(r);
    FlatLocals(defs, n);
    GatheredOrigin(defs, n);
    TargetFlat(defs, n, r);
    GatheredOrigin(defs, m);
    FlatLocals(defs, m);
    ResolveRoot(Flat(defs), m);
  }

  /** So flattening keeps the meaning of a reference exactly when its target is not overridden by something else. */
  lemma FlattenPreservesMeaning(defs: Definitions, n: string, r: string)
    requires ClosedBundle(defs)
    requires n in Locals(Flat(defs)) && Origin(defs, n).Some? && r in Refs(Origin(defs, n).value) && DEFS <= r
    ensures Resolve(BundleOf(defs), r).Some? && (Overridden(defs, r) ==> TargetName(r) in defs)
    ensures Resolve(Flat(defs), FlatRef(r)) == Some(RewritePrefix(Resolve(BundleOf(defs), r).value))
       <==> (Overridden(defs, r) ==>
               RewritePrefix(defs[TargetName(r)]) == RewritePrefix(Resolve(BundleOf(defs), r).value))
  {
    FlatMeaning(defs, n, r);
  }

  // ---------------------------------------------------------------- from schemas to the flat bundle

  /**
   Accepted schemas, at least one of them namespaced, can be exported: if they bundle at all, the
   bundle is closed and flattens.
   */
  lemma ExportSucceeds(schemas: seq<Schema>)
    requires AllAccepted(schemas) && exists s | s in schemas :: s.namespace.Some?
    ensures var types := CollectTypes(schemas);
            Bundle(schemas).Some? <==>
            (forall s | s in schemas :: TitlesOk(s, types)) && Functional(AllNamespaced(schemas))
    ensures Bundle(schemas).Some? ==>
              var defs := Collect(schemas, CollectTypes(schemas)).value;
              Bundle(schemas) == Some(BundleOf(defs)) && ClosedBundle(defs) && Flatten(BundleOf(defs)).Some?
  {
    var types := CollectTypes(schemas);
    TypesOwner(schemas);
    assert forall s | s in schemas :: OneNamespace(s) by {
      forall s | s in schemas ensures OneNamespace(s) { assert Accepted(s, types); }
    }
    CollectContents(schemas, types);
    if Bundle(schemas).Some? {
      var defs := Collect(schemas, types).value;
      BundleIsClosed(schemas);
      FlattenSucceeds(defs);
    }
  }

  function RemovePrefix(v: Value, ns: string): Value {
    MapRefs(v, r => ReplaceAll(r, NamespacePrefix(ns), DEFS))
  }

  /** Rewriting into a namespace is idempotent, at every depth of every value. */
  lemma RewriteToNamespaceIdempotent(v: Value, ns: string)
    ensures RewriteToNamespace(RewriteToNamespace(v, ns), ns) == RewriteToNamespace(v, ns)
  {
    var w := RewriteToNamespace(v, ns);
    forall q | q in Refs(w) ensures NamespaceRef(q, ns) == q {
      var r := RefOrigin(v, r => NamespaceRef(r, ns), q);
      NamespaceRefIdempotent(r, ns);
    }
    MapRefsIdentity(w, r => NamespaceRef(r, ns));
  }

  /** The prefix rewrite undoes it on every value without references into the namespace. */
  lemma RewriteToNamespaceInverse(v: Value, ns: string)
    requires forall r | r in Refs(v) :: !Contains(r, NamespacePrefix(ns))
    ensures RemovePrefix(RewriteToNamespace(v, ns), ns) == v
  {
    var f, g := r => NamespaceRef(r, ns), r => ReplaceAll(r, NamespacePrefix(ns), DEFS);
    MapRefsCompose(v, f, g);
    forall r | r in Refs(v) ensures g(f(r)) == r { NamespaceRefInverse(r, ns); }
    MapRefsIdentity(v, r => g(f(r)));
  }
}
