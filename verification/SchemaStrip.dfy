/**
 Removing method variants from a request or notification schema, and then the local definitions
 that nothing needs any longer.
 */
module SchemaStrip {
  import opened Wrappers
  import opened Json
  import opened SchemaRefs
  import opened SchemaTitles
  import opened SchemaBundle
  import opened Graph
  import opened Selection

  const ONE_OF := "oneOf"

  predicate IsMethodVariant(v: Value, methods: set<string>) {
    && HasObject(v, PROPERTIES)
    && "method" in v.fields[PROPERTIES].fields
    && var literal := StringLiteral(v.fields[PROPERTIES].fields["method"]);
    && literal.Some? && literal.value in methods
  }

  /** References of a value that do not sit inside a definition map, at any depth. */
  function RefsOutsideMaps(v: Value): set<string> {
    match v
    case Object(m) =>
      (if REF in m && m[REF].String? then {m[REF].text} else {})
      + (set k, r | k in m && k !in DEFINITION_KEYS && r in RefsOutsideMaps(m[k]) :: r)
    case Array(xs) => set i, r | 0 <= i < |xs| && r in RefsOutsideMaps(xs[i]) :: r
    case _ => {}
  }

  /** The definitions named by references, each by the first token after the prefix. */
  function LocalNames(refs: set<string>): set<string> {
    set r | r in refs && DEFS <= r :: Segment(r[|DEFS|..])
  }

  function LocalGraph(defs: Definitions): Edges {
    map n | n in defs :: LocalNames(Refs(defs[n]))
  }

  ghost function Needed(schema: Value): set<string> {
    if HasObject(schema, DEFINITIONS)
    then Reachable(LocalGraph(Locals(schema)), LocalNames(RefsOutsideMaps(schema)))
    else {}
  }

  /** Queue the names that are not known yet. */
  method Discover(names: set<string>, queue: seq<string>, reachable: set<string>)
    returns (queue': seq<string>, reachable': set<string>)
    ensures reachable' == reachable + names
    ensures Elements(queue') == Elements(queue) + (names - reachable)
    ensures names <= reachable ==> queue' == queue
  {
    queue', reachable' := queue, reachable;
    var rest := names;
    while rest != {}
      invariant rest <= names && reachable' == reachable + (names - rest)
      invariant Elements(queue') == Elements(queue) + (names - rest - reachable)
      invariant names <= reachable ==> queue' == queue
    {
      var n :| n in rest;
      rest := rest - {n};
      if n !in reachable' {
        ElementsOfConcat(queue', [n]);
        queue', reachable' := queue' + [n], reachable' + {n};
      }
    }
  }

  lemma DiscoverStep(g: Edges, seeds: set<string>, done: set<string>, rest: set<string>, n: string, known: set<string>)
    requires Worklist(g, seeds, done, rest + {n}) && known == done + (rest + {n})
    ensures Worklist(g, seeds, done + {n}, rest + (Successors(g, n) - known))
    ensures known == (done + {n}) + rest
    ensures known + Successors(g, n) == (done + {n}) + (rest + (Successors(g, n) - known))
    ensures known + Successors(g, n) <= Reachable(g, seeds)
  {
    WorklistStep(g, seeds, done, rest, n, Successors(g, n) - known);
  }

  /** The worklist over local definitions: the least set the schema needs outside its maps. */
  method ReachableLocalDefinitions(schema: Value) returns (reachable: set<string>)
    ensures reachable == Needed(schema)
  {
    reachable := {};
    if !HasObject(schema, DEFINITIONS) { return; }
    var definitions := Locals(schema);
    ghost var g, seeds := LocalGraph(definitions), LocalNames(RefsOutsideMaps(schema));
    ghost var done: set<string> := {};
    var queue: seq<string> := [];
    WorklistStarts(g, seeds);
    queue, reachable := Discover(LocalNames(RefsOutsideMaps(schema)), queue, reachable);
    while queue != []
      invariant reachable == done + Elements(queue)
      invariant Worklist(g, seeds, done, Elements(queue))
      decreases Reachable(g, seeds) - reachable, |queue|
    {
      ElementsOfLast(queue);
      var name := queue[|queue| - 1];
      queue := queue[..|queue| - 1];
      DiscoverStep(g, seeds, done, Elements(queue), name, reachable);
      done := done + {name};
      if name in definitions {
        queue, reachable := Discover(LocalNames(Refs(definitions[name])), queue, reachable);
      }
    }
    WorklistEnds(g, seeds, done);
  }

  function Survivors(variants: seq<Value>, methods: set<string>): seq<Value> {
    if variants == [] then []
    else if IsMethodVariant(variants[0], methods) then Survivors(variants[1..], methods)
    else [variants[0]] + Survivors(variants[1..], methods)
  }

  function WithoutVariants(schema: Value, methods: set<string>): Value
    requires HasArray(schema, ONE_OF)
  {
    Object(schema.fields[ONE_OF := Array(Survivors(schema.fields[ONE_OF].items, methods))])
  }

  function Restrict(defs: Definitions, names: set<string>): Definitions {
    map n | n in defs && n in names :: defs[n]
  }

  ghost function Strip(schema: Value, methods: set<string>): Value {
    if !HasArray(schema, ONE_OF) then schema
    else
      var s := WithoutVariants(schema, methods);
      if HasObject(s, DEFINITIONS)
      then Object(s.fields[DEFINITIONS := Object(Restrict(Locals(s), Needed(s)))])
      else s
  }

  method StripMethodVariants(schema: Value, methods: set<string>) returns (r: Value)
    ensures r == Strip(schema, methods)
  {
    if !HasArray(schema, ONE_OF) { return schema; }
    var variants := schema.fields[ONE_OF].items;
    var kept: seq<Value> := [];
    for i := 0 to |variants|
      invariant kept + Survivors(variants[i..], methods) == Survivors(variants, methods)
    {
      assert variants[i..][1..] == variants[i + 1..];
      if !IsMethodVariant(variants[i], methods) { kept := kept + [variants[i]]; }
    }
    assert kept == kept + Survivors(variants[|variants|..], methods);
    r := Object(schema.fields[ONE_OF := Array(kept)]);
    var reachable := ReachableLocalDefinitions(r);
    if HasObject(r, DEFINITIONS) {
      r := Object(r.fields[DEFINITIONS := Object(Restrict(Locals(r), reachable))]);
    }
  }

  /** References outside definition maps do not depend on what the root map holds. */
  lemma OutsideMapsIgnoresMap(m: Definitions, defs: Value)
    requires DEFINITIONS in m
    ensures RefsOutsideMaps(Object(m[DEFINITIONS := defs])) == RefsOutsideMaps(Object(m))
  {
    var m' := m[DEFINITIONS := defs];
    assert forall k | k in m && k !in DEFINITION_KEYS :: m'[k] == m[k];
  }

  /**
   Stripping leaves no newly dangling reference: a reference outside the definition maps, or
   inside a definition that is kept, names a definition afterwards exactly when it did before.
   */
  lemma StripKeepsTargets(schema: Value, methods: set<string>, r: string)
    requires HasArray(schema, ONE_OF) && DEFS <= r
    requires r in RefsOutsideMaps(Strip(schema, methods))
             || exists n | n in Locals(Strip(schema, methods)) :: r in Refs(Locals(Strip(schema, methods))[n])
    ensures Segment(r[|DEFS|..]) in Locals(Strip(schema, methods)) <==> Segment(r[|DEFS|..]) in Locals(schema)
  {
    var s, w, name := WithoutVariants(schema, methods), Strip(schema, methods), Segment(r[|DEFS|..]);
    assert Locals(s) == Locals(schema);
    if HasObject(s, DEFINITIONS) {
      OutsideMapsIgnoresMap(s.fields, w.fields[DEFINITIONS]);
      ReachableIsLeast(LocalGraph(Locals(s)), LocalNames(RefsOutsideMaps(s)));
      if r !in RefsOutsideMaps(w) {
        var n :| n in Locals(w) && r in Refs(Locals(w)[n]);
        assert name in LocalGraph(Locals(s))[n];
      }
      assert name in Needed(s);
    }
  }

  /**
   A definition is kept, unchanged, exactly when every set that holds the names used outside the
   maps, and with a definition all names it uses, holds its name too.
   */
  lemma StripKeepsLeast(schema: Value, methods: set<string>, n: string)
    requires HasArray(schema, ONE_OF) && n in Locals(schema)
    ensures var seeds, g := LocalNames(RefsOutsideMaps(WithoutVariants(schema, methods))), LocalGraph(Locals(schema));
            n in Locals(Strip(schema, methods)) <==> forall t | seeds <= t && Closed(g, t) :: n in t
    ensures n in Locals(Strip(schema, methods)) ==> Locals(Strip(schema, methods))[n] == Locals(schema)[n]
  {
    StripLocals(schema, methods);
    LeastMember(LocalGraph(Locals(schema)), LocalNames(RefsOutsideMaps(WithoutVariants(schema, methods))), n);
  }

  lemma StripLocals(schema: Value, methods: set<string>)
    requires HasArray(schema, ONE_OF) && HasObject(schema, DEFINITIONS)
    ensures Locals(WithoutVariants(schema, methods)) == Locals(schema)
    ensures Locals(Strip(schema, methods)) == Restrict(Locals(schema), Needed(WithoutVariants(schema, methods)))
  {
  }

  lemma LeastMember(g: Edges, seeds: set<string>, n: string)
    ensures n in Reachable(g, seeds) <==> forall t | seeds <= t && Closed(g, t) :: n in t
  {
    ReachableIsLeast(g, seeds);
  }
  // ---------------------------------------------------------------- which references count

  /** The path passes through no definition map. */
  predicate AvoidsMaps(path: seq<Token>) {
    forall t | t in path :: t != Key("definitions") && t != Key("$defs")
  }

  lemma {:induction false} OutsidePath(v: Value, r: string) returns (path: seq<Token>)
    requires r in RefsOutsideMaps(v)
    ensures RefAt(v, path, r) && AvoidsMaps(path)
  {
    path := [];
    if !RefAt(v, [], r) {
      match v
      case Object(m) =>
        var k :| k in m && k !in DEFINITION_KEYS && r in RefsOutsideMaps(m[k]);
        path := OutsidePath(m[k], r);
        RefBelow(v, Key(k), path, r);
        path := [Key(k)] + path;
      case Array(xs) =>
        var i :| 0 <= i < |xs| && r in RefsOutsideMaps(xs[i]);
        path := OutsidePath(xs[i], r);
        RefBelow(v, Item(i), path, r);
        path := [Item(i)] + path;
    }
  }

  lemma {:induction false} OutsideAtPath(v: Value, path: seq<Token>, r: string)
    requires RefAt(v, path, r) && AvoidsMaps(path)
    ensures r in RefsOutsideMaps(v)
    decreases |path|
  {
    if path != [] {
      var c := Child(v, path[0]).value;
      assert path[0] in path && forall t | t in path[1..] :: t in path;
      OutsideAtPath(c, path[1..], r);
      match path[0]
      case Key(name) => assert v.fields[name] == c;
      case Item(i) => assert v.items[i] == c;
    }
  }

  /** The references outside the definition maps are those found along paths that avoid them. */
  lemma OutsideMapsMean(v: Value, r: string)
    ensures r in RefsOutsideMaps(v) <==> exists path :: RefAt(v, path, r) && AvoidsMaps(path)
  {
    if r in RefsOutsideMaps(v) { var path := OutsidePath(v, r); }
    if path :| RefAt(v, path, r) && AvoidsMaps(path) { OutsideAtPath(v, path, r); }
  }

  // ---------------------------------------------------------------- which variants are removed

  predicate NamesMethod(variant: Value, name: string) {
    && HasObject(variant, "properties") && "method" in variant.fields["properties"].fields
    && Spells(variant.fields["properties"].fields["method"], name)
  }

  lemma {:induction false} SurvivorsNext(init: seq<Value>, last: Value, methods: set<string>)
    ensures Survivors(init + [last], methods)
         == Survivors(init, methods) + (if IsMethodVariant(last, methods) then [] else [last])
  {
    if init == [] {
      assert ([] + [last])[1..] == [];
    } else {
      assert (init + [last])[1..] == init[1..] + [last] && (init + [last])[0] == init[0];
      SurvivorsNext(init[1..], last, methods);
    }
  }

  lemma {:induction false} SurvivorsSelect(variants: seq<Value>, methods: set<string>) returns (at: seq<nat>)
    ensures Selects(variants, at, Survivors(variants, methods))
    ensures forall i: nat | i < |variants| ::
              i in at <==> !exists m :: m in methods && NamesMethod(variants[i], m)
  {
    if variants == [] {
      at := [];
    } else {
      var init, last := variants[..|variants| - 1], variants[|variants| - 1];
      at := SurvivorsSelect(init, methods);
      assert variants == init + [last];
      SurvivorsNext(init, last, methods);
      MethodVariantMeans(last, methods);
      SelectsNext(init, at, Survivors(init, methods), last);
      if !IsMethodVariant(last, methods) { at := at + [|init|]; }
    }
  }

  lemma MethodVariantMeans(v: Value, methods: set<string>)
    ensures IsMethodVariant(v, methods) <==> exists m :: m in methods && NamesMethod(v, m)
  {
    if HasObject(v, PROPERTIES) && "method" in v.fields[PROPERTIES].fields {
      var p := v.fields[PROPERTIES].fields["method"];
      forall m ensures StringLiteral(p) == Some(m) <==> Spells(p, m) { LiteralMeans(p, m); }
      if IsMethodVariant(v, methods) { assert NamesMethod(v, StringLiteral(p).value); }
    }
  }

  /**
   Stripping removes exactly the variants that name one of the methods, keeps the others in their
   order, and outside `oneOf` and the definitions changes nothing.
   */
  lemma StripRemovesExactly(schema: Value, methods: set<string>) returns (at: seq<nat>)
    requires HasArray(schema, "oneOf")
    ensures var after := Strip(schema, methods);
            && HasArray(after, "oneOf") && after.fields.Keys == schema.fields.Keys
            && Selects(schema.fields["oneOf"].items, at, after.fields["oneOf"].items)
            && (forall k | k in schema.fields && k != "oneOf" && k != "definitions" ::
                  after.fields[k] == schema.fields[k])
    ensures forall i: nat | i < |schema.fields["oneOf"].items| ::
              i in at <==> !exists m :: m in methods && NamesMethod(schema.fields["oneOf"].items[i], m)
  {
    at := SurvivorsSelect(schema.fields["oneOf"].items, methods);
  }
}
