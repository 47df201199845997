/**
 JSON values as the schema exporter sees them, and the one traversal that all of its
 reference rewriters share: apply a function to every string stored under a "$ref" key,
 at every depth.

 Objects are finite maps. The exporter never depends on the order of object keys, and
 compares objects by content.
 */
module Json {
  import opened Wrappers

  datatype Value =
    | Null
    | Bool(b: bool)
    | Number(literal: string)
    | String(text: string)
    | Array(items: seq<Value>)
    | Object(fields: map<string, Value>)

  const REF := "$ref"

  /** The member stored under `key`, when `v` is an object that has it. */
  predicate Has(v: Value, key: string) {
    v.Object? && key in v.fields
  }

  predicate HasString(v: Value, key: string) {
    Has(v, key) && v.fields[key].String?
  }

  predicate HasObject(v: Value, key: string) {
    Has(v, key) && v.fields[key].Object?
  }

  predicate HasArray(v: Value, key: string) {
    Has(v, key) && v.fields[key].Array?
  }

  /** Every reference string of a value, at any depth. */
  function Refs(v: Value): set<string> {
    match v
    case Object(m) =>
      (if REF in m && m[REF].String? then {m[REF].text} else {})
      + (set k, r | k in m && r in Refs(m[k]) :: r)
    case Array(xs) => set i, r | 0 <= i < |xs| && r in Refs(xs[i]) :: r
    case _ => {}
  }

  /** A step into an object or an array. */
  datatype Token = Key(name: string) | Item(index: nat)

  function Child(v: Value, t: Token): Option<Value> {
    match t
    case Key(name) => if Has(v, name) then Some(v.fields[name]) else None
    case Item(i) => if v.Array? && i < |v.items| then Some(v.items[i]) else None
  }

  /** The value that a path leads to. */
  function Node(v: Value, path: seq<Token>): Option<Value> {
    if path == [] then Some(v)
    else match Child(v, path[0]) case Some(c) => Node(c, path[1..]) case None => None
  }

  /** The path leads to an object that holds the reference `r`. */
  predicate RefAt(v: Value, path: seq<Token>, r: string) {
    match Node(v, path) case Some(n) => HasString(n, "$ref") && n.fields["$ref"].text == r case None => false
  }

  lemma RefBelow(v: Value, t: Token, path: seq<Token>, r: string)
    requires Child(v, t).Some?
    ensures RefAt(v, [t] + path, r) <==> RefAt(Child(v, t).value, path, r)
  {
    assert ([t] + path)[1..] == path;
  }

  lemma {:induction false} RefPath(v: Value, r: string) returns (path: seq<Token>)
    requires r in Refs(v)
    ensures RefAt(v, path, r)
  {
    path := [];
    if !RefAt(v, [], r) {
      match v
      case Object(m) =>
        var k :| k in m && r in Refs(m[k]);
        path := RefPath(m[k], r);
        RefBelow(v, Key(k), path, r);
        path := [Key(k)] + path;
      case Array(xs) =>
        var i :| 0 <= i < |xs| && r in Refs(xs[i]);
        path := RefPath(xs[i], r);
        RefBelow(v, Item(i), path, r);
        path := [Item(i)] + path;
    }
  }

  lemma {:induction false} RefAtPath(v: Value, path: seq<Token>, r: string)
    requires RefAt(v, path, r)
    ensures r in Refs(v)
    decreases |path|
  {
    if path != [] {
      var c := Child(v, path[0]).value;
      RefAtPath(c, path[1..], r);
      match path[0]
      case Key(name) => assert v.fields[name] == c;
      case Item(i) => assert v.items[i] == c;
    }
  }

  /** The references of a value are those found along its paths. */
  lemma RefsMean(v: Value, r: string)
    ensures r in Refs(v) <==> exists path :: RefAt(v, path, r)
  {
    if r in Refs(v) { var path := RefPath(v, r); }
    if path :| RefAt(v, path, r) { RefAtPath(v, path, r); }
  }

  /** Rewrite every reference string of a value with `f`; leave everything else alone. */
  function MapRefs(v: Value, f: string -> string): Value {
    match v
    case Object(m) =>
      Object(map k | k in m :: if k == REF && m[k].String? then String(f(m[k].text)) else MapRefs(m[k], f))
    case Array(xs) => Array(seq(|xs|, i requires 0 <= i < |xs| => MapRefs(xs[i], f)))
    case _ => v
  }

  /** Each reference survives rewriting, as its image. */
  lemma {:induction false} RefRewritten(v: Value, f: string -> string, q: string)
    requires q in Refs(v)
    ensures f(q) in Refs(MapRefs(v, f))
  {
    match v
    case Object(m) =>
      if !(REF in m && m[REF].String? && m[REF].text == q) {
        var k :| k in m && q in Refs(m[k]);
        RefRewritten(m[k], f, q);
        assert f(q) in Refs(MapRefs(v, f).fields[k]);
      }
    case Array(xs) =>
      var i :| 0 <= i < |xs| && q in Refs(xs[i]);
      RefRewritten(xs[i], f, q);
      assert f(q) in Refs(MapRefs(v, f).items[i]);
  }

  /** Each reference of a rewritten value is the image of an original one. */
  lemma {:induction false} RefOrigin(v: Value, f: string -> string, r: string) returns (q: string)
    requires r in Refs(MapRefs(v, f))
    ensures q in Refs(v) && f(q) == r
  {
    var w := MapRefs(v, f);
    match v
    case Object(m) =>
      if REF in m && m[REF].String? && f(m[REF].text) == r {
        q := m[REF].text;
      } else {
        var k :| k in m && r in Refs(w.fields[k]);
        q := RefOrigin(m[k], f, r);
      }
    case Array(xs) =>
      var i :| 0 <= i < |xs| && r in Refs(w.items[i]);
      q := RefOrigin(xs[i], f, r);
      assert q in Refs(xs[i]);
  }

  /** The references of a rewritten value are exactly the rewritten references. */
  lemma RefsOfMapRefs(v: Value, f: string -> string)
    ensures Refs(MapRefs(v, f)) == set r | r in Refs(v) :: f(r)
  {
    forall q | q in Refs(v) ensures f(q) in Refs(MapRefs(v, f)) { RefRewritten(v, f, q); }
    forall r | r in Refs(MapRefs(v, f)) ensures exists q :: q in Refs(v) && f(q) == r {
      var q := RefOrigin(v, f, r);
    }
  }

  /** Rewriters that agree on the references of a value rewrite it alike. */
  lemma {:induction false} MapRefsAgree(v: Value, f: string -> string, g: string -> string)
    requires forall r | r in Refs(v) :: f(r) == g(r)
    ensures MapRefs(v, f) == MapRefs(v, g)
  {
    match v
    case Object(m) =>
      forall k | k in m ensures MapRefs(m[k], f) == MapRefs(m[k], g) { MapRefsAgree(m[k], f, g); }
      assert MapRefs(v, f).fields == MapRefs(v, g).fields;
    case Array(xs) =>
      forall i | 0 <= i < |xs| ensures MapRefs(xs[i], f) == MapRefs(xs[i], g) {
        assert forall r :: r in Refs(xs[i]) ==> r in Refs(v);
        MapRefsAgree(xs[i], f, g);
      }
      assert MapRefs(v, f).items == MapRefs(v, g).items;
    case _ =>
  }

  /** A rewriter that fixes every reference of a value fixes the value. */
  lemma {:induction false} MapRefsIdentity(v: Value, f: string -> string)
    requires forall r | r in Refs(v) :: f(r) == r
    ensures MapRefs(v, f) == v
  {
    match v
    case Object(m) =>
      forall k | k in m ensures MapRefs(v, f).fields[k] == m[k] {
        if !(k == REF && m[k].String?) { MapRefsIdentity(m[k], f); }
      }
      assert MapRefs(v, f).fields == m;
    case Array(xs) =>
      forall i | 0 <= i < |xs| ensures MapRefs(v, f).items[i] == xs[i] {
        assert forall r :: r in Refs(xs[i]) ==> r in Refs(v);
        MapRefsIdentity(xs[i], f);
      }
      assert MapRefs(v, f).items == xs;
    case _ =>
  }

  /** And only such a rewriter does. */
  lemma {:induction false} MapRefsFixed(v: Value, f: string -> string, r: string)
    requires MapRefs(v, f) == v && r in Refs(v)
    ensures f(r) == r
  {
    match v
    case Object(m) =>
      if !(REF in m && m[REF].String? && m[REF].text == r) {
        var k :| k in m && r in Refs(m[k]);
        assert MapRefs(v, f).fields[k] == m[k];
        MapRefsFixed(m[k], f, r);
      } else {
        assert MapRefs(v, f).fields[REF] == m[REF];
      }
    case Array(xs) =>
      var i :| 0 <= i < |xs| && r in Refs(xs[i]);
      assert MapRefs(v, f).items[i] == xs[i];
      MapRefsFixed(xs[i], f, r);
  }

  /** Rewriting twice is rewriting once with the composition. */
  lemma {:induction false} MapRefsCompose(v: Value, f: string -> string, g: string -> string)
    ensures MapRefs(MapRefs(v, f), g) == MapRefs(v, r => g(f(r)))
  {
    var h := r => g(f(r));
    match v
    case Object(m) =>
      forall k | k in m ensures MapRefs(MapRefs(v, f), g).fields[k] == MapRefs(v, h).fields[k] {
        MapRefsCompose(m[k], f, g);
        assert MapRefs(MapRefs(m[k], f), g) == MapRefs(m[k], h);
      }
      assert MapRefs(MapRefs(v, f), g).fields == MapRefs(v, h).fields;
    case Array(xs) =>
      forall i | 0 <= i < |xs| ensures MapRefs(MapRefs(xs[i], f), g) == MapRefs(xs[i], h) {
        MapRefsCompose(xs[i], f, g);
      }
      assert MapRefs(MapRefs(v, f), g).items == MapRefs(v, h).items;
    case _ =>
  }
}
