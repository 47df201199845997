/**
 Title annotation of JSON Schemas: untitled `oneOf`/`anyOf` variants receive a title derived
 from their shape, and discriminator properties of titled objects receive one as well.

 The exporter annotates a tree that it owns in place. The model returns the new tree; a title
 that the exporter inserts just before it descends into a node is passed along as `title`.
 */
module SchemaTitles {
  import opened Wrappers
  import opened Json

  const TITLE := "title"
  const PROPERTIES := "properties"
  const VARIANT_KEYS := {"oneOf", "anyOf"}
  const DEFINITION_KEYS := {"definitions", "$defs"}
  const DISCRIMINATORS := {"type", "method", "mode", "status", "role", "reason"}

  function StringOf(v: Value): Option<string> {
    if v.String? then Some(v.text) else None
  }

  /** The string under `const`, or else the first entry of `enum` when that is a string. */
  function StringLiteral(v: Value): Option<string> {
    if HasString(v, "const") then Some(v.fields["const"].text)
    else if HasArray(v, "enum") && |v.fields["enum"].items| > 0 then StringOf(v.fields["enum"].items[0])
    else None
  }

  /** The schema allows just this string: by a string `const`, or without one by its first `enum` entry. */
  predicate Spells(v: Value, word: string) {
    if HasString(v, "const") then v.fields["const"] == String(word)
    else HasArray(v, "enum") && v.fields["enum"].items != [] && v.fields["enum"].items[0] == String(word)
  }

  lemma LiteralMeans(v: Value, word: string)
    ensures StringLiteral(v) == Some(word) <==> Spells(v, word)
  {
  }

  function TitleOf(v: Value): Option<string> {
    if HasString(v, TITLE) then Some(v.fields[TITLE].text) else None
  }

  function Upper(c: char): char {
    if 'a' <= c <= 'z' then (c as int - 32) as char else c
  }

  function PascalFrom(s: string, capitalize: bool): string {
    if s == "" then ""
    else if s[0] == '_' || s[0] == '-' then PascalFrom(s[1..], true)
    else [if capitalize then Upper(s[0]) else s[0]] + PascalFrom(s[1..], false)
  }

  function ToPascalCase(s: string): string { PascalFrom(s, true) }

  lemma SingletonKey<T>(m: map<string, T>, a: string, b: string)
    requires |m| == 1 && a in m && b in m
    ensures a == b
  {
    assert |m.Keys - {a}| == 0;
    assert b !in m.Keys - {a};
  }

  function OnlyKey<T>(m: map<string, T>): (k: string)
    requires |m| == 1
    ensures k in m && m.Keys == {k}
  {
    assert |m.Keys| == 1;
    assert m.Keys != {};
    assert exists k :: k in m;
    assert forall a, b | a in m && b in m :: a == b by {
      forall a, b | a in m && b in m ensures a == b { SingletonKey(m, a, b); }
    }
    var k :| k in m; k
  }

  function LiteralOf(props: map<string, Value>, key: string): Option<string> {
    if key in props then StringLiteral(props[key]) else None
  }

  /** The name an untitled variant is given, when its shape determines one. */
  function VariantName(base: string, variant: Value): Option<string> {
    if HasObject(variant, PROPERTIES) && NameFromProperties(base, variant.fields[PROPERTIES].fields).Some? then
      NameFromProperties(base, variant.fields[PROPERTIES].fields)
    else if HasArray(variant, "required") && |variant.fields["required"].items| == 1
            && variant.fields["required"].items[0].String? then
      Some(ToPascalCase(variant.fields["required"].items[0].text) + base)
    else None
  }

  function NameFromProperties(base: string, props: map<string, Value>): Option<string> {
    match LiteralOf(props, "method")
    case Some(literal) =>
      Some(ToPascalCase(literal) + (if base == "ClientRequest" || base == "ServerRequest" then "Request"
                                    else if base == "ClientNotification" || base == "ServerNotification"
                                    then "Notification" else base))
    case None =>
      match LiteralOf(props, "type")
      case Some(literal) => Some(ToPascalCase(literal) + base)
      case None =>
        if |props| == 1 then
          var key := OnlyKey(props);
          (match StringLiteral(props[key])
           case Some(literal) => Some(ToPascalCase(literal) + base)
           case None => Some(ToPascalCase(key) + base))
        else None
  }

  /** The title generated for a variant: none if it already has one or no name can be derived. */
  function NewTitle(variant: Value, base: Option<string>): Option<string> {
    if TitleOf(variant).Some? || base.None? then None else VariantName(base.value, variant)
  }

  /** The title generated for property `key` of an object titled `owner`. */
  function DiscriminatorTitle(key: string, prop: Value, owner: Option<string>): Option<string> {
    if owner.Some? && key in DISCRIMINATORS && StringLiteral(prop).Some? && TITLE !in prop.fields
    then Some(owner.value + ToPascalCase(key)) else None
  }

  function WithTitle(v: Value, title: Option<string>): Value {
    if v.Object? && title.Some? then Object(v.fields[TITLE := String(title.value)]) else v
  }

  function Annotate(v: Value, title: Option<string>, base: Option<string>): Value
    decreases v, 0
  {
    match v
    case Array(xs) => Array(seq(|xs|, i requires 0 <= i < |xs| => Annotate(xs[i], None, base)))
    case Object(m) =>
      WithTitle(Object(map k | k in m :: AnnotateMember(k, m[k], Owner(v, title), base)), title)
    case _ => v
  }

  function Owner(v: Value, title: Option<string>): Option<string> {
    if title.Some? then title else TitleOf(v)
  }

  /** The annotated member `child` that an object titled `owner` holds under `key`. */
  function AnnotateMember(key: string, child: Value, owner: Option<string>, base: Option<string>): Value
    decreases child, 1
  {
    if key in VARIANT_KEYS then
      if child.Array? then
        var xs := child.items;
        Array(seq(|xs|, i requires 0 <= i < |xs| => Annotate(xs[i], NewTitle(xs[i], base), base)))
      else child
    else if key in DEFINITION_KEYS then
      if child.Object? then
        var defs := child.fields;
        Object(map n | n in defs :: Annotate(defs[n], None, Some(n)))
      else child
    else if key == PROPERTIES then
      if child.Object? then
        var props := child.fields;
        Object(map n | n in props :: Annotate(props[n], DiscriminatorTitle(n, props[n], owner), base))
      else child
    else Annotate(child, None, base)
  }

  function ExistingTitles(variants: seq<Value>): set<string> {
    set i | 0 <= i < |variants| && TitleOf(variants[i]).Some? :: TitleOf(variants[i]).value
  }

  /** No generated title of the list meets an existing title or an earlier generated one. */
  predicate NoCollision(variants: seq<Value>, base: Option<string>) {
    forall i | 0 <= i < |variants| :: NoCollisionAt(variants, base, i)
  }

  predicate NoCollisionAt(variants: seq<Value>, base: Option<string>, i: nat)
    requires i < |variants|
  {
    NewTitle(variants[i], base).Some? ==>
      && NewTitle(variants[i], base).value !in ExistingTitles(variants)
      && forall j | 0 <= j < i :: NewTitle(variants[j], base) != NewTitle(variants[i], base)
  }

  /** Annotation meets no title collision anywhere in `v`, that is, does not panic. */
  predicate AnnotateOk(v: Value, base: Option<string>)
    decreases v, 0
  {
    match v
    case Array(xs) => forall i | 0 <= i < |xs| :: AnnotateOk(xs[i], base)
    case Object(m) => forall k | k in m :: MemberOk(k, m[k], base)
    case _ => true
  }

  predicate MemberOk(key: string, child: Value, base: Option<string>)
    decreases child, 1
  {
    if key in VARIANT_KEYS then
      child.Array? ==> NoCollision(child.items, base)
                       && forall i | 0 <= i < |child.items| :: AnnotateOk(child.items[i], base)
    else if key in DEFINITION_KEYS then
      child.Object? ==> forall n | n in child.fields :: AnnotateOk(child.fields[n], Some(n))
    else if key == PROPERTIES then
      child.Object? ==> forall n | n in child.fields :: AnnotateOk(child.fields[n], base)
    else AnnotateOk(child, base)
  }

  // ---------------------------------------------------------------- only titles are added

  /** Every title that the annotator may look at in a variant is a string. */
  predicate VariantTitlesAreStrings(v: Value)
    decreases v
  {
    match v
    case Array(xs) => forall i | 0 <= i < |xs| :: VariantTitlesAreStrings(xs[i])
    case Object(m) =>
      forall k | k in m ::
        && VariantTitlesAreStrings(m[k])
        && (k in VARIANT_KEYS && m[k].Array? ==>
              forall i | 0 <= i < |m[k].items| && Has(m[k].items[i], TITLE) :: m[k].items[i].fields[TITLE].String?)
    case _ => true
  }

  /** `w` is `v` with string titles added to some of its objects, and nothing else. */
  ghost predicate AddsTitles(v: Value, w: Value)
    decreases v
  {
    match v
    case Array(xs) => w.Array? && |w.items| == |xs| && forall i | 0 <= i < |xs| :: AddsTitles(xs[i], w.items[i])
    case Object(m) =>
      && w.Object?
      && w.fields.Keys - {TITLE} == m.Keys - {TITLE}
      && (forall k | k in m :: k in w.fields && AddsTitles(m[k], w.fields[k]))
      && (TITLE in w.fields && TITLE !in m ==> w.fields[TITLE].String?)
    case _ => w == v
  }

  lemma {:induction false} AnnotateAddsTitles(v: Value, title: Option<string>, base: Option<string>)
    requires VariantTitlesAreStrings(v) && (title.Some? && v.Object? ==> TITLE !in v.fields)
    ensures AddsTitles(v, Annotate(v, title, base))
    decreases v, 0
  {
    match v
    case Array(xs) =>
      forall i | 0 <= i < |xs| { AnnotateAddsTitles(xs[i], None, base); }
    case Object(m) =>
      forall k | k in m { MemberAddsTitles(v, k, Owner(v, title), base); }
    case _ =>
  }

  lemma {:induction false} MemberAddsTitles(v: Value, key: string, owner: Option<string>, base: Option<string>)
    requires VariantTitlesAreStrings(v) && Has(v, key)
    ensures AddsTitles(v.fields[key], AnnotateMember(key, v.fields[key], owner, base))
    decreases v.fields[key], 1
  {
    var child := v.fields[key];
    if key in VARIANT_KEYS && child.Array? {
      forall i | 0 <= i < |child.items| {
        AnnotateAddsTitles(child.items[i], NewTitle(child.items[i], base), base);
      }
    } else if key in DEFINITION_KEYS && child.Object? {
      forall n | n in child.fields { AnnotateAddsTitles(child.fields[n], None, Some(n)); }
    } else if key == PROPERTIES && child.Object? {
      forall n | n in child.fields {
        AnnotateAddsTitles(child.fields[n], DiscriminatorTitle(n, child.fields[n], owner), base);
      }
    } else if key in VARIANT_KEYS || key in DEFINITION_KEYS || key == PROPERTIES {
      AddsTitlesReflexive(child);
    } else {
      AnnotateAddsTitles(child, None, base);
    }
  }

  lemma {:induction false} AddsTitlesReflexive(v: Value)
    ensures AddsTitles(v, v)
  {
    match v
    case Array(xs) => forall i | 0 <= i < |xs| { AddsTitlesReflexive(xs[i]); }
    case Object(m) => forall k | k in m { AddsTitlesReflexive(m[k]); }
    case _ =>
  }

  /** Adding titles keeps every reference and brings in no new one. */
  lemma {:induction false} AddsTitlesKeepsRefs(v: Value, w: Value)
    requires AddsTitles(v, w)
    ensures Refs(w) == Refs(v)
  {
    match v
    case Array(xs) =>
      forall i | 0 <= i < |xs| ensures Refs(xs[i]) == Refs(w.items[i]) { AddsTitlesKeepsRefs(xs[i], w.items[i]); }
    case Object(m) =>
      forall k | k in m ensures Refs(m[k]) == Refs(w.fields[k]) { AddsTitlesKeepsRefs(m[k], w.fields[k]); }
      forall k | k in w.fields && k !in m ensures k == TITLE && Refs(w.fields[k]) == {} {
        assert k in w.fields.Keys - {TITLE} <==> k in m.Keys - {TITLE};
      }
      assert REF in m.Keys - {TITLE} <==> REF in w.fields.Keys - {TITLE};
      forall r ensures r in Refs(w) <==> r in Refs(v) {
        if r in Refs(w) && !(HasString(w, REF) && w.fields[REF].text == r) {
          var k :| k in w.fields && r in Refs(w.fields[k]);
          assert r in Refs(m[k]);
        }
        if r in Refs(v) && !(HasString(v, REF) && m[REF].text == r) {
          var k :| k in m && r in Refs(m[k]);
          assert r in Refs(w.fields[k]);
        }
      }
    case _ =>
  }

  // ---------------------------------------------------------------- references

  /** Annotation never brings in a reference: at most a title that is no string, with what it held, is replaced. */
  lemma {:induction false} AnnotateRefs(v: Value, title: Option<string>, base: Option<string>)
    ensures Refs(Annotate(v, title, base)) <= Refs(v)
    decreases v, 0
  {
    var w := Annotate(v, title, base);
    match v
    case Array(xs) =>
      forall i | 0 <= i < |xs| ensures Refs(w.items[i]) <= Refs(v) { AnnotateRefs(xs[i], None, base); }
    case Object(m) =>
      forall k | k in w.fields && !(k == TITLE && title.Some?) ensures Refs(w.fields[k]) <= Refs(v) {
        MemberRefs(k, m[k], Owner(v, title), base);
        assert Refs(m[k]) <= Refs(v);
      }
      if REF in m {
        PlainMember(v, title, base, REF);
        AnnotateKeepsStrings(m[REF], None, base);
      }
      assert HasString(w, REF) ==> HasString(v, REF) && m[REF] == w.fields[REF];
    case _ =>
  }

  lemma {:induction false} MemberRefs(key: string, child: Value, owner: Option<string>, base: Option<string>)
    ensures Refs(AnnotateMember(key, child, owner, base)) <= Refs(child)
    decreases child, 2
  {
    if key in VARIANT_KEYS && child.Array? {
      VariantRefs(key, child, owner, base);
    } else if key in DEFINITION_KEYS && child.Object? {
      DefinitionRefs(key, child, owner, base);
    } else if key == PROPERTIES && child.Object? {
      PropertyRefs(key, child, owner, base);
    } else if !(key in VARIANT_KEYS || key in DEFINITION_KEYS || key == PROPERTIES) {
      AnnotateRefs(child, None, base);
    }
  }

  lemma {:induction false} VariantRefs(key: string, child: Value, owner: Option<string>, base: Option<string>)
    requires key in VARIANT_KEYS && child.Array?
    ensures Refs(AnnotateMember(key, child, owner, base)) <= Refs(child)
    decreases child, 1
  {
    var c := AnnotateMember(key, child, owner, base);
    forall i | 0 <= i < |child.items| ensures Refs(c.items[i]) <= Refs(child) {
      AnnotateRefs(child.items[i], NewTitle(child.items[i], base), base);
    }
  }

  lemma {:induction false} DefinitionRefs(key: string, child: Value, owner: Option<string>, base: Option<string>)
    requires key in DEFINITION_KEYS && child.Object?
    ensures Refs(AnnotateMember(key, child, owner, base)) <= Refs(child)
    decreases child, 1
  {
    var c := AnnotateMember(key, child, owner, base);
    forall n | n in child.fields ensures Refs(c.fields[n]) <= Refs(child) {
      AnnotateRefs(child.fields[n], None, Some(n));
    }
  }

  lemma {:induction false} PropertyRefs(key: string, child: Value, owner: Option<string>, base: Option<string>)
    requires key == PROPERTIES && child.Object?
    ensures Refs(AnnotateMember(key, child, owner, base)) <= Refs(child)
    decreases child, 1
  {
    var c := AnnotateMember(key, child, owner, base);
    forall n | n in child.fields ensures Refs(c.fields[n]) <= Refs(child) {
      AnnotateRefs(child.fields[n], DiscriminatorTitle(n, child.fields[n], owner), base);
    }
  }

  // ---------------------------------------------------------------- a second pass does nothing

  /** Strings are fixed points, and nothing else becomes a string. */
  lemma AnnotateKeepsStrings(v: Value, title: Option<string>, base: Option<string>)
    ensures StringOf(Annotate(v, title, base)) == StringOf(v)
  {
  }

  /** A member without a traversal of its own is annotated like any node. */
  lemma PlainMember(v: Value, title: Option<string>, base: Option<string>, key: string)
    requires key !in VARIANT_KEYS && key !in DEFINITION_KEYS && key != PROPERTIES
    requires !(title.Some? && key == TITLE)
    ensures Has(Annotate(v, title, base), key) == Has(v, key)
    ensures Has(v, key) ==> Annotate(v, title, base).fields[key] == Annotate(v.fields[key], None, base)
  {
  }

  /** What the annotator reads of a node to name a variant is not changed by annotating the node. */
  lemma AnnotateKeepsLiteral(v: Value, title: Option<string>, base: Option<string>)
    ensures StringLiteral(Annotate(v, title, base)) == StringLiteral(v)
  {
    PlainMember(v, title, base, "const");
    PlainMember(v, title, base, "enum");
    if HasArray(v, "enum") && |v.fields["enum"].items| > 0 {
      AnnotateKeepsStrings(v.fields["enum"].items[0], None, base);
    }
  }

  lemma AnnotateKeepsTitle(v: Value, title: Option<string>, base: Option<string>)
    ensures TitleOf(Annotate(v, title, base)) == if v.Object? && title.Some? then title else TitleOf(v)
  {
    if title.None? { PlainMember(v, title, base, TITLE); }
  }

  lemma PropertiesMember(v: Value, title: Option<string>, base: Option<string>)
    ensures Has(Annotate(v, title, base), PROPERTIES) == Has(v, PROPERTIES)
    ensures Has(v, PROPERTIES) ==>
              Annotate(v, title, base).fields[PROPERTIES]
              == AnnotateMember(PROPERTIES, v.fields[PROPERTIES], Owner(v, title), base)
  {
  }

  lemma LiteralsKept(props: Value, owner: Option<string>, base: Option<string>)
    requires props.Object?
    ensures var c := AnnotateMember(PROPERTIES, props, owner, base);
            && c.Object? && c.fields.Keys == props.fields.Keys
            && forall n | n in props.fields :: StringLiteral(c.fields[n]) == StringLiteral(props.fields[n])
  {
    var c := AnnotateMember(PROPERTIES, props, owner, base);
    forall n | n in props.fields ensures StringLiteral(c.fields[n]) == StringLiteral(props.fields[n]) {
      AnnotateKeepsLiteral(props.fields[n], DiscriminatorTitle(n, props.fields[n], owner), base);
    }
  }

  lemma NameFromKeysAndLiterals(base: string, props: map<string, Value>, props': map<string, Value>)
    requires props'.Keys == props.Keys && forall n | n in props :: StringLiteral(props'[n]) == StringLiteral(props[n])
    ensures NameFromProperties(base, props') == NameFromProperties(base, props)
  {
  }

  lemma AnnotateKeepsName(v: Value, title: Option<string>, base: Option<string>, name: string)
    ensures VariantName(name, Annotate(v, title, base)) == VariantName(name, v)
  {
    PropertiesMember(v, title, base);
    if HasObject(v, PROPERTIES) {
      LiteralsKept(v.fields[PROPERTIES], Owner(v, title), base);
      NameFromKeysAndLiterals(name, v.fields[PROPERTIES].fields, Annotate(v, title, base).fields[PROPERTIES].fields);
    }
    PlainMember(v, title, base, "required");
    if HasArray(v, "required") && |v.fields["required"].items| == 1 {
      AnnotateKeepsStrings(v.fields["required"].items[0], None, base);
    }
  }

  /** Only objects are ever given a title, so a titled variant needs no second one. */
  lemma NoSecondTitle(v: Value, base: Option<string>)
    ensures NewTitle(Annotate(v, NewTitle(v, base), base), base) == None
  {
    AnnotateKeepsTitle(v, NewTitle(v, base), base);
    if base.Some? { AnnotateKeepsName(v, NewTitle(v, base), base, base.value); }
  }

  lemma NoSecondDiscriminator(key: string, v: Value, owner: Option<string>, base: Option<string>)
    ensures DiscriminatorTitle(key, Annotate(v, DiscriminatorTitle(key, v, owner), base), owner) == None
  {
    AnnotateKeepsLiteral(v, DiscriminatorTitle(key, v, owner), base);
  }

  /** Annotating an annotated schema changes nothing and meets no title collision. */
  lemma {:induction false} AnnotateIdempotent(v: Value, title: Option<string>, base: Option<string>)
    ensures Annotate(Annotate(v, title, base), None, base) == Annotate(v, title, base)
    ensures AnnotateOk(Annotate(v, title, base), base)
    decreases v, 0
  {
    var w := Annotate(v, title, base);
    match v
    case Array(xs) =>
      forall i | 0 <= i < |xs|
        ensures Annotate(w.items[i], None, base) == w.items[i] && AnnotateOk(w.items[i], base)
      {
        AnnotateIdempotent(xs[i], None, base);
      }
      assert Annotate(w, None, base).items == w.items;
    case Object(m) =>
      AnnotateKeepsTitle(v, title, base);
      var owner := Owner(v, title);
      assert Owner(w, None) == owner;
      forall k | k in w.fields
        ensures AnnotateMember(k, w.fields[k], owner, base) == w.fields[k]
        ensures MemberOk(k, w.fields[k], base)
      {
        if !(k == TITLE && title.Some?) { MemberIdempotent(k, m[k], owner, base); }
      }
      assert Annotate(w, None, base).fields == w.fields;
    case _ =>
  }

  lemma {:induction false} MemberIdempotent(key: string, child: Value, owner: Option<string>, base: Option<string>)
    ensures var c := AnnotateMember(key, child, owner, base);
            AnnotateMember(key, c, owner, base) == c && MemberOk(key, c, base)
    decreases child, 2
  {
    if key in VARIANT_KEYS && child.Array? {
      VariantsIdempotent(key, child, owner, base);
    } else if key in DEFINITION_KEYS && child.Object? {
      DefinitionsIdempotent(key, child, owner, base);
    } else if key == PROPERTIES && child.Object? {
      PropertiesIdempotent(key, child, owner, base);
    } else if !(key in VARIANT_KEYS || key in DEFINITION_KEYS || key == PROPERTIES) {
      AnnotateIdempotent(child, None, base);
    }
  }

  lemma {:induction false} VariantsIdempotent(key: string, child: Value, owner: Option<string>, base: Option<string>)
    requires key in VARIANT_KEYS && child.Array?
    ensures var c := AnnotateMember(key, child, owner, base);
            AnnotateMember(key, c, owner, base) == c && MemberOk(key, c, base)
    decreases child, 1
  {
    var c := AnnotateMember(key, child, owner, base);
    forall i | 0 <= i < |child.items|
      ensures NewTitle(c.items[i], base) == None
      ensures Annotate(c.items[i], None, base) == c.items[i] && AnnotateOk(c.items[i], base)
    {
      NoSecondTitle(child.items[i], base);
      AnnotateIdempotent(child.items[i], NewTitle(child.items[i], base), base);
    }
    assert AnnotateMember(key, c, owner, base).items == c.items;
  }

  lemma {:induction false} DefinitionsIdempotent(key: string, child: Value, owner: Option<string>, base: Option<string>)
    requires key in DEFINITION_KEYS && child.Object?
    ensures var c := AnnotateMember(key, child, owner, base);
            AnnotateMember(key, c, owner, base) == c && MemberOk(key, c, base)
    decreases child, 1
  {
    var c := AnnotateMember(key, child, owner, base);
    forall n | n in child.fields
      ensures Annotate(c.fields[n], None, Some(n)) == c.fields[n] && AnnotateOk(c.fields[n], Some(n))
    {
      AnnotateIdempotent(child.fields[n], None, Some(n));
    }
    assert AnnotateMember(key, c, owner, base).fields == c.fields;
  }

  lemma {:induction false} PropertiesIdempotent(key: string, child: Value, owner: Option<string>, base: Option<string>)
    requires key == PROPERTIES && child.Object?
    ensures var c := AnnotateMember(key, child, owner, base);
            AnnotateMember(key, c, owner, base) == c && MemberOk(key, c, base)
    decreases child, 1
  {
    var c := AnnotateMember(key, child, owner, base);
    forall n | n in child.fields
      ensures DiscriminatorTitle(n, c.fields[n], owner) == None
      ensures Annotate(c.fields[n], None, base) == c.fields[n] && AnnotateOk(c.fields[n], base)
    {
      NoSecondDiscriminator(n, child.fields[n], owner, base);
      AnnotateIdempotent(child.fields[n], DiscriminatorTitle(n, child.fields[n], owner), base);
    }
    assert AnnotateMember(key, c, owner, base).fields == c.fields;
  }

  // ---------------------------------------------------------------- the variant list

  /** The titles of an annotated list: every generated one differs from all other titles. */
  lemma GeneratedTitlesDistinct(variants: seq<Value>, base: Option<string>, i: nat, j: nat)
    requires NoCollision(variants, base) && i < |variants| && j < |variants| && i != j
    requires NewTitle(variants[i], base).Some?
    ensures TitleOf(Annotate(variants[i], NewTitle(variants[i], base), base)).Some?
    ensures TitleOf(Annotate(variants[i], NewTitle(variants[i], base), base))
         != TitleOf(Annotate(variants[j], NewTitle(variants[j], base), base))
  {
    AnnotateKeepsTitle(variants[i], NewTitle(variants[i], base), base);
    AnnotateKeepsTitle(variants[j], NewTitle(variants[j], base), base);
    assert NoCollisionAt(variants, base, i) && NoCollisionAt(variants, base, j);
    if TitleOf(variants[j]).Some? {
      assert TitleOf(variants[j]).value in ExistingTitles(variants);
    }
  }

  /** The titles generated for the first `n` variants. */
  function GeneratedTitles(variants: seq<Value>, base: Option<string>, n: nat): set<string>
    requires n <= |variants|
  {
    set i | 0 <= i < n && NewTitle(variants[i], base).Some? :: NewTitle(variants[i], base).value
  }

  method CollectTitles(variants: seq<Value>) returns (seen: set<string>)
    ensures seen == ExistingTitles(variants)
  {
    seen := {};
    for i := 0 to |variants|
      invariant seen == ExistingTitles(variants[..i])
    {
      if TitleOf(variants[i]).Some? { seen := seen + {TitleOf(variants[i]).value}; }
      assert variants[..i + 1] == variants[..i] + [variants[i]];
    }
    assert variants[..|variants|] == variants;
  }

  /** The loop over a variant list, with its set of titles already taken; None is the panic. */
  method AnnotateVariantList(variants: seq<Value>, base: Option<string>) returns (r: Option<seq<Value>>)
    ensures r.Some? <==> NoCollision(variants, base)
    ensures r.Some? ==> |r.value| == |variants| && AnnotatedVariants(r.value, variants, base)
  {
    var seen := CollectTitles(variants);
    var done: seq<Value> := [];
    for i := 0 to |variants|
      invariant |done| == i && AnnotatedVariants(done, variants, base)
      invariant seen == ExistingTitles(variants) + GeneratedTitles(variants, base, i)
      invariant forall j | 0 <= j < i :: NoCollisionAt(variants, base, j)
    {
      var title := NewTitle(variants[i], base);
      CollisionSeen(variants, base, i);
      if title.Some? {
        if title.value in seen { return None; }
        seen := seen + {title.value};
      }
      var w := Annotate(variants[i], title, base);
      AnnotatedNext(done, w, variants, base);
      done := done + [w];
    }
    r := Some(done);
  }

  /** Each of these is the variant at its place, annotated under the title generated for it. */
  predicate AnnotatedVariants(done: seq<Value>, variants: seq<Value>, base: Option<string>) {
    |done| <= |variants|
    && forall i | 0 <= i < |done| :: done[i] == Annotate(variants[i], NewTitle(variants[i], base), base)
  }

  lemma AnnotatedNext(done: seq<Value>, w: Value, variants: seq<Value>, base: Option<string>)
    requires AnnotatedVariants(done, variants, base) && |done| < |variants|
    requires w == Annotate(variants[|done|], NewTitle(variants[|done|], base), base)
    ensures AnnotatedVariants(done + [w], variants, base)
  {
  }

  lemma CollisionSeen(variants: seq<Value>, base: Option<string>, i: nat)
    requires i < |variants|
    ensures var title := NewTitle(variants[i], base);
            && (NoCollisionAt(variants, base, i) <==>
                title.None? || title.value !in ExistingTitles(variants) + GeneratedTitles(variants, base, i))
            && GeneratedTitles(variants, base, i + 1)
               == GeneratedTitles(variants, base, i) + (if title.Some? then {title.value} else {})
  {
  }
}
