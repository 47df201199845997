/** Which titles annotation adds, and what they read, in terms of the schemas alone. */
module TitleLaws {
  import opened Wrappers
  import opened Json
  import opened SchemaTitles

  // ---------------------------------------------------------------- capitalised names

  predicate Separates(c: char) { c == '_' || c == '-' }

  /** A capital letter for a small one, at the same place of the alphabet. */
  lemma UpperMeans(c: char)
    ensures 'a' <= c <= 'z' ==> 'A' <= Upper(c) <= 'Z' && Upper(c) as int - 'A' as int == c as int - 'a' as int
    ensures !('a' <= c <= 'z') ==> Upper(c) == c
  {
  }

  lemma {:induction false} PascalRest(w: string)
    requires forall c | c in w :: !Separates(c)
    ensures PascalFrom(w, false) == w
  {
    if w != "" {
      assert w[0] in w && forall c | c in w[1..] :: c in w;
      PascalRest(w[1..]);
    }
  }

  /** A word gets a capital first letter. */
  lemma PascalWord(w: string)
    requires w != "" && forall c | c in w :: !Separates(c)
    ensures ToPascalCase(w) == [Upper(w[0])] + w[1..]
  {
    assert w[0] in w && forall c | c in w[1..] :: c in w;
    PascalRest(w[1..]);
  }

  lemma {:induction false} PascalFromParts(a: string, c: char, b: string, capitalize: bool)
    requires Separates(c)
    ensures PascalFrom(a + [c] + b, capitalize) == PascalFrom(a, capitalize) + ToPascalCase(b)
  {
    var s := a + [c] + b;
    if a == "" {
      assert s[0] == c && s[1..] == b;
    } else {
      assert s[0] == a[0] && s[1..] == a[1..] + [c] + b;
      PascalFromParts(a[1..], c, b, Separates(a[0]));
    }
  }

  /** Words between separators are put together, each with its capital. */
  lemma PascalWords(a: string, c: char, b: string)
    requires Separates(c)
    ensures ToPascalCase(a + [c] + b) == ToPascalCase(a) + ToPascalCase(b) && ToPascalCase("") == ""
  {
    PascalFromParts(a, c, b, true);
  }

  // ---------------------------------------------------------------- the title of a variant

  predicate PropertySpells(v: Value, key: string, word: string) {
    && HasObject(v, "properties") && key in v.fields["properties"].fields
    && Spells(v.fields["properties"].fields[key], word)
  }

  /** What the exporter appends to a method: the kind of message, or else the name of the definition. */
  function Suffix(base: string): string {
    if base in {"ClientRequest", "ServerRequest"} then "Request"
    else if base in {"ClientNotification", "ServerNotification"} then "Notification"
    else base
  }

  /** The title of a variant with one property: from the word it allows, or from its key. */
  ghost predicate SinglePropertyTitle(v: Value, base: string, title: string) {
    && HasObject(v, "properties")
    && exists key :: v.fields["properties"].fields.Keys == {key}
                     && ((exists word :: PropertySpells(v, key, word) && title == ToPascalCase(word) + base)
                         || ((forall word :: !PropertySpells(v, key, word)) && title == ToPascalCase(key) + base))
  }

  /** The title of a variant that requires one member: from the name of that member. */
  ghost predicate RequiredTitle(v: Value, base: string, title: string) {
    && HasArray(v, "required")
    && exists key :: v.fields["required"].items == [String(key)] && title == ToPascalCase(key) + base
  }

  /** The title of an untitled variant, by its method, its type, its only property or its only required member. */
  ghost predicate TitleText(v: Value, base: string, title: string) {
    if exists word :: PropertySpells(v, "method", word) then
      exists word :: PropertySpells(v, "method", word) && title == ToPascalCase(word) + Suffix(base)
    else if exists word :: PropertySpells(v, "type", word) then
      exists word :: PropertySpells(v, "type", word) && title == ToPascalCase(word) + base
    else if HasObject(v, "properties") && |v.fields["properties"].fields| == 1 then
      SinglePropertyTitle(v, base, title)
    else RequiredTitle(v, base, title)
  }

  lemma PropertySpellsMeans(v: Value, key: string)
    ensures HasObject(v, PROPERTIES) ==>
              forall word :: LiteralOf(v.fields[PROPERTIES].fields, key) == Some(word) <==> PropertySpells(v, key, word)
    ensures (exists word :: PropertySpells(v, key, word)) <==>
            HasObject(v, PROPERTIES) && LiteralOf(v.fields[PROPERTIES].fields, key).Some?
  {
    if HasObject(v, PROPERTIES) && key in v.fields[PROPERTIES].fields {
      var p := v.fields[PROPERTIES].fields[key];
      forall word ensures StringLiteral(p) == Some(word) <==> Spells(p, word) { LiteralMeans(p, word); }
      if StringLiteral(p).Some? { assert PropertySpells(v, key, StringLiteral(p).value); }
    }
  }

  lemma SinglePropertyMeans(v: Value, base: string, title: string, key: string)
    requires HasObject(v, PROPERTIES) && v.fields[PROPERTIES].fields.Keys == {key}
    ensures SinglePropertyTitle(v, base, title) <==>
            title == (match StringLiteral(v.fields[PROPERTIES].fields[key])
                      case Some(literal) => ToPascalCase(literal) + base
                      case None => ToPascalCase(key) + base)
  {
    PropertySpellsMeans(v, key);
    assert forall k :: v.fields[PROPERTIES].fields.Keys == {k} <==> k == key;
  }

  lemma RequiredMeans(v: Value, base: string, title: string)
    ensures RequiredTitle(v, base, title) <==>
            && HasArray(v, "required") && |v.fields["required"].items| == 1 && v.fields["required"].items[0].String?
            && title == ToPascalCase(v.fields["required"].items[0].text) + base
  {
  }

  lemma VariantNameMeans(v: Value, base: string, title: string)
    ensures VariantName(base, v) == Some(title) <==> TitleText(v, base, title)
  {
    PropertySpellsMeans(v, "method");
    PropertySpellsMeans(v, "type");
    RequiredMeans(v, base, title);
    if HasObject(v, PROPERTIES) && |v.fields[PROPERTIES].fields| == 1 {
      SinglePropertyMeans(v, base, title, OnlyKey(v.fields[PROPERTIES].fields));
    }
  }

  /** A variant gets a new title exactly when it has none and its shape spells one. */
  lemma NewTitleMeans(v: Value, base: Option<string>, title: string)
    ensures NewTitle(v, base) == Some(title) <==>
            !HasString(v, "title") && base.Some? && TitleText(v, base.value, title)
  {
    if base.Some? { VariantNameMeans(v, base.value, title); }
  }
  // ---------------------------------------------------------------- where titles are added

  predicate Titled(v: Value, title: string) { HasString(v, "title") && v.fields["title"].text == title }

  lemma TitledMeans(v: Value, title: string)
    ensures Titled(v, title) <==> TitleOf(v) == Some(title)
  {
  }

  /** The title of an annotated variant: its own, or the one its shape spells below the definition `base`. */
  lemma VariantTitled(v: Value, owner: Option<string>, base: Option<string>, key: string, i: nat, title: string)
    requires key in {"oneOf", "anyOf"} && HasArray(v, key) && i < |v.fields[key].items|
    ensures var w := Annotate(v, owner, base);
            && HasArray(w, key) && |w.fields[key].items| == |v.fields[key].items|
            && (Titled(w.fields[key].items[i], title) <==>
                var x := v.fields[key].items[i];
                Titled(x, title) || (!HasString(x, "title") && base.Some? && TitleText(x, base.value, title)))
  {
    VariantMember(v, owner, base, key, i);
    TitleAfter(v.fields[key].items[i], base, title);
  }

  lemma VariantMember(v: Value, owner: Option<string>, base: Option<string>, key: string, i: nat)
    requires key in {"oneOf", "anyOf"} && HasArray(v, key) && i < |v.fields[key].items|
    ensures var w, x := Annotate(v, owner, base), v.fields[key].items[i];
            && HasArray(w, key) && |w.fields[key].items| == |v.fields[key].items|
            && w.fields[key].items[i] == Annotate(x, NewTitle(x, base), base)
  {
  }

  lemma TitleAfter(x: Value, base: Option<string>, title: string)
    ensures Titled(Annotate(x, NewTitle(x, base), base), title) <==>
            Titled(x, title) || (!HasString(x, "title") && base.Some? && TitleText(x, base.value, title))
  {
    AnnotateKeepsTitle(x, NewTitle(x, base), base);
    NewTitleMeans(x, base, title);
    TitledMeans(x, title);
    TitledMeans(Annotate(x, NewTitle(x, base), base), title);
    NamedVariantIsObject(x, base);
  }

  lemma NamedVariantIsObject(x: Value, base: Option<string>)
    ensures NewTitle(x, base).Some? ==> x.Object?
  {
  }

  /** The keys whose literal tells variants apart. */
  predicate TellsApart(key: string) { key in {"type", "method", "mode", "status", "role", "reason"} }

  /** The title of an annotated property: its own, or that of its object followed by its name if it tells apart. */
  lemma PropertyTitled(v: Value, owner: Option<string>, base: Option<string>, key: string, title: string)
    requires HasObject(v, "properties") && key in v.fields["properties"].fields
    ensures var w := Annotate(v, owner, base);
            && HasObject(w, "properties") && key in w.fields["properties"].fields
            && (Titled(w.fields["properties"].fields[key], title) <==>
                var p := v.fields["properties"].fields[key];
                || Titled(p, title)
                || (TellsApart(key) && !Has(p, "title") && (exists word :: Spells(p, word))
                    && ((owner.Some? && title == owner.value + ToPascalCase(key))
                        || (owner.None? && exists t :: Titled(v, t) && title == t + ToPascalCase(key)))))
  {
    var p := v.fields["properties"].fields[key];
    PropertiesMember(v, owner, base);
    DiscriminatorMeans(key, p, Owner(v, owner), base, title);
    forall u ensures Titled(v, u) <==> TitleOf(v) == Some(u) { TitledMeans(v, u); }
  }

  /** The title of a property below an object with the title `owner`. */
  lemma DiscriminatorMeans(key: string, p: Value, owner: Option<string>, base: Option<string>, title: string)
    ensures Titled(Annotate(p, DiscriminatorTitle(key, p, owner), base), title) <==>
            || Titled(p, title)
            || (TellsApart(key) && !Has(p, "title") && (exists word :: Spells(p, word))
                && owner.Some? && title == owner.value + ToPascalCase(key))
  {
    var t := DiscriminatorTitle(key, p, owner);
    AnnotateKeepsTitle(p, t, base);
    TitledMeans(p, title);
    TitledMeans(Annotate(p, t, base), title);
    forall word ensures StringLiteral(p) == Some(word) <==> Spells(p, word) { LiteralMeans(p, word); }
    if StringLiteral(p).Some? { assert Spells(p, StringLiteral(p).value); }
  }

  /** A node that is neither gets no title; below a definition its name is the base. */
  lemma PlainTitled(v: Value, base: Option<string>, key: string, title: string)
    ensures Titled(Annotate(v, None, base), title) <==> Titled(v, title)
    ensures v.Object? && key in v.fields && key !in {"oneOf", "anyOf", "definitions", "$defs", "properties"} ==>
              Annotate(v, None, base).fields[key] == Annotate(v.fields[key], None, base)
    ensures HasObject(v, key) && key in {"definitions", "$defs"} ==>
              forall n | n in v.fields[key].fields ::
                && HasObject(Annotate(v, None, base), key) && n in Annotate(v, None, base).fields[key].fields
                && Annotate(v, None, base).fields[key].fields[n] == Annotate(v.fields[key].fields[n], None, Some(n))
  {
    AnnotateKeepsTitle(v, None, base);
    TitledMeans(v, title);
    TitledMeans(Annotate(v, None, base), title);
    if key !in {"oneOf", "anyOf", "definitions", "$defs", "properties"} { PlainMember(v, None, base, key); }
  }
  // ---------------------------------------------------------------- when annotation panics

  /** A step of the traversal: into a list of variants, a definition, a property, or anything else. */
  datatype Visit = Variant(key: string, i: nat) | Definition(key: string, name: string) | Property(name: string)
                 | Member(key: string) | Element(i: nat)

  /** The node a step leads to, with the name of the definition it then belongs to. */
  function Visited(v: Value, base: Option<string>, step: Visit): Option<(Value, Option<string>)> {
    match step
    case Variant(key, i) =>
      if key in {"oneOf", "anyOf"} && HasArray(v, key) && i < |v.fields[key].items|
      then Some((v.fields[key].items[i], base)) else None
    case Definition(key, name) =>
      if key in {"definitions", "$defs"} && HasObject(v, key) && name in v.fields[key].fields
      then Some((v.fields[key].fields[name], Some(name))) else None
    case Property(name) =>
      if HasObject(v, "properties") && name in v.fields["properties"].fields
      then Some((v.fields["properties"].fields[name], base)) else None
    case Member(key) =>
      if Has(v, key) && key !in {"oneOf", "anyOf", "definitions", "$defs", "properties"}
      then Some((v.fields[key], base)) else None
    case Element(i) => if v.Array? && i < |v.items| then Some((v.items[i], base)) else None
  }

  function Walk(v: Value, base: Option<string>, path: seq<Visit>): Option<(Value, Option<string>)> {
    if path == [] then Some((v, base))
    else match Visited(v, base, path[0]) case Some(n) => Walk(n.0, n.1, path[1..]) case None => None
  }

  /** The variant at `i` gets a title that another one has, or that an earlier one gets as well. */
  ghost predicate Collides(variants: seq<Value>, base: Option<string>, i: nat)
    requires i < |variants|
  {
    exists title ::
      && !HasString(variants[i], "title") && base.Some? && TitleText(variants[i], base.value, title)
      && exists j :: 0 <= j < |variants|
           && (Titled(variants[j], title)
               || (j < i && !HasString(variants[j], "title") && TitleText(variants[j], base.value, title)))
  }

  /** Some list of variants of the node has a collision. */
  ghost predicate CollidesHere(v: Value, base: Option<string>) {
    exists key, i :: key in {"oneOf", "anyOf"} && HasArray(v, key) && 0 <= i < |v.fields[key].items|
                     && Collides(v.fields[key].items, base, i)
  }

  lemma ExistingMeans(variants: seq<Value>, title: string)
    ensures title in ExistingTitles(variants) <==> exists j :: 0 <= j < |variants| && Titled(variants[j], title)
  {
    forall j | 0 <= j < |variants| ensures Titled(variants[j], title) <==> TitleOf(variants[j]) == Some(title) {
      TitledMeans(variants[j], title);
    }
    if j :| 0 <= j < |variants| && Titled(variants[j], title) {
      assert TitleOf(variants[j]) == Some(title);
    }
  }

  lemma CollisionMeans(variants: seq<Value>, base: Option<string>, i: nat)
    requires i < |variants|
    ensures NoCollisionAt(variants, base, i) <==> !Collides(variants, base, i)
  {
    forall title ensures NewTitle(variants[i], base) == Some(title) <==>
                         !HasString(variants[i], "title") && base.Some? && TitleText(variants[i], base.value, title) {
      NewTitleMeans(variants[i], base, title);
    }
    if NewTitle(variants[i], base).Some? { CollidesWith(variants, base, i, NewTitle(variants[i], base).value); }
  }

  lemma CollidesWith(variants: seq<Value>, base: Option<string>, i: nat, title: string)
    requires i < |variants| && NewTitle(variants[i], base) == Some(title) && base.Some?
    ensures NoCollisionAt(variants, base, i) <==>
            !exists j :: 0 <= j < |variants|
              && (Titled(variants[j], title)
                  || (j < i && !HasString(variants[j], "title") && TitleText(variants[j], base.value, title)))
  {
    ExistingMeans(variants, title);
    forall j | 0 <= j < i
      ensures NewTitle(variants[j], base) == Some(title) <==>
              !HasString(variants[j], "title") && TitleText(variants[j], base.value, title)
    {
      NewTitleMeans(variants[j], base, title);
    }
  }

  lemma OkHere(v: Value, base: Option<string>)
    requires AnnotateOk(v, base)
    ensures !CollidesHere(v, base)
  {
    forall key, i | key in {"oneOf", "anyOf"} && HasArray(v, key) && 0 <= i < |v.fields[key].items|
      ensures !Collides(v.fields[key].items, base, i)
    {
      assert MemberOk(key, v.fields[key], base) && NoCollisionAt(v.fields[key].items, base, i);
      CollisionMeans(v.fields[key].items, base, i);
    }
  }

  lemma OkStep(v: Value, base: Option<string>, step: Visit)
    requires AnnotateOk(v, base) && Visited(v, base, step).Some?
    ensures AnnotateOk(Visited(v, base, step).value.0, Visited(v, base, step).value.1)
  {
    match step
    case Variant(key, _) => assert MemberOk(key, v.fields[key], base);
    case Definition(key, _) => assert MemberOk(key, v.fields[key], base);
    case Property(_) => assert MemberOk(PROPERTIES, v.fields[PROPERTIES], base);
    case Member(key) => assert MemberOk(key, v.fields[key], base);
    case Element(_) =>
  }

  lemma {:induction false} OkAlong(v: Value, base: Option<string>, path: seq<Visit>)
    requires AnnotateOk(v, base) && Walk(v, base, path).Some?
    ensures !CollidesHere(Walk(v, base, path).value.0, Walk(v, base, path).value.1)
    decreases |path|
  {
    OkHere(v, base);
    if path != [] {
      OkStep(v, base, path[0]);
      var n := Visited(v, base, path[0]).value;
      OkAlong(n.0, n.1, path[1..]);
    }
  }

  lemma WalkOn(v: Value, base: Option<string>, step: Visit, path: seq<Visit>)
    requires Visited(v, base, step).Some?
    ensures var n := Visited(v, base, step).value; Walk(v, base, [step] + path) == Walk(n.0, n.1, path)
  {
    assert ([step] + path)[1..] == path;
  }

  /** The path to a collision, when annotation is not in order. */
  lemma {:induction false} CollisionPath(v: Value, base: Option<string>) returns (path: seq<Visit>)
    requires !AnnotateOk(v, base)
    ensures Walk(v, base, path).Some? && CollidesHere(Walk(v, base, path).value.0, Walk(v, base, path).value.1)
    decreases v, 0
  {
    match v
    case Array(xs) =>
      var i :| 0 <= i < |xs| && !AnnotateOk(xs[i], base);
      path := CollisionPath(xs[i], base);
      WalkOn(v, base, Element(i), path);
      path := [Element(i)] + path;
    case Object(m) =>
      var k :| k in m && !MemberOk(k, m[k], base);
      path := MemberCollision(v, base, k, m[k]);
  }

  lemma {:induction false} MemberCollision(v: Value, base: Option<string>, key: string, child: Value)
    returns (path: seq<Visit>)
    requires Has(v, key) && child == v.fields[key] && !MemberOk(key, child, base)
    ensures Walk(v, base, path).Some? && CollidesHere(Walk(v, base, path).value.0, Walk(v, base, path).value.1)
    decreases child, 1
  {
    if key in VARIANT_KEYS {
      path := VariantCollision(v, base, key, child);
    } else if key in DEFINITION_KEYS {
      var n :| n in child.fields && !AnnotateOk(child.fields[n], Some(n));
      path := CollisionPath(child.fields[n], Some(n));
      WalkOn(v, base, Definition(key, n), path);
      path := [Definition(key, n)] + path;
    } else if key == PROPERTIES {
      var n :| n in child.fields && !AnnotateOk(child.fields[n], base);
      path := CollisionPath(child.fields[n], base);
      WalkOn(v, base, Property(n), path);
      path := [Property(n)] + path;
    } else {
      path := CollisionPath(child, base);
      WalkOn(v, base, Member(key), path);
      path := [Member(key)] + path;
    }
  }

  lemma {:induction false} VariantCollision(v: Value, base: Option<string>, key: string, child: Value)
    returns (path: seq<Visit>)
    requires Has(v, key) && child == v.fields[key] && key in VARIANT_KEYS && !MemberOk(key, child, base)
    ensures Walk(v, base, path).Some? && CollidesHere(Walk(v, base, path).value.0, Walk(v, base, path).value.1)
    decreases child, 0
  {
    path := [];
    if NoCollision(child.items, base) {
      var i :| 0 <= i < |child.items| && !AnnotateOk(child.items[i], base);
      path := CollisionPath(child.items[i], base);
      WalkOn(v, base, Variant(key, i), path);
      path := [Variant(key, i)] + path;
    } else {
      var i :| 0 <= i < |child.items| && !NoCollisionAt(child.items, base, i);
      CollisionMeans(child.items, base, i);
      assert Collides(v.fields[key].items, base, i);
    }
  }

  /** Annotation panics exactly when some list of variants that it visits has a collision of titles. */
  lemma PanicsExactly(v: Value, base: Option<string>)
    ensures AnnotateOk(v, base) <==>
            forall path :: Walk(v, base, path).Some? ==>
              !CollidesHere(Walk(v, base, path).value.0, Walk(v, base, path).value.1)
  {
    if AnnotateOk(v, base) {
      forall path | Walk(v, base, path).Some?
        ensures !CollidesHere(Walk(v, base, path).value.0, Walk(v, base, path).value.1)
      {
        OkAlong(v, base, path);
      }
    } else {
      var path := CollisionPath(v, base);
    }
  }
}
