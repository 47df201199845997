/** Adding titles and rewriting references do not interfere. */
module SchemaTitleRefs {
  import opened Wrappers
  import opened Json
  import opened SchemaTitles

  /** What rewriting the references of an object makes of its member under `key`. */
  function MappedMember(key: string, child: Value, f: string -> string): Value {
    if key == REF && child.String? then String(f(child.text)) else MapRefs(child, f)
  }

  // ---------------------------------------------------------------- what the annotator reads

  lemma MapRefsKeepsStrings(v: Value, f: string -> string)
    ensures StringOf(MapRefs(v, f)) == StringOf(v)
  {
  }

  lemma MapRefsMember(v: Value, f: string -> string, key: string)
    ensures Has(MapRefs(v, f), key) == Has(v, key)
    ensures Has(v, key) ==> MapRefs(v, f).fields[key] == MappedMember(key, v.fields[key], f)
  {
  }

  lemma MappedLiteral(key: string, child: Value, f: string -> string)
    ensures StringLiteral(MappedMember(key, child, f)) == StringLiteral(child)
  {
    MapRefsMember(child, f, "const");
    MapRefsMember(child, f, "enum");
    if HasArray(child, "enum") && |child.fields["enum"].items| > 0 {
      MapRefsKeepsStrings(child.fields["enum"].items[0], f);
    }
  }

  lemma MapRefsKeepsTitle(v: Value, f: string -> string)
    ensures TitleOf(MapRefs(v, f)) == TitleOf(v)
  {
    MapRefsMember(v, f, TITLE);
  }

  lemma MappedLiterals(props: Value, f: string -> string)
    requires props.Object?
    ensures var w := MapRefs(props, f);
            && w.Object? && w.fields.Keys == props.fields.Keys
            && forall n | n in props.fields :: StringLiteral(w.fields[n]) == StringLiteral(props.fields[n])
  {
    forall n | n in props.fields
      ensures StringLiteral(MapRefs(props, f).fields[n]) == StringLiteral(props.fields[n])
    {
      MapRefsMember(props, f, n);
      MappedLiteral(n, props.fields[n], f);
    }
  }

  lemma MapRefsKeepsName(v: Value, f: string -> string, name: string)
    ensures VariantName(name, MapRefs(v, f)) == VariantName(name, v)
  {
    MapRefsMember(v, f, PROPERTIES);
    if HasObject(v, PROPERTIES) {
      MappedLiterals(v.fields[PROPERTIES], f);
      NameFromKeysAndLiterals(name, v.fields[PROPERTIES].fields, MapRefs(v, f).fields[PROPERTIES].fields);
    }
    MapRefsMember(v, f, "required");
    if HasArray(v, "required") && |v.fields["required"].items| == 1 {
      MapRefsKeepsStrings(v.fields["required"].items[0], f);
    }
  }

  lemma MapRefsKeepsNewTitle(v: Value, f: string -> string, base: Option<string>)
    ensures NewTitle(MapRefs(v, f), base) == NewTitle(v, base)
  {
    MapRefsKeepsTitle(v, f);
    if base.Some? { MapRefsKeepsName(v, f, base.value); }
  }

  lemma MappedDiscriminator(key: string, child: Value, owner: Option<string>, f: string -> string)
    ensures DiscriminatorTitle(key, MappedMember(key, child, f), owner) == DiscriminatorTitle(key, child, owner)
  {
    MappedLiteral(key, child, f);
    MapRefsMember(child, f, TITLE);
  }

  // ---------------------------------------------------------------- the two passes commute

  lemma MappedAnnotate(key: string, child: Value, title: Option<string>, base: Option<string>, f: string -> string)
    requires Annotate(MapRefs(child, f), title, base) == MapRefs(Annotate(child, title, base), f)
    ensures Annotate(MappedMember(key, child, f), title, base) == MappedMember(key, Annotate(child, title, base), f)
  {
    AnnotateKeepsStrings(child, title, base);
  }

  /** Annotating after rewriting the references is rewriting them after annotating. */
  lemma {:induction false} AnnotateMapRefs(v: Value, title: Option<string>, base: Option<string>, f: string -> string)
    ensures Annotate(MapRefs(v, f), title, base) == MapRefs(Annotate(v, title, base), f)
    decreases v, 0
  {
    var a, b := Annotate(MapRefs(v, f), title, base), MapRefs(Annotate(v, title, base), f);
    match v
    case Array(xs) =>
      forall i | 0 <= i < |xs| ensures a.items[i] == b.items[i] { AnnotateMapRefs(xs[i], None, base, f); }
      assert a.items == b.items;
    case Object(m) =>
      forall k | k in a.fields ensures a.fields[k] == b.fields[k] {
        if !(k == TITLE && title.Some?) { MemberMapRefs(k, m[k], Owner(v, title), base, f); }
        FieldMapRefs(v, title, base, f, k);
      }
      assert a.fields == b.fields;
    case _ =>
  }

  lemma FieldMapRefs(v: Value, title: Option<string>, base: Option<string>, f: string -> string, k: string)
    requires v.Object? && k in Annotate(MapRefs(v, f), title, base).fields
    requires !(k == TITLE && title.Some?) ==>
               AnnotateMember(k, MappedMember(k, v.fields[k], f), Owner(v, title), base)
               == MappedMember(k, AnnotateMember(k, v.fields[k], Owner(v, title), base), f)
    ensures k in MapRefs(Annotate(v, title, base), f).fields
    ensures Annotate(MapRefs(v, f), title, base).fields[k] == MapRefs(Annotate(v, title, base), f).fields[k]
  {
    MapRefsKeepsTitle(v, f);
    MapRefsMember(v, f, k);
    MapRefsMember(Annotate(v, title, base), f, k);
  }

  lemma {:induction false} MemberMapRefs(key: string, child: Value, owner: Option<string>, base: Option<string>,
                                         f: string -> string)
    ensures AnnotateMember(key, MappedMember(key, child, f), owner, base)
         == MappedMember(key, AnnotateMember(key, child, owner, base), f)
    decreases child, 2
  {
    if key in VARIANT_KEYS && child.Array? {
      VariantsMapRefs(key, child, owner, base, f);
    } else if key in DEFINITION_KEYS && child.Object? {
      DefinitionsMapRefs(key, child, owner, base, f);
    } else if key == PROPERTIES && child.Object? {
      PropertiesMapRefs(key, child, owner, base, f);
    } else if !(key in VARIANT_KEYS || key in DEFINITION_KEYS || key == PROPERTIES) {
      AnnotateMapRefs(child, None, base, f);
      MappedAnnotate(key, child, None, base, f);
    }
  }

  lemma {:induction false} VariantsMapRefs(key: string, child: Value, owner: Option<string>, base: Option<string>,
                                           f: string -> string)
    requires key in VARIANT_KEYS && child.Array?
    ensures AnnotateMember(key, MapRefs(child, f), owner, base) == MapRefs(AnnotateMember(key, child, owner, base), f)
    decreases child, 1
  {
    var a := AnnotateMember(key, MapRefs(child, f), owner, base);
    var b := MapRefs(AnnotateMember(key, child, owner, base), f);
    forall i | 0 <= i < |child.items| ensures a.items[i] == b.items[i] {
      MapRefsKeepsNewTitle(child.items[i], f, base);
      AnnotateMapRefs(child.items[i], NewTitle(child.items[i], base), base, f);
    }
    assert a.items == b.items;
  }

  lemma {:induction false} DefinitionsMapRefs(key: string, child: Value, owner: Option<string>, base: Option<string>,
                                              f: string -> string)
    requires key in DEFINITION_KEYS && child.Object?
    ensures AnnotateMember(key, MapRefs(child, f), owner, base) == MapRefs(AnnotateMember(key, child, owner, base), f)
    decreases child, 1
  {
    var a := AnnotateMember(key, MapRefs(child, f), owner, base);
    var b := MapRefs(AnnotateMember(key, child, owner, base), f);
    forall n | n in child.fields ensures a.fields[n] == b.fields[n] {
      AnnotateMapRefs(child.fields[n], None, Some(n), f);
      MappedAnnotate(n, child.fields[n], None, Some(n), f);
      MapRefsMember(child, f, n);
      MapRefsMember(AnnotateMember(key, child, owner, base), f, n);
    }
    assert a.fields == b.fields;
  }

  lemma {:induction false} PropertiesMapRefs(key: string, child: Value, owner: Option<string>, base: Option<string>,
                                             f: string -> string)
    requires key == PROPERTIES && child.Object?
    ensures AnnotateMember(key, MapRefs(child, f), owner, base) == MapRefs(AnnotateMember(key, child, owner, base), f)
    decreases child, 1
  {
    var a := AnnotateMember(key, MapRefs(child, f), owner, base);
    var b := MapRefs(AnnotateMember(key, child, owner, base), f);
    forall n | n in child.fields ensures a.fields[n] == b.fields[n] {
      var title := DiscriminatorTitle(n, child.fields[n], owner);
      MappedDiscriminator(n, child.fields[n], owner, f);
      AnnotateMapRefs(child.fields[n], title, base, f);
      MappedAnnotate(n, child.fields[n], title, base, f);
      MapRefsMember(child, f, n);
      MapRefsMember(AnnotateMember(key, child, owner, base), f, n);
    }
    assert a.fields == b.fields;
  }
}
