/** Which imports of a generated file survive the filters, in terms of the text alone. */
module TsImports {
  import opened Wrappers
  import opened Selection
  import opened TsScan
  import opened TsText
  import opened TsFilter
  import opened TsFields
  import opened TsInterface

  /** The name occurs somewhere in the text. */
  ghost predicate Occurs(text: string, name: string) { exists i: nat :: i <= |text| && name <= text[i..] }

  /** The line reads `import type { name } from` something, up to blanks, with one name and no alias. */
  ghost predicate ImportAs(line: string, name: string, a: string, b: string, c: string, source: string) {
    && Blank(a) && Blank(b) && Blank(c) && !Blank(source)
    && line == a + ("import type {" + (b + name + c + ("} from " + source)))
    && Trimmed(name) && ',' !in name && Absent(name, " as ")
    && First(b + name + c + "} from ", "} from ", |b + name + c|)
  }

  ghost predicate Imports(line: string, name: string) {
    exists a, b, c, source :: ImportAs(line, name, a, b, c, source)
  }

  // ---------------------------------------------------------------- occurrences

  lemma {:induction false} FindOccurs(text: string, name: string)
    ensures Find(text, name).Some? <==> Occurs(text, name)
  {
    if name <= text {
      assert text[0..] == text;
    } else if text != "" {
      FindOccurs(text[1..], name);
      if Occurs(text[1..], name) {
        var i: nat :| i <= |text[1..]| && name <= text[1..][i..];
        assert text[i + 1..] == text[1..][i..];
      }
      if Occurs(text, name) {
        var i: nat :| i <= |text| && name <= text[i..];
        assert text[0..] == text && text[i..] == text[1..][i - 1..];
      }
    }
  }

  // ---------------------------------------------------------------- reading an import

  lemma {:induction false} TrimEndVisible(x: string, s: string)
    requires !Blank(s)
    ensures TrimEnd(x + s) == x + TrimEnd(s) && TrimEnd(s) != ""
    decreases |s|
  {
    var t := x + s;
    assert t[|t| - 1] == s[|s| - 1];
    if IsSpace(s[|s| - 1]) {
      assert t[..|t| - 1] == x + s[..|s| - 1];
      assert s == s[..|s| - 1] + [s[|s| - 1]];
      TrimEndVisible(x, s[..|s| - 1]);
    }
  }

  lemma NoAlias(name: string)
    ensures Find(name, " as ").None? <==> Absent(name, " as ")
  {
    FindMeans(name, " as ");
  }

  /** The name between the braces of a trimmed line. */
  lemma NameBetween(t: string, x: string, name: string, b: string, c: string, rest: string)
    requires x == b + name + c && Blank(b) && Blank(c) && Trimmed(name) && ',' !in name && Absent(name, " as ")
    requires First(x + FROM, FROM, |x|) && t == IMPORT + (x + (FROM + rest)) && Trim(t) == t
    ensures ImportedType(t) == Some(name)
  {
    var after := x + (FROM + rest);
    assert IMPORT <= t && t[|IMPORT|..] == after;
    Regroup(x, FROM, rest);
    FirstThen(x + FROM, rest, FROM, |x|);
    FindIs(after, FROM, |x|);
    assert t[|IMPORT|..|IMPORT| + |x|] == x;
    TrimOf(b, name, c);
    NoAlias(name);
  }

  lemma ImportedTypeOfTrim(line: string)
    ensures ImportedType(line) == ImportedType(Trim(line)) && Trim(Trim(line)) == Trim(line)
  {
    var before, after := TrimShape(line);
    if Trim(line) != "" { TrimOf("", Trim(line), ""); assert "" + Trim(line) + "" == Trim(line); }
  }

  lemma ReadImport(line: string, name: string, a: string, b: string, c: string, source: string)
    requires ImportAs(line, name, a, b, c, source)
    ensures ImportedType(line) == Some(name)
  {
    var x := b + name + c;
    var s := IMPORT + (x + (FROM + source));
    ImportedTypeOfTrim(line);
    assert s[0] == 'i' && !IsSpace(s[0]);
    TrimStartOf(a, s);
    var rest := TrimEnd(source);
    TrimEndVisible(IMPORT + (x + FROM), source);
    GroupImport(IMPORT, x, FROM, source);
    GroupImport(IMPORT, x, FROM, rest);
    NameBetween(Trim(line), x, name, b, c, rest);
  }

  lemma GroupImport(a: string, b: string, c: string, d: string)
    ensures a + (b + (c + d)) == a + (b + c) + d
  {
  }

  lemma ImportRead(line: string, name: string)
    requires ImportedType(line) == Some(name)
    ensures Imports(line, name)
  {
    var a, after := TrimShape(line);
    var t := Trim(line);
    var i := Find(t[|IMPORT|..], FROM).value;
    var x, rest := t[|IMPORT|..|IMPORT| + i], t[|IMPORT| + i + |FROM|..];
    var b, c := TrimShape(x);
    FindMeans(t[|IMPORT|..], FROM);
    AtFrom(t, i, x, rest);
    NoAlias(name);
    SourceVisible(t, x, rest, after);
    ImportFound(line, a, t, after, x, rest, name, b, c);
  }

  lemma ImportFound(line: string, a: string, t: string, after: string, x: string, rest: string,
                    name: string, b: string, c: string)
    requires line == a + t + after && t == IMPORT + (x + (FROM + rest)) && x == b + name + c
    requires Blank(a) && Blank(b) && Blank(c) && !Blank(rest + after)
    requires Trimmed(name) && ',' !in name && Absent(name, " as ") && First(x + FROM + rest, FROM, |x|)
    ensures Imports(line, name)
  {
    FirstCut(x + FROM, rest, FROM, |x|);
    GroupTail(a, IMPORT, x, FROM, rest, after);
    assert ImportAs(line, name, a, b, c, rest + after);
  }

  lemma GroupTail(a: string, b: string, c: string, d: string, e: string, f: string)
    ensures a + (b + (c + (d + e))) + f == a + (b + (c + (d + (e + f))))
  {
  }

  lemma AtFrom(t: string, i: nat, x: string, rest: string)
    requires IMPORT <= t && i + |FROM| <= |t| - |IMPORT| && At(t[|IMPORT|..], FROM, i)
    requires x == t[|IMPORT|..|IMPORT| + i] && rest == t[|IMPORT| + i + |FROM|..]
    ensures t[|IMPORT|..] == x + FROM + rest && t == IMPORT + (x + (FROM + rest))
  {
    var s := t[|IMPORT|..];
    assert s[i..i + |FROM|] == FROM;
    assert s == s[..i] + s[i..i + |FROM|] + s[i + |FROM|..];
  }

  /** A trimmed line does not end in the blank that ends the word `from`. */
  lemma SourceVisible(t: string, x: string, rest: string, after: string)
    requires Trimmed(t) && t == IMPORT + (x + (FROM + rest))
    ensures !Blank(rest + after)
  {
    Regroup(IMPORT, x, FROM + rest);
    EndsInBlank(IMPORT + x, rest, t);
    assert (rest + after)[|rest| - 1] == t[|t| - 1];
  }

  lemma EndsInBlank(p: string, rest: string, t: string)
    requires t == p + (FROM + rest)
    ensures rest == "" ==> !Trimmed(t)
  {
    if rest == "" { assert t[|t| - 1] == FROM[|FROM| - 1]; }
  }

  lemma ImportedTypeMeans(line: string, name: string)
    ensures ImportedType(line) == Some(name) <==> Imports(line, name)
  {
    if Imports(line, name) {
      var a, b, c, source :| ImportAs(line, name, a, b, c, source);
      ReadImport(line, name, a, b, c, source);
    }
    if ImportedType(line) == Some(name) { ImportRead(line, name); }
  }

  // ---------------------------------------------------------------- the lines that stay

  /** The line stays: whatever it imports occurs in the text. */
  ghost predicate Stays(line: string, text: string) { forall name :: Imports(line, name) ==> Occurs(text, name) }

  lemma StaysMeans(line: string, text: string)
    ensures Unused(line, text) <==> !Stays(line, text)
  {
    forall name ensures ImportedType(line) == Some(name) <==> Imports(line, name) { ImportedTypeMeans(line, name); }
    if ImportedType(line).Some? { FindOccurs(text, ImportedType(line).value); }
  }

  lemma {:induction false} UsedSelects(lines: seq<string>, text: string) returns (at: seq<nat>)
    ensures Selects(lines, at, Used(lines, text))
    ensures forall i: nat | i < |lines| :: i in at <==> Stays(lines[i], text)
  {
    if lines == [] {
      at := [];
    } else {
      var init, last := lines[..|lines| - 1], lines[|lines| - 1];
      at := UsedSelects(init, text);
      assert lines == init + [last];
      UsedConcat(init, [last], text);
      StaysMeans(last, text);
      SelectsNext(init, at, Used(init, text), last);
      if Stays(last, text) { at := at + [|init|]; }
      assert [last][1..] == [];
    }
  }
  /** The lines in front of the one in which the declaration begins. */
  function HeadLines(prefix: string): seq<string> { Lines(prefix[..HeadLength(prefix)]) }

  /** `kept` are the head lines, in order, that import nothing or something that occurs in the text. */
  ghost predicate KeepsUsed(prefix: string, at: seq<nat>, kept: seq<string>, text: string) {
    && Selects(HeadLines(prefix), at, kept)
    && forall i: nat | i < |HeadLines(prefix)| :: i in at <==> Stays(HeadLines(prefix)[i], text)
  }

  lemma PrunedSelects(prefix: string, text: string) returns (at: seq<nat>, kept: seq<string>)
    ensures Pruned(prefix, text) == Terminate(kept) + prefix[HeadLength(prefix)..]
    ensures KeepsUsed(prefix, at, kept, text)
  {
    kept := Used(HeadLines(prefix), text);
    at := UsedSelects(HeadLines(prefix), text);
  }

  /**
   Of the lines in front of a filtered union those stay, in order, whose import occurs in the new
   union, and those that import nothing. The rest of the file is as it was but for the union.
   */
  lemma UnionImports(content: string, methods: set<string>, filtered: string) returns (at: seq<nat>, kept: seq<string>)
    requires AliasFile(content) && filtered == FilterClientRequest(content, methods)
    ensures SplitTypeAlias(filtered).Some?
    ensures var a, b := SplitTypeAlias(content).value, SplitTypeAlias(filtered).value;
            && b.prefix == Terminate(kept) + a.prefix[HeadLength(a.prefix)..] && b.suffix == a.suffix
            && filtered == b.prefix + b.body + b.suffix
            && KeepsUsed(a.prefix, at, kept, b.body)
  {
    var a := SplitTypeAlias(content).value;
    var body := Join(KeptArms(a.body, methods), " | ");
    FilterClientRequestShape(content, methods);
    AliasOf(Alias(Pruned(a.prefix, body), body, a.suffix));
    at, kept := PrunedSelects(a.prefix, body);
  }

  /** The text in front of the object type: to the first '=', or through the interface marker. */
  function PrefixOfType(content: string): string {
    match FirstIndex(content, '=')
    case Some(eq) => content[..eq + 1]
    case None =>
      match Find(content, INTERFACE) case Some(i) => content[..i + |INTERFACE|] case None => content
  }

  /** The text in which imports must occur: the alias up to its last ';', or else the fields. */
  function TypeText(content: string): Option<string> {
    match SplitTypeAlias(content) case Some(alias) => Some(alias.body) case None => TypeBody(content)
  }

  /** The same for the field filter, on aliases and interfaces. */
  lemma FieldImports(content: string, names: set<string>, filtered: string) returns (at: seq<nat>, kept: seq<string>)
    requires TypeFile(content) && filtered == FilterTypeFields(content, names)
    ensures var prefix := PrefixOfType(content);
            && TypeText(filtered).Some? && KeepsUsed(prefix, at, kept, TypeText(filtered).value)
            && PrefixOfType(filtered) == Terminate(kept) + prefix[HeadLength(prefix)..]
  {
    if FieldFile(content) {
      var prefix, rest := FieldFilePrefix(content);
      FirstEquals(prefix, rest);
      at, kept := AliasFieldImports(prefix, rest, names, filtered);
    } else {
      var prefix, rest := InterfaceParts(content);
      InterfaceMarked(content, prefix, rest);
      PartsOf(prefix, rest);
      at, kept := InterfaceFieldImports(prefix, rest, names, filtered);
    }
  }

  lemma AliasFieldImports(prefix: string, rest: string, names: set<string>, filtered: string)
    returns (at: seq<nat>, kept: seq<string>)
    requires AliasPrefix(prefix) && BalancedBody(rest) && '\r' !in rest
    requires filtered == FilterTypeFields(prefix + rest, names)
    ensures TypeText(filtered).Some? && KeepsUsed(prefix, at, kept, TypeText(filtered).value)
    ensures PrefixOfType(filtered) == Terminate(kept) + prefix[HeadLength(prefix)..]
  {
    var inner := NewInner(rest, names);
    var rest' := Replaced(rest, inner);
    var scope := Scope(rest', inner);
    var prefix' := Pruned(prefix, scope);
    FilterTypeFieldsShape(prefix, rest, names);
    FilteredInner(prefix, rest, names);
    AliasText(prefix', rest', inner);
    at, kept := PrunedSelects(prefix, scope);
  }

  lemma AliasText(prefix: string, rest: string, inner: string)
    requires AliasPrefix(prefix) && TypeBody(prefix + rest) == Some(inner)
    ensures PrefixOfType(prefix + rest) == prefix && TypeText(prefix + rest) == Some(Scope(rest, inner))
  {
    FirstEquals(prefix, rest);
    AliasAfter(prefix, rest);
  }

  lemma InterfaceFieldImports(prefix: string, rest: string, names: set<string>, filtered: string)
    returns (at: seq<nat>, kept: seq<string>)
    requires InterfacePrefix(prefix) && BalancedBody(rest) && '\r' !in rest && '=' !in rest
    requires filtered == FilterTypeFields(prefix + rest, names)
    ensures TypeText(filtered).Some? && KeepsUsed(prefix, at, kept, TypeText(filtered).value)
    ensures PrefixOfType(filtered) == Terminate(kept) + prefix[HeadLength(prefix)..]
  {
    var inner := NewInner(rest, names);
    InterfaceShape(prefix, rest, names);
    InterfaceInner(prefix, rest, names);
    ReplacedPlain(rest, names);
    InterfaceText(Pruned(prefix, inner), Replaced(rest, inner), inner);
    at, kept := PrunedSelects(prefix, inner);
  }

  lemma InterfaceText(prefix: string, rest: string, inner: string)
    requires InterfacePrefix(prefix) && '=' !in rest && TypeBody(prefix + rest) == Some(inner)
    ensures PrefixOfType(prefix + rest) == prefix && TypeText(prefix + rest) == Some(inner)
  {
    InterfaceMarked(prefix + rest, prefix, rest);
    PartsOf(prefix, rest);
  }
}
