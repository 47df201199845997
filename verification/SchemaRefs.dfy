/**
 Reference strings of the schema bundle: the string rewriters of the exporter, and the
 meaning of a reference as a JSON Pointer into a document (section 8.3 of JSON Schema Core
 draft-07, sections 4 and 6 of RFC 6901).
 */
module SchemaRefs {
  import opened Wrappers
  import opened Json

  const DEFINITIONS := "definitions"
  const DEFS := "#/definitions/"

  /** A name that is a single JSON Pointer token and needs no escaping. */
  predicate Plain(name: string) {
    '/' !in name && '~' !in name
  }

  // ---------------------------------------------------------------- string rewriters

  function NamespaceRef(r: string, ns: string): string {
    if DEFS <= r && !(ns + "/" <= r[|DEFS|..]) then DEFS + ns + "/" + r[|DEFS|..] else r
  }

  /** The part of `s` before its first '/'. */
  function Segment(s: string): string {
    if s == "" || s[0] == '/' then "" else [s[0]] + Segment(s[1..])
  }

  predicate IsDigit(c: char) { '0' <= c <= '9' }

  function TrimDigits(s: string): string {
    if s != "" && IsDigit(s[|s| - 1]) then TrimDigits(s[..|s| - 1]) else s
  }

  /** The namespace that owns a definition, by exact name or by name without numeric suffix. */
  function NamespaceFor(name: string, types: map<string, string>): Option<string> {
    if name in types then Some(types[name])
    else if TrimDigits(name) != name && TrimDigits(name) in types then Some(types[TrimDigits(name)])
    else None
  }

  function KnownRef(r: string, types: map<string, string>): string {
    if DEFS <= r then
      match NamespaceFor(Segment(r[|DEFS|..]), types)
      case Some(ns) => DEFS + ns + "/" + r[|DEFS|..]
      case None => r
    else r
  }

  function NamedRef(r: string, ns: string, name: string): string {
    var direct := DEFS + name;
    if r == direct then DEFS + ns + "/" + name
    else if direct + "/" <= r then DEFS + ns + "/" + name + "/" + r[|direct| + 1..]
    else r
  }

  /** The references to a name, and to anything inside it, follow it into its namespace; no other changes. */
  lemma NamedRefMeans(r: string, ns: string, name: string)
    ensures r == "#/definitions/" + name ==> NamedRef(r, ns, name) == "#/definitions/" + ns + "/" + name
    ensures forall rest :: r == "#/definitions/" + name + "/" + rest ==>
              NamedRef(r, ns, name) == "#/definitions/" + ns + "/" + name + "/" + rest
    ensures r != "#/definitions/" + name && !("#/definitions/" + name + "/" <= r) ==> NamedRef(r, ns, name) == r
  {
    var direct := DEFS + name;
    forall rest | r == "#/definitions/" + name + "/" + rest
      ensures NamedRef(r, ns, name) == "#/definitions/" + ns + "/" + name + "/" + rest
    {
      assert r == direct + "/" + rest && r[|direct| + 1..] == rest;
      assert |r| > |direct|;
    }
  }

  /** Replace every non-overlapping occurrence of `pattern`, left to right. */
  function ReplaceAll(s: string, pattern: string, replacement: string): string
    requires pattern != ""
  {
    if s == "" then ""
    else if pattern <= s then replacement + ReplaceAll(s[|pattern|..], pattern, replacement)
    else [s[0]] + ReplaceAll(s[1..], pattern, replacement)
  }

  predicate Contains(s: string, pattern: string) {
    exists i :: 0 <= i <= |s| - |pattern| && pattern <= s[i..]
  }

  lemma AbsentFromSuffix(s: string, k: nat, pattern: string)
    requires k <= |s| && !Contains(s, pattern)
    ensures !Contains(s[k..], pattern)
  {
  }

  lemma {:induction false} ReplaceAllAbsent(s: string, pattern: string, replacement: string)
    requires pattern != "" && !Contains(s, pattern)
    ensures ReplaceAll(s, pattern, replacement) == s
  {
    if s != "" {
      assert s == s[0..];
      AbsentFromSuffix(s, 1, pattern);
      ReplaceAllAbsent(s[1..], pattern, replacement);
    }
  }

  lemma {:induction false} ReplaceAllShrinks(s: string, pattern: string, replacement: string)
    requires |replacement| < |pattern|
    ensures |ReplaceAll(s, pattern, replacement)| <= |s|
    ensures Contains(s, pattern) ==> |ReplaceAll(s, pattern, replacement)| < |s|
  {
    if s == "" {
    } else if pattern <= s {
      ReplaceAllShrinks(s[|pattern|..], pattern, replacement);
    } else {
      ReplaceAllShrinks(s[1..], pattern, replacement);
      if Contains(s, pattern) {
        var i :| 0 <= i <= |s| - |pattern| && pattern <= s[i..];
        assert s == s[0..] && s[i..] == s[1..][i - 1..];
      }
    }
  }

  function NamespacePrefix(ns: string): string {
    DEFS + ns + "/"
  }

  /** Rewriting into a namespace a second time changes nothing, whatever the reference. */
  lemma NamespaceRefIdempotent(r: string, ns: string)
    ensures NamespaceRef(NamespaceRef(r, ns), ns) == NamespaceRef(r, ns)
  {
  }

  /** Replacing the namespace prefix undoes the namespace rewriter on every reference without it. */
  lemma NamespaceRefInverse(r: string, ns: string)
    requires !Contains(r, NamespacePrefix(ns))
    ensures ReplaceAll(NamespaceRef(r, ns), NamespacePrefix(ns), DEFS) == r
  {
    var p := NamespacePrefix(ns);
    if DEFS <= r {
      var suffix := r[|DEFS|..];
      assert r == r[0..] && r == DEFS + suffix;
      assert (ns + "/" <= suffix) == (p <= r[0..]);
      assert NamespaceRef(r, ns) == p + suffix;
      AbsentFromSuffix(r, |DEFS|, p);
      assert (p + suffix)[|p|..] == suffix;
      ReplaceAllAbsent(suffix, p, DEFS);
    } else {
      ReplaceAllAbsent(r, p, DEFS);
    }
  }

  // ---------------------------------------------------------------- references as pointers

  function Tokens(s: string): seq<string>
    decreases |s|
  {
    SegmentLength(s);
    if |Segment(s)| == |s| then [s] else [Segment(s)] + Tokens(s[|Segment(s)| + 1..])
  }

  lemma {:induction false} SegmentLength(s: string)
    ensures |Segment(s)| <= |s|
  {
    if s != "" && s[0] != '/' { SegmentLength(s[1..]); }
  }

  /** "~1" stands for '/' and then "~0" for '~' (section 4 of RFC 6901). */
  function Unescape(token: string): string {
    ReplaceAll(ReplaceAll(token, "~1", "/"), "~0", "~")
  }

  function Follow(v: Value, path: seq<string>): Option<Value> {
    if path == [] then Some(v)
    else
      match v
      case Object(m) => if Unescape(path[0]) in m then Follow(m[Unescape(path[0])], path[1..]) else None
      case Array(xs) =>
        (match ArrayIndex(path[0])
         case Some(i) => if i < |xs| then Follow(xs[i], path[1..]) else None
         case None => None)
      case _ => None
  }

  /** Decimal digits without a leading zero (section 4 of RFC 6901). */
  function ArrayIndex(token: string): Option<nat> {
    if token == "" || (|token| > 1 && token[0] == '0') || (exists c | c in token :: !IsDigit(c)) then None
    else Some(Decimal(token))
  }

  function Decimal(digits: string): (n: int)
    ensures n >= 0
    requires forall c | c in digits :: IsDigit(c)
  {
    if digits == "" then 0
    else
      var last := digits[|digits| - 1];
      assert last in digits && IsDigit(last) && last as int >= 48;
      10 * Decimal(digits[..|digits| - 1]) + (last as int - '0' as int)
  }

  /** What a same-document reference denotes in `doc`. */
  function Resolve(doc: Value, r: string): Option<Value> {
    if r == "#" then Some(doc)
    else if "#/" <= r then Follow(doc, Tokens(r[2..]))
    else None
  }

  lemma {:induction false} SegmentOf(a: string, rest: string)
    requires '/' !in a
    ensures Segment(a + "/" + rest) == a
    ensures Segment(a) == a
  {
    if a == "" {
      assert (a + "/" + rest)[0] == '/';
    } else {
      assert (a + "/" + rest)[1..] == a[1..] + "/" + rest;
      assert forall c :: c in a[1..] ==> c in a;
      SegmentOf(a[1..], rest);
    }
  }

  lemma TokensOf(a: string, rest: string)
    requires '/' !in a
    ensures Tokens(a + "/" + rest) == [a] + Tokens(rest)
    ensures Tokens(a) == [a]
  {
    SegmentOf(a, rest);
    assert (a + "/" + rest)[|a| + 1..] == rest;
  }

  lemma UnescapePlain(name: string)
    requires '~' !in name
    ensures Unescape(name) == name
  {
    forall i | 0 <= i < |name| ensures name[i..][0] != '~' {}
    ReplaceAllAbsent(name, "~1", "/");
    ReplaceAllAbsent(name, "~0", "~");
  }

  lemma FollowPlain(v: Value, key: string, path: seq<string>)
    requires v.Object? && '~' !in key
    ensures Follow(v, [key] + path) == if key in v.fields then Follow(v.fields[key], path) else None
  {
    UnescapePlain(key);
    assert ([key] + path)[1..] == path;
  }

  lemma FollowDefinitions(doc: Value, rest: string)
    requires HasObject(doc, DEFINITIONS)
    ensures Resolve(doc, DEFS + rest) == Follow(doc.fields[DEFINITIONS], Tokens(rest))
  {
    assert DEFS[2..] == DEFINITIONS + "/";
    assert (DEFS + rest)[2..] == DEFINITIONS + "/" + rest;
    assert '/' !in DEFINITIONS && '~' !in DEFINITIONS;
    TokensOf(DEFINITIONS, rest);
    FollowPlain(doc, DEFINITIONS, Tokens(rest));
  }

  /** A root reference denotes the root definition of that name. */
  lemma ResolveRoot(doc: Value, name: string)
    requires HasObject(doc, DEFINITIONS) && Plain(name)
    ensures var defs := doc.fields[DEFINITIONS].fields;
            Resolve(doc, DEFS + name) == if name in defs then Some(defs[name]) else None
  {
    FollowDefinitions(doc, name);
    TokensOf(name, "");
    FollowPlain(doc.fields[DEFINITIONS], name, []);
    assert [name] + [] == [name];
  }

  /** A namespaced reference denotes the definition of that name inside the namespace, if there is one. */
  lemma ResolveNamespaced(doc: Value, ns: string, name: string)
    requires HasObject(doc, DEFINITIONS) && Plain(name) && Plain(ns)
    requires ns in doc.fields[DEFINITIONS].fields ==> doc.fields[DEFINITIONS].fields[ns].Object?
    ensures var defs := doc.fields[DEFINITIONS].fields;
            Resolve(doc, NamespacePrefix(ns) + name) ==
            if ns in defs && name in defs[ns].fields then Some(defs[ns].fields[name]) else None
  {
    var inner, defs := ns + "/" + name, doc.fields[DEFINITIONS];
    assert NamespacePrefix(ns) + name == DEFS + inner;
    FollowDefinitions(doc, inner);
    TokensOf(ns, name);
    TokensOf(name, "");
    FollowPlain(defs, ns, [name]);
    if ns in defs.fields { FollowPlain(defs.fields[ns], name, []); }
    assert [name] + [] == [name];
  }
}
