/** The serialised text is JSON for the document, by the grammar of RFC 8259 without insignificant white space. */
module JsonGrammar {
  import opened JsonText

  function Together(parts: seq<string>): string {
    if parts == [] then "" else parts[0] + Together(parts[1..])
  }

  /** The parts with commas between them. */
  function Commas(parts: seq<string>): string {
    if parts == [] then "" else if |parts| == 1 then parts[0] else parts[0] + "," + Commas(parts[1..])
  }

  /** The value of a small hexadecimal digit. */
  predicate Hex(c: char, n: int) {
    ('0' <= c <= '9' && n == c as int - '0' as int) || ('a' <= c <= 'f' && n == 10 + c as int - 'a' as int)
  }

  /** How a character is written inside a string (section 7): as itself unless it must be escaped. */
  ghost predicate CharText(p: string, c: char) {
    || (c != '"' && c != '\\' && c >= ' ' && p == [c])
    || (c == '"' && p == "\\\"")
    || (c == '\\' && p == "\\\\")
    || (c == '\U{0008}' && p == "\\b")
    || (c == '\t' && p == "\\t")
    || (c == '\n' && p == "\\n")
    || (c == '\U{000C}' && p == "\\f")
    || (c == '\r' && p == "\\r")
    || (c < ' ' && c !in {'\U{0008}', '\t', '\n', '\U{000C}', '\r'} && |p| == 6 && p[..4] == "\\u00"
        && exists a, b :: Hex(p[4], a) && Hex(p[5], b) && c as int == 16 * a + b)
  }

  ghost predicate StringText(text: string, s: string) {
    exists parts: seq<string> :: |parts| == |s| && (forall i | 0 <= i < |s| :: CharText(parts[i], s[i]))
                                 && text == "\"" + Together(parts) + "\""
  }

  /** The text stands for the document (sections 3 to 7). */
  ghost predicate Denotes(text: string, v: Doc)
    decreases v
  {
    match v
    case Null => text == "null"
    case Bool(b) => text == if b then "true" else "false"
    case Number(literal) => text == literal
    case String(s) => StringText(text, s)
    case Array(xs) =>
      exists parts: seq<string> :: |parts| == |xs| && (forall i | 0 <= i < |xs| :: Denotes(parts[i], xs[i]))
                                   && text == "[" + Commas(parts) + "]"
    case Object(es) =>
      exists parts: seq<string> :: |parts| == |es| && (forall i | 0 <= i < |es| :: Member(parts[i], es, i))
                                   && text == "{" + Commas(parts) + "}"
  }

  ghost predicate Member(text: string, es: seq<Entry>, i: nat)
    requires i < |es|
    decreases es, 0
  {
    exists k, t :: StringText(k, es[i].key) && Denotes(t, es[i].value) && text == k + ":" + t
  }

  ghost predicate Members(parts: seq<string>, es: seq<Entry>) {
    |parts| == |es| && forall i | 0 <= i < |es| :: Member(parts[i], es, i)
  }

  // ---------------------------------------------------------------- strings

  lemma EscapeCharText(c: char)
    ensures CharText(EscapeChar(c), c)
  {
    if c < ' ' && c !in {'\U{0008}', '\t', '\n', '\U{000C}', '\r'} {
      var p := EscapeChar(c);
      assert p[..4] == "\\u00";
      assert Hex(p[4], c as int / 16) && Hex(p[5], c as int % 16);
    }
  }

  lemma {:induction false} EscapeParts(s: string) returns (parts: seq<string>)
    ensures |parts| == |s| && (forall i | 0 <= i < |s| :: CharText(parts[i], s[i])) && Together(parts) == Escape(s)
  {
    if s == "" {
      parts := [];
    } else {
      var rest := EscapeParts(s[1..]);
      EscapeCharText(s[0]);
      parts := [EscapeChar(s[0])] + rest;
      assert parts[1..] == rest;
    }
  }

  lemma QuotedText(s: string)
    ensures StringText(Quoted(s), s)
  {
    var parts := EscapeParts(s);
    assert Quoted(s) == "\"" + Together(parts) + "\"";
  }

  // ---------------------------------------------------------------- documents

  lemma {:induction false} ItemTexts(xs: seq<Doc>, first: bool) returns (parts: seq<string>)
    ensures |parts| == |xs| && forall i | 0 <= i < |xs| :: Denotes(parts[i], xs[i])
    ensures SerializeItems(xs, first) == (if first || xs == [] then "" else ",") + Commas(parts) + "]"
    decreases xs
  {
    if xs == [] {
      parts := [];
    } else {
      SerializeDenotes(xs[0]);
      var rest := ItemTexts(xs[1..], false);
      parts := [Serialize(xs[0])] + rest;
      CommasFirst(Serialize(xs[0]), rest, parts, "]");
    }
  }

  lemma CommasFirst(p: string, rest: seq<string>, parts: seq<string>, close: string)
    requires parts == [p] + rest
    ensures Commas(parts) + close == p + ((if rest == [] then "" else ",") + Commas(rest) + close)
  {
    assert parts[1..] == rest;
  }

  lemma {:induction false} EntryTexts(es: seq<Entry>, first: bool) returns (parts: seq<string>)
    ensures Members(parts, es)
    ensures SerializeEntries(es, first) == (if first || es == [] then "" else ",") + Commas(parts) + "}"
    decreases es
  {
    if es == [] {
      parts := [];
    } else {
      SerializeDenotes(es[0].value);
      var rest := EntryTexts(es[1..], false);
      parts := [SerializeEntry(es[0])] + rest;
      FirstMember(es);
      LaterMembers(es, rest, parts);
      EntriesText(es, first, rest, parts);
    }
  }

  lemma EntriesText(es: seq<Entry>, first: bool, rest: seq<string>, parts: seq<string>)
    requires es != [] && |rest| == |es| - 1 && parts == [SerializeEntry(es[0])] + rest
    requires SerializeEntries(es[1..], false) == (if es[1..] == [] then "" else ",") + Commas(rest) + "}"
    ensures SerializeEntries(es, first) == (if first then "" else ",") + Commas(parts) + "}"
  {
    CommasFirst(SerializeEntry(es[0]), rest, parts, "}");
    Regrouped(if first then "" else ",", Commas(parts), "}");
  }

  lemma Regrouped(a: string, b: string, c: string)
    ensures a + b + c == a + (b + c)
  {
  }

  lemma FirstMember(es: seq<Entry>)
    requires es != [] && Denotes(Serialize(es[0].value), es[0].value)
    ensures Member(SerializeEntry(es[0]), es, 0)
  {
    var k, t := Quoted(es[0].key), Serialize(es[0].value);
    QuotedText(es[0].key);
    assert SerializeEntry(es[0]) == k + ":" + t;
  }

  lemma LaterMembers(es: seq<Entry>, rest: seq<string>, parts: seq<string>)
    requires es != [] && Members(rest, es[1..])
    requires |parts| == |es| && parts[1..] == rest && Member(parts[0], es, 0)
    ensures Members(parts, es)
  {
    forall i | 1 <= i < |es| ensures Member(parts[i], es, i) {
      assert Member(rest[i - 1], es[1..], i - 1);
      LaterMember(es, rest, parts, i);
    }
  }

  lemma LaterMember(es: seq<Entry>, rest: seq<string>, parts: seq<string>, i: nat)
    requires 1 <= i < |es| && |rest| == |es| - 1 && Member(rest[i - 1], es[1..], i - 1)
    requires |parts| == |es| && parts[1..] == rest
    ensures Member(parts[i], es, i)
  {
    var k, t :| StringText(k, es[1..][i - 1].key) && Denotes(t, es[1..][i - 1].value) && rest[i - 1] == k + ":" + t;
    assert es[i] == es[1..][i - 1] && parts[i] == rest[i - 1];
  }

  lemma ArrayText(xs: seq<Doc>, parts: seq<string>, text: string)
    requires |parts| == |xs| && forall i | 0 <= i < |xs| :: Denotes(parts[i], xs[i])
    requires text == "[" + (Commas(parts) + "]")
    ensures Denotes(text, Array(xs))
  {
    assert text == "[" + Commas(parts) + "]";
  }

  lemma ObjectText(es: seq<Entry>, parts: seq<string>, text: string)
    requires Members(parts, es)
    requires text == "{" + (Commas(parts) + "}")
    ensures Denotes(text, Object(es))
  {
    assert text == "{" + Commas(parts) + "}";
  }

  /** The serialiser writes JSON. */
  lemma {:induction false} SerializeDenotes(v: Doc)
    ensures Denotes(Serialize(v), v)
    decreases v
  {
    match v
    case String(s) => QuotedText(s);
    case Array(xs) =>
      var parts := ItemTexts(xs, true);
      assert "" + Commas(parts) + "]" == Commas(parts) + "]";
      ArrayText(xs, parts, Serialize(v));
    case Object(es) =>
      var parts := EntryTexts(es, true);
      assert "" + Commas(parts) + "}" == Commas(parts) + "}";
      ObjectText(es, parts, Serialize(v));
    case _ =>
  }
}
