/** Which name the field filter reads in a generated field. */
module TsProperty {
  import opened Wrappers
  import opened TsScan
  import opened TsText
  import opened TsFilter
  import opened TsFields
  import opened TsInterface
  import opened TsArm

  const OPEN := "/*"
  const CLOSE := "*/"

  /** A block comment and the blanks behind it. */
  datatype Comment = Comment(text: string, blank: string) {
    /** The comment ends where its text does. */
    predicate Valid() { First(text + CLOSE, CLOSE, |text|) && Blank(blank) }
  }

  function Leading(comments: seq<Comment>): string {
    if comments == [] then "" else OPEN + (comments[0].text + CLOSE + (comments[0].blank + Leading(comments[1..])))
  }

  /** The name as it is written, bare or between double quotes. */
  function Spelled(name: string, quoted: bool): string {
    if quoted then Literal(name) else name
  }

  predicate Spellable(name: string, quoted: bool) {
    if quoted then PlainLiteral(name) else name != "" && forall c | c in name :: IdentChar(c)
  }

  /** A field: block comments, a name, perhaps a '?', the ':' and the type. */
  function Field(comments: seq<Comment>, name: string, quoted: bool, optional: bool, rest: string): string {
    Leading(comments) + Declared(name, quoted, optional, rest)
  }

  function Declared(name: string, quoted: bool, optional: bool, rest: string): string {
    Spelled(name, quoted) + ((if optional then "?" else "") + (":" + rest))
  }

  // ---------------------------------------------------------------- the comments

  /** Text that is neither blank nor a comment at its start. */
  predicate Bare(s: string) { s != "" && !IsSpace(s[0]) && !(OPEN <= s) }

  lemma LeadingHead(comments: seq<Comment>, s: string)
    requires Bare(s)
    ensures Leading(comments) + s != "" && !IsSpace((Leading(comments) + s)[0])
  {
    if comments == [] { assert "" + s == s; }
  }

  /** One comment is skipped, with the blanks behind it. */
  lemma SkipOne(c: Comment, s: string, text: string)
    requires c.Valid() && s != "" && !IsSpace(s[0]) && text == OPEN + (c.text + CLOSE + (c.blank + s))
    ensures SkipComments(text) == SkipComments(s)
  {
    var after := c.text + CLOSE + (c.blank + s);
    assert OPEN <= text && text[2..] == after;
    FirstThen(c.text + CLOSE, c.blank + s, CLOSE, |c.text|);
    FindIs(after, CLOSE, |c.text|);
    assert after[|c.text| + 2..] == c.blank + s;
    TrimStartOf(c.blank, s);
  }

  lemma {:induction false} SkipLeading(comments: seq<Comment>, s: string)
    requires (forall c | c in comments :: c.Valid()) && Bare(s)
    ensures SkipComments(Leading(comments) + s) == s
  {
    if comments == [] {
      assert "" + s == s;
    } else {
      var c, tail := comments[0], Leading(comments[1..]);
      assert c in comments && forall d | d in comments[1..] :: d in comments;
      SkipLeading(comments[1..], s);
      LeadingHead(comments[1..], s);
      GroupComment(OPEN, c.text + CLOSE, c.blank, tail, s);
      SkipOne(c, tail + s, Leading(comments) + s);
    }
  }

  lemma GroupComment(open: string, text: string, blank: string, tail: string, s: string)
    ensures open + (text + (blank + tail)) + s == open + (text + (blank + (tail + s)))
  {
  }

  // ---------------------------------------------------------------- the name

  lemma {:induction false} IdentOf(name: string, rest: string)
    requires (forall c | c in name :: IdentChar(c)) && rest != "" && !IdentChar(rest[0])
    ensures Ident(name + rest) == name
  {
    if name == "" {
      assert name + rest == rest;
    } else {
      assert name[0] in name && forall c | c in name[1..] :: c in name;
      assert (name + rest)[0] == name[0] && (name + rest)[1..] == name[1..] + rest;
      IdentOf(name[1..], rest);
    }
  }

  lemma BareName(name: string, optional: bool, rest: string)
    requires Spellable(name, false)
    ensures ParsePropertyName(Declared(name, false, optional, rest)) == Some(name)
    ensures Bare(Declared(name, false, optional, rest))
  {
    var mark := if optional then "?" else "";
    var s := Declared(name, false, optional, rest);
    assert s[0] == name[0] && name[0] in name;
    assert s == "" + (name + ("" + (mark + (":" + rest))));
    assert BareAs(s, name, "", "", mark, rest);
    ReadBare(s, name, "", "", mark, rest);
  }

  lemma AfterLiteral(t: string, name: string, n: nat, after: string)
    requires TrimStart(t) == t && ParseStringLiteral(t) == Some((name, n))
    requires t[n..] == after && TrimStart(after) == after
    ensures ParsePropertyName(t) == if ":" <= after then Some(name) else None
  {
  }

  /** After a name in quotes the reader does not allow a '?'. */
  lemma QuotedName(name: string, optional: bool, rest: string)
    requires Spellable(name, true)
    ensures ParsePropertyName(Declared(name, true, optional, rest)) == if optional then None else Some(name)
    ensures Bare(Declared(name, true, optional, rest))
  {
    var after := (if optional then "?" else "") + (":" + rest);
    var s := Declared(name, true, optional, rest);
    assert s == Literal(name) + after && s[0] == '"' && OPEN[0] != s[0];
    ParsedLiteral(name, after);
    assert s[|Literal(name)|..] == after;
    assert after[0] == if optional then '?' else ':';
    AfterLiteral(s, name, |Literal(name)|, after);
    assert ":" <= after <==> !optional;
  }

  // ---------------------------------------------------------------- the field

  lemma FieldName(comments: seq<Comment>, name: string, quoted: bool, optional: bool, rest: string)
    requires (forall c | c in comments :: c.Valid()) && Spellable(name, quoted)
    ensures ParsePropertyName(StripLeadingBlockComments(Field(comments, name, quoted, optional, rest)))
         == if quoted && optional then None else Some(name)
  {
    var s := Declared(name, quoted, optional, rest);
    if quoted { QuotedName(name, optional, rest); } else { BareName(name, optional, rest); }
    LeadingHead(comments, s);
    SkipLeading(comments, s);
  }

  /** Such a field is kept exactly when its name is not experimental, or is both quoted and optional. */
  lemma FieldKept(comments: seq<Comment>, name: string, quoted: bool, optional: bool, rest: string, names: set<string>)
    requires (forall c | c in comments :: c.Valid()) && Spellable(name, quoted)
    ensures KeepField(Field(comments, name, quoted, optional, rest), names) <==> name !in names || (quoted && optional)
  {
    FieldName(comments, name, quoted, optional, rest);
  }
  // ---------------------------------------------------------------- what counts as a property

  function Together(units: seq<string>): string {
    if units == [] then "" else units[0] + Together(units[1..])
  }

  /** A character of a literal: any but its quote and the backslash, or a backslash and the one it escapes. */
  predicate Unit(u: string, quote: char) {
    (|u| == 1 && u[0] != quote && u[0] != '\\') || (|u| == 2 && u[0] == '\\')
  }

  ghost predicate LiteralText(name: string, quote: char) {
    exists units: seq<string> :: (forall u | u in units :: Unit(u, quote)) && Together(units) == name
  }

  /** The field begins with a name in quotes and a ':', up to blanks. */
  ghost predicate QuotedAs(input: string, name: string, a: string, q: char, b: string, rest: string) {
    && Blank(a) && Blank(b) && q in {'"', '\''} && LiteralText(name, q)
    && input == a + ([q] + name + [q] + (b + (":" + rest)))
  }

  /** The field begins with a bare name, perhaps a '?', and a ':', up to blanks. */
  ghost predicate BareAs(input: string, name: string, a: string, b: string, mark: string, rest: string) {
    && Blank(a) && Blank(b) && Spellable(name, false)
    && (mark == "" || (mark != "" && mark[0] == '?' && Blank(mark[1..])))
    && input == a + (name + (b + (mark + (":" + rest))))
  }

  ghost predicate Property(input: string, name: string) {
    || (exists a, q, b, rest :: QuotedAs(input, name, a, q, b, rest))
    || (exists a, b, mark, rest :: BareAs(input, name, a, b, mark, rest))
  }

  // ---------------------------------------------------------------- literals

  lemma {:induction false} LiteralUnits(s: string, i: nat, quote: char) returns (units: seq<string>)
    requires i <= |s| && LiteralEnd(s, i, quote, false).Some?
    ensures (forall u | u in units :: Unit(u, quote))
    ensures var j := LiteralEnd(s, i, quote, false).value; Together(units) == s[i..j] && s[j] == quote
    decreases |s| - i
  {
    units := [];
    if s[i] == quote && s[i] != '\\' {
    } else if s[i] == '\\' {
      var rest := LiteralUnits(s, i + 2, quote);
      units := [s[i..i + 2]] + rest;
      assert units[1..] == rest;
    } else {
      var rest := LiteralUnits(s, i + 1, quote);
      units := [s[i..i + 1]] + rest;
      assert units[1..] == rest;
    }
  }

  lemma {:induction false} UnitsEnd(s: string, i: nat, quote: char, units: seq<string>, j: nat)
    requires i <= j < |s| && (forall u | u in units :: Unit(u, quote)) && quote != '\\'
    requires Together(units) == s[i..j] && s[j] == quote
    ensures LiteralEnd(s, i, quote, false) == Some(j)
    decreases |units|
  {
    if units != [] {
      var u, tail := units[0], Together(units[1..]);
      assert u in units && forall v | v in units[1..] :: v in units;
      assert s[i..j] == u + tail;
      assert s[i] == s[i..j][0] == u[0];
      assert s[i + |u|..j] == s[i..j][|u|..] == tail;
      UnitsEnd(s, i + |u|, quote, units[1..], j);
    }
  }
  lemma BlankThen(s: string) returns (blank: string, rest: string)
    ensures s == blank + rest && Blank(blank) && rest == TrimStart(s) && (rest != "" ==> !IsSpace(rest[0]))
  {
    var k := TrimStartShape(s);
    blank, rest := s[..k], s[k..];
  }

  lemma ReadQuoted(input: string, name: string, a: string, q: char, b: string, rest: string)
    requires QuotedAs(input, name, a, q, b, rest)
    ensures ParsePropertyName(input) == Some(name)
  {
    var after := b + (":" + rest);
    var t := [q] + name + [q] + after;
    TrimStartOf(a, t);
    var units :| (forall u | u in units :: Unit(u, q)) && Together(units) == name;
    assert t[1..1 + |name|] == name && t[1 + |name|] == q && t[0] == q;
    UnitsEnd(t, 1, q, units, 1 + |name|);
    assert t[|name| + 2..] == after;
    TrimStartOf(b, ":" + rest);
    assert ":" <= ":" + rest;
  }

  lemma QuotedParts(t: string, name: string, n: nat) returns (q: char)
    requires ParseStringLiteral(t) == Some((name, n))
    ensures q in {'"', '\''} && LiteralText(name, q) && n <= |t| && t == [q] + name + [q] + t[n..]
  {
    q := t[0];
    var units := LiteralUnits(t, 1, q);
    assert t == [t[0]] + t[1..n - 1] + [t[n - 1]] + t[n..];
  }

  lemma ParsedQuoted(input: string, t: string, name: string)
    requires t == TrimStart(input) && ParseStringLiteral(t).Some? && ParsePropertyName(input) == Some(name)
    ensures ParseStringLiteral(t).value.0 == name && ":" <= TrimStart(t[ParseStringLiteral(t).value.1..])
  {
  }

  lemma QuotedRead(input: string, name: string)
    requires ParsePropertyName(input) == Some(name) && ParseStringLiteral(TrimStart(input)).Some?
    ensures Property(input, name)
  {
    var a, t := BlankThen(input);
    ParsedQuoted(input, t, name);
    var n := ParseStringLiteral(t).value.1;
    var q := QuotedParts(t, name, n);
    var b, colon := BlankThen(t[n..]);
    QuotedFound(input, name, a, t, q, b, colon, t[n..]);
  }

  lemma QuotedFound(input: string, name: string, a: string, t: string, q: char, b: string, colon: string, after: string)
    requires input == a + t && t == [q] + name + [q] + after && after == b + colon && ":" <= colon
    requires Blank(a) && Blank(b) && q in {'"', '\''} && LiteralText(name, q)
    ensures Property(input, name)
  {
    assert colon == ":" + colon[1..];
    assert QuotedAs(input, name, a, q, b, colon[1..]);
  }

  /** What follows a bare name. */
  lemma AfterBare(b: string, mark: string, rest: string, after: string)
    requires Blank(b) && (mark == "" || (mark[0] == '?' && Blank(mark[1..]))) && after == b + (mark + (":" + rest))
    ensures after != "" && !IdentChar(after[0])
    ensures TrimStart(after) == mark + (":" + rest) && ("?" <= TrimStart(after) <==> mark != "")
    ensures mark != "" ==> TrimStart(TrimStart(after)[1..]) == ":" + rest
    ensures mark == "" ==> TrimStart(after) == ":" + rest
  {
    assert b != "" ==> b[0] in b;
    TrimStartOf(b, mark + (":" + rest));
    if mark != "" {
      assert (mark + (":" + rest))[1..] == mark[1..] + (":" + rest);
      TrimStartOf(mark[1..], ":" + rest);
    } else {
      assert mark + (":" + rest) == ":" + rest;
    }
  }

  lemma ReadBare(input: string, name: string, a: string, b: string, mark: string, rest: string)
    requires BareAs(input, name, a, b, mark, rest)
    ensures ParsePropertyName(input) == Some(name)
  {
    var after := b + (mark + (":" + rest));
    var t := name + after;
    assert name[0] in name && t[0] == name[0];
    TrimStartOf(a, t);
    AfterBare(b, mark, rest, after);
    IdentOf(name, after);
    assert t[|name|..] == after && ":" <= ":" + rest;
  }

  lemma {:induction false} IdentChars(s: string)
    ensures forall c | c in Ident(s) :: IdentChar(c)
  {
    if s != "" && IdentChar(s[0]) { IdentChars(s[1..]); }
  }

  lemma ParsedBare(input: string, t: string, name: string, r: string)
    requires t == TrimStart(input) && ParseStringLiteral(t).None? && ParsePropertyName(input) == Some(name)
    requires r == TrimStart(t[|Ident(t)|..])
    ensures name == Ident(t) && name != ""
    ensures if "?" <= r then ":" <= TrimStart(r[1..]) else ":" <= r
  {
  }

  lemma BareRead(input: string, name: string)
    requires ParsePropertyName(input) == Some(name) && ParseStringLiteral(TrimStart(input)).None?
    ensures Property(input, name)
  {
    var a, t := BlankThen(input);
    var b, r := BlankThen(t[|Ident(t)|..]);
    ParsedBare(input, t, name, r);
    IdentPlain(t, name);
    assert input == a + t && t == name + (b + r);
    BareEnds(input, name, a, t, b, r);
  }

  lemma IdentPlain(t: string, name: string)
    requires name == Ident(t) && name != ""
    ensures Spellable(name, false) && t == name + t[|name|..]
  {
    IdentChars(t);
  }

  lemma BareEnds(input: string, name: string, a: string, t: string, b: string, r: string)
    requires input == a + t && t == name + (b + r) && Blank(a) && Blank(b) && Spellable(name, false)
    requires if "?" <= r then ":" <= TrimStart(r[1..]) else ":" <= r
    ensures Property(input, name)
  {
    if "?" <= r {
      var c, colon := BlankThen(r[1..]);
      assert r == "?" + r[1..];
      BareFound(input, name, a, t, b, "?" + c, colon, r);
    } else {
      BareFound(input, name, a, t, b, "", r, r);
    }
  }

  lemma BareFound(input: string, name: string, a: string, t: string, b: string, mark: string, colon: string, r: string)
    requires input == a + t && t == name + (b + r) && r == mark + colon && ":" <= colon
    requires Blank(a) && Blank(b) && Spellable(name, false)
    requires mark == "" || (mark[0] == '?' && Blank(mark[1..]))
    ensures Property(input, name)
  {
    assert colon == ":" + colon[1..];
    assert BareAs(input, name, a, b, mark, colon[1..]);
  }

  /** The reader finds a name exactly in fields that begin with it, quoted or bare, and a ':'. */
  lemma PropertyNameMeans(input: string, name: string)
    ensures ParsePropertyName(input) == Some(name) <==> Property(input, name)
  {
    if ParsePropertyName(input) == Some(name) {
      if ParseStringLiteral(TrimStart(input)).Some? { QuotedRead(input, name); } else { BareRead(input, name); }
    }
    if exists a, q, b, rest :: QuotedAs(input, name, a, q, b, rest) {
      var a, q, b, rest :| QuotedAs(input, name, a, q, b, rest);
      ReadQuoted(input, name, a, q, b, rest);
    }
    if exists a, b, mark, rest :: BareAs(input, name, a, b, mark, rest) {
      var a, b, mark, rest :| BareAs(input, name, a, b, mark, rest);
      ReadBare(input, name, a, b, mark, rest);
    }
  }
}
