/**
 Documents whose object entries keep their order, and their compact serialisation. The text
 determines the document: this is what makes serialisation usable as a tie breaker.
 */
module JsonText {

  datatype Entry = Entry(key: string, value: Doc)

  datatype Doc =
    | Null
    | Bool(b: bool)
    | Number(literal: string)
    | String(text: string)
    | Array(items: seq<Doc>)
    | Object(entries: seq<Entry>)

  predicate NumberChar(c: char) {
    '0' <= c <= '9' || c == '+' || c == '-' || c == '.' || c == 'e' || c == 'E'
  }

  predicate NumberLiteral(s: string) {
    s != "" && forall c | c in s :: NumberChar(c)
  }

  /** Number literals are spelled with number characters, at every depth. */
  predicate NumbersOk(v: Doc) {
    match v
    case Number(s) => NumberLiteral(s)
    case Array(xs) => forall i | 0 <= i < |xs| :: NumbersOk(xs[i])
    case Object(es) => forall i | 0 <= i < |es| :: NumbersOk(es[i].value)
    case _ => true
  }

  function HexDigit(n: int): char
    requires 0 <= n < 16
  {
    "0123456789abcdef"[n]
  }

  /** The escape of one character (section 7 of RFC 8259, in the form the serialiser uses). */
  function EscapeChar(c: char): string {
    if c == '"' then "\\\""
    else if c == '\\' then "\\\\"
    else if c == 8 as char then "\\b"
    else if c == 12 as char then "\\f"
    else if c == '\n' then "\\n"
    else if c == '\r' then "\\r"
    else if c == '\t' then "\\t"
    else if c < ' ' then "\\u00" + [HexDigit(c as int / 16), HexDigit(c as int % 16)]
    else [c]
  }

  function Escape(s: string): string {
    if s == "" then "" else EscapeChar(s[0]) + Escape(s[1..])
  }

  function Quoted(s: string): string {
    "\"" + (Escape(s) + "\"")
  }

  function Serialize(v: Doc): string
    decreases v
  {
    match v
    case Null => "null"
    case Bool(b) => if b then "true" else "false"
    case Number(literal) => literal
    case String(s) => Quoted(s)
    case Array(xs) => "[" + SerializeItems(xs, true)
    case Object(es) => "{" + SerializeEntries(es, true)
  }

  function Separator(first: bool): string {
    if first then "" else ","
  }

  /** The remaining items of an array and its closing bracket. */
  function SerializeItems(xs: seq<Doc>, first: bool): string
    decreases xs
  {
    if xs == [] then "]" else Separator(first) + (Serialize(xs[0]) + SerializeItems(xs[1..], false))
  }

  function SerializeEntry(e: Entry): string
    decreases e
  {
    Quoted(e.key) + (":" + Serialize(e.value))
  }

  function SerializeEntries(es: seq<Entry>, first: bool): string
    decreases es
  {
    if es == [] then "}" else Separator(first) + (SerializeEntry(es[0]) + SerializeEntries(es[1..], false))
  }

  // ---------------------------------------------------------------- unique decoding

  /** The first two characters of an escape tell its length. */
  function EscapeLength(t: string): nat {
    if t == "" || t[0] != '\\' then 1 else if |t| == 1 || t[1] != 'u' then 2 else 6
  }

  lemma EscapeShape(c: char, r: string)
    ensures |EscapeChar(c)| == EscapeLength(EscapeChar(c) + r)
  {
  }

  lemma EscapeInjective(c: char, d: char)
    requires EscapeChar(c) == EscapeChar(d)
    ensures c == d
  {
    var e, f := EscapeChar(c), EscapeChar(d);
    if |e| == 6 {
      assert e[4] == f[4] && e[5] == f[5];
    } else if |e| == 2 {
      assert e[1] == f[1];
    } else {
      assert e[0] == f[0];
    }
  }

  lemma EscapeCharUnique(c: char, d: char, r: string, s: string)
    requires EscapeChar(c) + r == EscapeChar(d) + s
    ensures c == d && r == s
  {
    var t := EscapeChar(c) + r;
    EscapeShape(c, r);
    EscapeShape(d, s);
    assert EscapeChar(c) == t[..|EscapeChar(c)|] == EscapeChar(d);
    assert r == t[|EscapeChar(c)|..] == s;
    EscapeInjective(c, d);
  }

  /** An escaped string, its closing quote, and what follows. */
  function EscapeThen(s: string, rest: string): string {
    if s == "" then "\"" + rest else EscapeChar(s[0]) + EscapeThen(s[1..], rest)
  }

  lemma {:induction false} EscapeThenIs(s: string, rest: string)
    ensures Escape(s) + "\"" + rest == EscapeThen(s, rest)
  {
    if s != "" {
      EscapeThenIs(s[1..], rest);
      GroupThree(EscapeChar(s[0]), Escape(s[1..]), "\"", rest);
    }
  }

  lemma GroupThree(a: string, b: string, c: string, d: string)
    ensures (a + b) + c + d == a + (b + c + d)
  {
  }

  lemma EscapeThenHead(s: string, rest: string)
    ensures EscapeThen(s, rest) != "" && (EscapeThen(s, rest)[0] == '"' <==> s == "")
  {
  }

  lemma {:induction false} EscapeUnique(a: string, b: string, r: string, s: string)
    requires EscapeThen(a, r) == EscapeThen(b, s)
    ensures a == b && r == s
  {
    EscapeThenHead(a, r);
    EscapeThenHead(b, s);
    if a == "" {
      assert EscapeThen(a, r)[1..] == r && EscapeThen(b, s)[1..] == s;
    } else {
      EscapeCharUnique(a[0], b[0], EscapeThen(a[1..], r), EscapeThen(b[1..], s));
      EscapeUnique(a[1..], b[1..], r, s);
      assert a == [a[0]] + a[1..] && b == [b[0]] + b[1..];
    }
  }

  lemma QuotedUnique(a: string, b: string, r: string, s: string)
    requires Quoted(a) + r == Quoted(b) + s
    ensures a == b && r == s
  {
    EscapeThenIs(a, r);
    EscapeThenIs(b, s);
    AfterQuote(a, r);
    AfterQuote(b, s);
    EscapeUnique(a, b, r, s);
  }

  lemma AfterQuote(a: string, r: string)
    ensures (Quoted(a) + r)[1..] == Escape(a) + "\"" + r
  {
  }

  /** What may follow a value inside a document, or at its end. */
  predicate Delimited(r: string) {
    r == "" || r[0] == ',' || r[0] == ']' || r[0] == '}'
  }

  lemma NumberHead(a: string, r: string)
    requires (forall c | c in a :: NumberChar(c)) && Delimited(r)
    ensures if a == "" then a + r == r && (r == "" || !NumberChar(r[0])) else (a + r)[0] == a[0] && NumberChar(a[0])
  {
  }

  lemma {:induction false} NumberUnique(a: string, b: string, r: string, s: string)
    requires (forall c | c in a :: NumberChar(c)) && (forall c | c in b :: NumberChar(c))
    requires Delimited(r) && Delimited(s) && a + r == b + s
    ensures a == b && r == s
  {
    NumberHead(a, r);
    NumberHead(b, s);
    if a != "" {
      assert (a + r)[1..] == a[1..] + r && (b + s)[1..] == b[1..] + s;
      assert (forall c | c in a[1..] :: c in a) && (forall c | c in b[1..] :: c in b);
      NumberUnique(a[1..], b[1..], r, s);
      assert a == [a[0]] + a[1..] && b == [b[0]] + b[1..];
    }
  }

  /** The first character of a serialised value tells its kind. */
  function Kind(v: Doc): nat {
    match v
    case Null => 0
    case Bool(b) => if b then 1 else 2
    case Number(_) => 3
    case String(_) => 4
    case Array(_) => 5
    case Object(_) => 6
  }

  function KindOf(c: char): nat {
    if c == 'n' then 0
    else if c == 't' then 1
    else if c == 'f' then 2
    else if NumberChar(c) then 3
    else if c == '"' then 4
    else if c == '[' then 5
    else if c == '{' then 6
    else 7
  }

  lemma SerializeHead(v: Doc, r: string)
    requires NumbersOk(v)
    ensures Serialize(v) + r != "" && KindOf((Serialize(v) + r)[0]) == Kind(v) < 7
  {
    if v.Number? { assert v.literal[0] in v.literal; }
    assert (Serialize(v) + r)[0] == Serialize(v)[0];
  }

  lemma ItemsDelimited(xs: seq<Doc>, r: string)
    ensures Delimited(SerializeItems(xs, false) + r)
  {
  }

  lemma EntriesDelimited(es: seq<Entry>, r: string)
    ensures Delimited(SerializeEntries(es, false) + r)
  {
  }

  lemma Regroup(a: string, b: string, c: string, r: string)
    ensures (a + (b + c)) + r == a + (b + (c + r))
  {
  }

  lemma Cancel(head: string, a: string, b: string)
    requires head + a == head + b
    ensures a == b
  {
    assert a == (head + a)[|head|..] && b == (head + b)[|head|..];
  }

  lemma DropFirst(head: string, a: string, r: string, b: string, s: string)
    requires (head + a) + r == (head + b) + s
    ensures a + r == b + s
  {
    assert ((head + a) + r)[|head|..] == a + r;
    assert ((head + b) + s)[|head|..] == b + s;
  }

  /** A serialised value can be read back without looking past its end. */
  lemma {:induction false} SerializeUnique(v: Doc, w: Doc, r: string, s: string)
    requires NumbersOk(v) && NumbersOk(w) && Delimited(r) && Delimited(s)
    requires Serialize(v) + r == Serialize(w) + s
    ensures v == w && r == s
    decreases v
  {
    SerializeHead(v, r);
    SerializeHead(w, s);
    match v
    case Number(a) => NumberUnique(a, w.literal, r, s);
    case String(a) => QuotedUnique(a, w.text, r, s);
    case Array(xs) =>
      DropFirst("[", SerializeItems(xs, true), r, SerializeItems(w.items, true), s);
      ItemsUnique(xs, w.items, true, r, s);
    case Object(es) =>
      DropFirst("{", SerializeEntries(es, true), r, SerializeEntries(w.entries, true), s);
      EntriesUnique(es, w.entries, true, r, s);
    case _ =>
      Cancel(Serialize(v), r, s);
  }

  lemma ItemsHead(xs: seq<Doc>, first: bool, r: string)
    requires forall i | 0 <= i < |xs| :: NumbersOk(xs[i])
    ensures var t := SerializeItems(xs, first) + r;
            t != "" && (t[0] == ']' <==> xs == []) && (xs == [] ==> t[1..] == r)
            && (xs != [] ==> t == Separator(first) + (Serialize(xs[0]) + (SerializeItems(xs[1..], false) + r)))
  {
    var t := SerializeItems(xs, first) + r;
    if xs == [] {
      assert t == "]" + r;
    } else {
      var item, tail := Serialize(xs[0]), SerializeItems(xs[1..], false);
      Regroup(Separator(first), item, tail, r);
      SerializeHead(xs[0], tail + r);
      assert t[0] == if first then (item + (tail + r))[0] else ',';
    }
  }

  lemma {:induction false} ItemsUnique(xs: seq<Doc>, ys: seq<Doc>, first: bool, r: string, s: string)
    requires (forall i | 0 <= i < |xs| :: NumbersOk(xs[i])) && (forall i | 0 <= i < |ys| :: NumbersOk(ys[i]))
    requires SerializeItems(xs, first) + r == SerializeItems(ys, first) + s
    ensures xs == ys && r == s
    decreases xs
  {
    ItemsHead(xs, first, r);
    ItemsHead(ys, first, s);
    if xs != [] {
      var r', s' := SerializeItems(xs[1..], false) + r, SerializeItems(ys[1..], false) + s;
      Cancel(Separator(first), Serialize(xs[0]) + r', Serialize(ys[0]) + s');
      ItemsDelimited(xs[1..], r);
      ItemsDelimited(ys[1..], s);
      SerializeUnique(xs[0], ys[0], r', s');
      ItemsUnique(xs[1..], ys[1..], false, r, s);
      assert xs == [xs[0]] + xs[1..] && ys == [ys[0]] + ys[1..];
    }
  }

  lemma EntriesHead(es: seq<Entry>, first: bool, r: string)
    ensures var t := SerializeEntries(es, first) + r;
            t != "" && (t[0] == '}' <==> es == []) && (es == [] ==> t[1..] == r)
            && (es != [] ==> t == Separator(first) + (Quoted(es[0].key)
                                  + (":" + (Serialize(es[0].value) + (SerializeEntries(es[1..], false) + r)))))
  {
    if es != [] {
      GroupEntry(Separator(first), Quoted(es[0].key), Serialize(es[0].value), SerializeEntries(es[1..], false), r);
    }
  }

  lemma GroupEntry(separator: string, key: string, value: string, rest: string, r: string)
    ensures separator + ((key + (":" + value)) + rest) + r == separator + (key + (":" + (value + (rest + r))))
  {
  }

  lemma {:induction false} EntriesUnique(es: seq<Entry>, fs: seq<Entry>, first: bool, r: string, s: string)
    requires forall i | 0 <= i < |es| :: NumbersOk(es[i].value)
    requires forall i | 0 <= i < |fs| :: NumbersOk(fs[i].value)
    requires SerializeEntries(es, first) + r == SerializeEntries(fs, first) + s
    ensures es == fs && r == s
    decreases es
  {
    EntriesHead(es, first, r);
    EntriesHead(fs, first, s);
    if es != [] {
      var r', s' := SerializeEntries(es[1..], false) + r, SerializeEntries(fs[1..], false) + s;
      var v, w := Serialize(es[0].value) + r', Serialize(fs[0].value) + s';
      Cancel(Separator(first), Quoted(es[0].key) + (":" + v), Quoted(fs[0].key) + (":" + w));
      QuotedUnique(es[0].key, fs[0].key, ":" + v, ":" + w);
      assert (":" + v)[1..] == v && (":" + w)[1..] == w;
      EntriesDelimited(es[1..], r);
      EntriesDelimited(fs[1..], s);
      SerializeUnique(es[0].value, fs[0].value, r', s');
      EntriesUnique(es[1..], fs[1..], false, r, s);
      assert es == [es[0]] + es[1..] && fs == [fs[0]] + fs[1..];
    }
  }

  /** Different documents have different texts. */
  lemma SerializeInjective(v: Doc, w: Doc)
    requires NumbersOk(v) && NumbersOk(w) && Serialize(v) == Serialize(w)
    ensures v == w
  {
    assert Serialize(v) + "" == Serialize(w) + "";
    SerializeUnique(v, w, "", "");
  }
}
