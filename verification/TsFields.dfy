/** Dropping experimental fields from the object type of a generated TypeScript file. */
module TsFields {
  import opened Wrappers
  import opened TsScan
  import opened TsText
  import opened TsFilter
  import opened TsSpan

  const INTERFACE := "export interface"
  const FIELD_ENDS := {',', ';'}

  /** The braces of the object type: after the first '=', or else after an interface marker. */
  function TypeBodySpan(content: string): (r: Option<(nat, nat)>)
    ensures r.Some? ==> r.value.0 < r.value.1 < |content|
  {
    match FirstIndex(content, '=')
    case Some(eq) => SpanAfter(content, eq + 1)
    case None => MarkerSpan(content, INTERFACE)
  }

  /** The braces after the first marker. */
  function MarkerSpan(content: string, marker: string): (r: Option<(nat, nat)>)
    ensures r.Some? ==> r.value.0 < r.value.1 < |content|
  {
    match Find(content, marker)
    case Some(i) => SpanAfter(content, i + |marker|)
    case None => None
  }

  function SpanAfter(content: string, n: nat): (r: Option<(nat, nat)>)
    requires n <= |content|
    ensures r.Some? ==> r.value.0 < r.value.1 < |content|
  {
    Shift(BraceSpan(content[n..]), n)
  }

  function Shift(span: Option<(nat, nat)>, offset: nat): Option<(nat, nat)> {
    match span case Some(s) => Some((s.0 + offset, s.1 + offset)) case None => None
  }

  function StripLeadingBlockComments(input: string): string {
    SkipComments(TrimStart(input))
  }

  function SkipComments(rest: string): string
    decreases |rest|
  {
    if !("/*" <= rest) then rest
    else
      match Find(rest[2..], "*/")
      case None => rest
      case Some(end) =>
        TrimStartShorter(rest[2..][end + 2..]);
        SkipComments(TrimStart(rest[2..][end + 2..]))
  }

  lemma TrimStartShorter(s: string)
    ensures |TrimStart(s)| <= |s|
  {
  }

  predicate KeepField(field: string, names: set<string>) {
    var name := ParsePropertyName(StripLeadingBlockComments(field));
    name.Some? ==> name.value !in names
  }

  function KeptFields(inner: string, names: set<string>): seq<string> {
    Filter(Split(inner, FIELD_ENDS), field => KeepField(field, names))
  }

  function FilterTypeFields(content: string, names: set<string>): string {
    match TypeBodySpan(content)
    case None => content
    case Some(span) => FilterBetween(content, span.0, span.1, names)
  }

  function FilterBetween(content: string, open: nat, close: nat, names: set<string>): string
    requires open < close < |content|
  {
    var inner := Join(KeptFields(content[open + 1..close], names), ", ");
    WithBody(Splice(content, open, close, inner), inner)
  }

  /** The text between the braces of the object type. */
  function TypeBody(content: string): Option<string> {
    match TypeBodySpan(content) case Some(span) => Some(content[span.0 + 1..span.1]) case None => None
  }

  /** Put `inner` between the braces. */
  function Splice(content: string, open: nat, close: nat, inner: string): string
    requires open < close < |content|
  {
    content[..open + 1] + inner + content[close..]
  }

  // ---------------------------------------------------------------- balanced text

  /** No '}' outside a string is met at brace depth zero. */
  predicate NoDip(s: Scan, text: string)
    decreases |text|
  {
    text == "" || (!(text[0] == '}' && !s.InString() && s.brace == 0) && NoDip(Next(s, text[0]), text[1..]))
  }

  /** Text the scanner finds balanced: every bracket is closed, and no brace closes too early. */
  predicate Balanced(text: string) {
    Closed(text) && NoDip(START, text)
  }

  lemma {:induction false} NoDipConcat(s: Scan, a: string, b: string)
    ensures NoDip(s, a + b) <==> NoDip(s, a) && NoDip(Run(s, a), b)
    decreases |a|
  {
    if a == "" {
      assert a + b == b;
    } else {
      assert (a + b)[0] == a[0] && (a + b)[1..] == a[1..] + b;
      NoDipConcat(Next(s, a[0]), a[1..], b);
    }
  }

  lemma TrimBalanced(part: string)
    requires Balanced(part)
    ensures Balanced(Trim(part))
  {
    var before, after := TrimShape(part);
    assert part == before + (Trim(part) + after);
    AlwaysUncut(START, part);
    TrimKeepsScan(part, {});
    RunBlank(START, before);
    NoDipConcat(START, before, Trim(part) + after);
    NoDipConcat(START, Trim(part), after);
  }

  lemma {:induction false} AlwaysUncut(s: Scan, text: string)
    ensures Uncut(s, text, {})
    decreases |text|
  {
    if text != "" { AlwaysUncut(Next(s, text[0]), text[1..]); }
  }

  /** The parts of balanced text are balanced. */
  lemma {:induction false} SplitBalanced(s: Scan, current: string, rest: string)
    requires s == Run(START, current) && NoDip(START, current) && NoDip(s, rest) && Run(s, rest) == START
    ensures forall p | p in SplitFrom(s, current, rest, FIELD_ENDS) :: Balanced(p)
    decreases |rest|
  {
    if rest == "" {
      TrimBalanced(current);
    } else if Cuts(s, rest[0], FIELD_ENDS) {
      RunProper(START, current);
      assert s == START;
      TrimBalanced(current);
      SplitBalanced(Next(s, rest[0]), "", rest[1..]);
    } else {
      RunConcat(START, current, [rest[0]]);
      NoDipConcat(START, current, [rest[0]]);
      SplitBalanced(Next(s, rest[0]), current + [rest[0]], rest[1..]);
    }
  }

  lemma BalancedConcat(a: string, b: string)
    requires Balanced(a) && Balanced(b)
    ensures Balanced(a + b)
  {
    RunConcat(START, a, b);
    NoDipConcat(START, a, b);
  }

  lemma {:induction false} JoinBalanced(parts: seq<string>)
    requires forall p | p in parts :: Balanced(p)
    ensures Balanced(Join(parts, ", "))
  {
    if parts != [] {
      assert parts[0] in parts && forall p | p in parts[1..] :: p in parts;
      if |parts| > 1 {
        JoinBalanced(parts[1..]);
        assert Balanced(", ");
        BalancedConcat(parts[0], ", ");
        BalancedConcat(parts[0] + ", ", Join(parts[1..], ", "));
      }
    }
  }

  // ---------------------------------------------------------------- finding the braces again

  /** The same state one brace deeper. */
  function Deeper(s: Scan): Scan { s.(brace := s.brace + 1) }

  /** Text that closes no brace too early scans alike inside one more brace. */
  lemma {:induction false} RunDeeper(s: Scan, x: string)
    requires NoDip(s, x)
    ensures Run(Deeper(s), x) == Deeper(Run(s, x))
    decreases |x|
  {
    if x != "" {
      NextDeeper(s, x[0]);
      RunDeeper(Next(s, x[0]), x[1..]);
    }
  }

  lemma NextDeeper(s: Scan, c: char)
    requires !(c == '}' && !s.InString() && s.brace == 0)
    ensures Next(Deeper(s), c) == Deeper(Next(s, c))
  {
  }

  /** Inside the braces around such a text, the scanner never returns to top level. */
  lemma RunInside(text: string, o: nat, inner: string, k: nat)
    requires o < |text| && Run(START, text[..o + 1]) == Deeper(START) && NoDip(START, inner) && k <= |inner|
    requires o + 1 + |inner| <= |text| && text[o + 1..o + 1 + |inner|] == inner
    ensures Run(START, text[..o + 1 + k]) == Deeper(Run(START, inner[..k]))
  {
    NoDipPrefix(inner, k);
    PrefixThen(text, o + 1, inner, k);
    RunAfterOpen(text[..o + 1], inner[..k], text[..o + 1 + k]);
  }

  lemma NoDipPrefix(x: string, k: nat)
    requires NoDip(START, x) && k <= |x|
    ensures NoDip(START, x[..k])
  {
    assert x == x[..k] + x[k..];
    NoDipConcat(START, x[..k], x[k..]);
  }

  lemma RunAfterOpen(head: string, x: string, text: string)
    requires Run(START, head) == Deeper(START) && NoDip(START, x) && text == head + x
    ensures Run(START, text) == Deeper(Run(START, x))
  {
    RunConcat(START, head, x);
    RunDeeper(START, x);
  }

  lemma PrefixThen(text: string, n: nat, x: string, k: nat)
    requires n + |x| <= |text| && text[n..n + |x|] == x && k <= |x|
    ensures text[..n + k] == text[..n] + x[..k]
  {
    assert x[..k] == text[n..n + k];
  }

  /** Whether a brace opens or returns depends on the text up to it only. */
  lemma SameBraces(text: string, text': string, n: nat, i: nat)
    requires i < n <= |text| && n <= |text'| && text[..n] == text'[..n]
    ensures (Opens(text, i) <==> Opens(text', i)) && (Returns(text, i) <==> Returns(text', i))
  {
    SamePrefix(text, text', n, i);
    SamePrefix(text, text', n, i + 1);
    assert text[i] == text[..n][i] && text'[i] == text'[..n][i];
  }

  lemma SamePrefix(text: string, text': string, n: nat, i: nat)
    requires i <= n <= |text| && n <= |text'| && text[..n] == text'[..n]
    ensures text[..i] == text'[..i]
  {
    assert text[..i] == text[..n][..i] && text'[..i] == text'[..n][..i];
  }

  lemma SameCloses(text: string, text': string, n: nat, c: nat)
    requires c < n <= |text| && n <= |text'| && text[..n] == text'[..n]
    ensures Closes(text', c) ==> Closes(text, c)
  {
    SameBraces(text, text', n, c);
    if Closes(text', c) {
      var o :| 0 <= o < c && LastOpen(text', c, o);
      forall i: nat | i < c ensures Opens(text, i) <==> Opens(text', i) { SameBraces(text, text', n, i); }
      assert LastOpen(text, c, o);
    }
  }

  lemma AfterOpen(text: string, o: nat)
    requires Opens(text, o)
    ensures Run(START, text[..o + 1]) == Deeper(START)
  {
    RunProper(START, text[..o]);
    RunNext(text, o);
  }

  /** With a balanced text between an opening brace and a closing one, the span is theirs. */
  lemma SpanAround(text: string, o: nat, inner: string, c: nat)
    requires Opens(text, o) && Balanced(inner) && c == o + 1 + |inner| < |text|
    requires text[o + 1..c] == inner && text[c] == '}' && forall d | 0 <= d <= o :: !Closes(text, d)
    ensures FirstSpan(text, 0, o, c)
  {
    AfterOpen(text, o);
    forall d: nat | o < d <= c ensures Run(START, text[..d]).brace > 0 { RunInside(text, o, inner, d - o - 1); }
    RunInside(text, o, inner, |inner|);
    assert inner[..|inner|] == inner;
    RunNext(text, c);
    assert LastOpen(text, c, o);
  }

  lemma ReplacedText(text: string, o: nat, c: nat, inner: string, text': string)
    requires o < c < |text| && text' == text[..o + 1] + inner + text[c..]
    ensures text'[..o + 1] == text[..o + 1]
    ensures text'[o + 1..o + 1 + |inner|] == inner && text'[o + 1 + |inner|] == text[c]
  {
  }

  /** With a balanced text between the same braces, the search finds the braces around it. */
  lemma SpanOfReplaced(text: string, inner: string)
    requires BraceSpan(text).Some? && Balanced(inner)
    ensures var (o, c) := BraceSpan(text).value;
            BraceSpan(text[..o + 1] + inner + text[c..]) == Some((o, o + 1 + |inner|))
  {
    var (o, c) := BraceSpan(text).value;
    var text' := text[..o + 1] + inner + text[c..];
    BraceSpanIs(text, o, c);
    ReplacedText(text, o, c, inner, text');
    ReplacedSpan(text, text', o, c, inner);
    BraceSpanIs(text', o, o + 1 + |inner|);
  }

  lemma ReplacedSpan(text: string, text': string, o: nat, c: nat, inner: string)
    requires FirstSpan(text, 0, o, c) && Balanced(inner) && o + 1 + |inner| < |text'|
    requires text'[..o + 1] == text[..o + 1] && text'[o + 1..o + 1 + |inner|] == inner && text'[o + 1 + |inner|] == '}'
    ensures FirstSpan(text', 0, o, o + 1 + |inner|)
  {
    SameBraces(text, text', o + 1, o);
    forall d: nat | d <= o ensures !Closes(text', d) { SameCloses(text, text', o + 1, d); }
    SpanAround(text', o, inner, o + 1 + |inner|);
  }

  // ---------------------------------------------------------------- the field filter

  /** An alias file whose object type sits between balanced braces after the first '='. */
  predicate FieldFile(content: string) {
    && '\r' !in content
    && FirstIndex(content, '=').Some?
    && var eq := FirstIndex(content, '=').value;
    && !ImportStart(content[..eq + 1][HeadLength(content[..eq + 1])..])
    && BalancedBody(content[eq + 1..])
  }

  predicate BalancedBody(rest: string) {
    BraceSpan(rest).Some? && Clean(rest) && Balanced(Inner(rest))
  }

  /** What decides which imports are still used: the text up to the last ';', if there is one. */
  function Scope(rest: string, inner: string): string {
    match LastIndex(rest, ';') case Some(i) => rest[..i] case None => inner
  }

  lemma FirstEquals(prefix: string, rest: string)
    requires AliasPrefix(prefix)
    ensures FirstIndex(prefix + rest, '=') == Some(|prefix| - 1)
    ensures (prefix + rest)[..|prefix|] == prefix && (prefix + rest)[|prefix|..] == rest
  {
  }

  lemma LastIndexConcat(a: string, b: string, c: char)
    ensures match LastIndex(b, c)
            case Some(i) => LastIndex(a + b, c) == Some(|a| + i)
            case None => LastIndex(a + b, c).Some? ==> LastIndex(a + b, c).value < |a|
  {
    forall i | 0 <= i < |b| ensures (a + b)[|a| + i] == b[i] {}
    match LastIndex(b, c)
    case Some(i) =>
      assert (a + b)[|a| + i] == c;
      assert LastIndex(a + b, c).Some? by { assert c in a + b; }
    case None =>
  }

  lemma SliceShift(a: string, b: string, i: nat, j: nat)
    requires i <= j <= |b|
    ensures (a + b)[|a| + i..|a| + j] == b[i..j]
    ensures (a + b)[..|a| + i] == a + b[..i] && (a + b)[|a| + j..] == b[j..]
  {
  }

  lemma ScopeOfAlias(prefix: string, rest: string, inner: string)
    requires AliasPrefix(prefix)
    ensures WithBody(prefix + rest, inner) == PruneUnusedTypeImports(prefix + rest, Scope(rest, inner))
  {
    AliasAfter(prefix, rest);
  }

  lemma AliasAfter(prefix: string, rest: string)
    requires AliasPrefix(prefix)
    ensures SplitTypeAlias(prefix + rest)
         == match LastIndex(rest, ';') case Some(i) => Some(Alias(prefix, rest[..i], rest[i..])) case None => None
  {
    match LastIndex(rest, ';')
    case Some(i) =>
      var a := Alias(prefix, rest[..i], rest[i..]);
      assert a.prefix + a.body + a.suffix == prefix + rest;
      AliasOf(a);
    case None =>
      FirstEquals(prefix, rest);
      LastIndexConcat(prefix, rest, ';');
  }

  /** The text after the first '=' once the fields between the braces have been replaced. */
  function Replaced(rest: string, inner: string): string
    requires BraceSpan(rest).Some?
  {
    Splice(rest, BraceSpan(rest).value.0, BraceSpan(rest).value.1, inner)
  }

  /** The text between the braces. */
  function Inner(rest: string): string
    requires BraceSpan(rest).Some?
  {
    rest[BraceSpan(rest).value.0 + 1..BraceSpan(rest).value.1]
  }

  function NewInner(rest: string, names: set<string>): string
    requires BraceSpan(rest).Some?
  {
    Join(KeptFields(Inner(rest), names), ", ")
  }

  lemma BodyAfterEquals(prefix: string, rest: string)
    requires AliasPrefix(prefix) && BraceSpan(rest).Some?
    ensures TypeBodySpan(prefix + rest) == Shift(BraceSpan(rest), |prefix|)
    ensures TypeBody(prefix + rest) == Some(Inner(rest))
  {
    FirstEquals(prefix, rest);
    var (o, c) := BraceSpan(rest).value;
    SliceShift(prefix, rest, o + 1, c);
  }

  lemma FilterOf(content: string, open: nat, close: nat, names: set<string>, body: string)
    requires TypeBodySpan(content) == Some((open, close)) && TypeBody(content) == Some(body)
    ensures open < close < |content|
    ensures var inner := Join(KeptFields(body, names), ", ");
            FilterTypeFields(content, names) == WithBody(Splice(content, open, close, inner), inner)
  {
    BodyBetween(content, open, close, body);
    assert FilterTypeFields(content, names) == FilterBetween(content, open, close, names);
  }

  lemma BodyBetween(content: string, open: nat, close: nat, body: string)
    requires TypeBodySpan(content) == Some((open, close)) && TypeBody(content) == Some(body)
    ensures open < close < |content| && content[open + 1..close] == body
  {
  }

  lemma SplicedBody(content: string, open: nat, close: nat, names: set<string>, body: string, inner: string,
                    spliced: string)
    requires TypeBodySpan(content) == Some((open, close)) && TypeBody(content) == Some(body)
    requires inner == Join(KeptFields(body, names), ", ") && spliced == Splice(content, open, close, inner)
    ensures FilterTypeFields(content, names) == WithBody(spliced, inner)
  {
    FilterOf(content, open, close, names, body);
  }

  lemma SpanAfterEquals(content: string, prefix: string, rest: string, open: nat, close: nat)
    requires AliasPrefix(prefix) && BraceSpan(rest).Some? && content == prefix + rest
    requires open == BraceSpan(rest).value.0 + |prefix| && close == BraceSpan(rest).value.1 + |prefix|
    ensures TypeBodySpan(content) == Some((open, close)) && TypeBody(content) == Some(Inner(rest))
  {
    BodyAfterEquals(prefix, rest);
  }

  lemma SpliceAt(content: string, prefix: string, rest: string, o: nat, c: nat, open: nat, close: nat, inner: string)
    requires content == prefix + rest && o < c < |rest| && open == o + |prefix| && close == c + |prefix|
    ensures Splice(content, open, close, inner) == prefix + Splice(rest, o, c, inner)
  {
  }

  /** What the filter makes of a file, once it is known where the object type is. */
  lemma FilterAt(content: string, prefix: string, rest: string, names: set<string>, open: nat, close: nat)
    requires BraceSpan(rest).Some? && content == prefix + rest
    requires open == BraceSpan(rest).value.0 + |prefix| && close == BraceSpan(rest).value.1 + |prefix|
    requires TypeBodySpan(content) == Some((open, close)) && TypeBody(content) == Some(Inner(rest))
    ensures var inner := NewInner(rest, names);
            FilterTypeFields(content, names) == WithBody(prefix + Replaced(rest, inner), inner)
  {
    var (o, c) := BraceSpan(rest).value;
    var inner := NewInner(rest, names);
    SpliceAt(content, prefix, rest, o, c, open, close, inner);
    SplicedBody(content, open, close, names, Inner(rest), inner, prefix + Replaced(rest, inner));
  }

  lemma FilterTypeFieldsIs(content: string, prefix: string, rest: string, names: set<string>)
    requires AliasPrefix(prefix) && BraceSpan(rest).Some? && content == prefix + rest
    ensures var inner := NewInner(rest, names);
            FilterTypeFields(content, names) == WithBody(prefix + Replaced(rest, inner), inner)
  {
    var open, close := BraceSpan(rest).value.0 + |prefix|, BraceSpan(rest).value.1 + |prefix|;
    SpanAfterEquals(content, prefix, rest, open, close);
    FilterAt(content, prefix, rest, names, open, close);
  }

  lemma CleanParts(a: string, b: string, c: string)
    requires Clean(a + b + c)
    ensures Clean(a) && Clean(b + c) && Clean(c)
  {
    assert a + b + c == "" + a + (b + c) && a + b + c == a + (b + c) + "" && a + b + c == (a + b) + c + "";
    CleanInfix("", a, b + c);
    CleanInfix(a, b + c, "");
    CleanInfix(a + b, c, "");
  }

  lemma PlainParts(a: string, b: string, c: string)
    requires '\r' !in a + b + c
    ensures '\r' !in a && '\r' !in b && '\r' !in c
  {
  }

  lemma RestParts(rest: string)
    requires BraceSpan(rest).Some? && Clean(rest) && '\r' !in rest
    ensures var (o, c) := BraceSpan(rest).value;
            && Clean(rest[..o + 1]) && Stops(rest[..o + 1]) && Clean(Inner(rest) + rest[c..])
            && Clean(rest[c..]) && Breaks(rest[c..])
            && '\r' !in rest[..o + 1] && '\r' !in Inner(rest) && '\r' !in rest[c..]
  {
    var (o, c) := BraceSpan(rest).value;
    var open, inner, close := rest[..o + 1], Inner(rest), rest[c..];
    assert rest == open + inner + close;
    CleanParts(open, inner, close);
    PlainParts(open, inner, close);
    BreaksSemicolon(close);
    assert open[|open| - 1] == '{';
  }

  /** Replacing the fields by some of them keeps the text clean. */
  lemma ReplacedClean(rest: string, names: set<string>)
    requires BraceSpan(rest).Some? && Clean(rest) && '\r' !in rest
    ensures Clean(Replaced(rest, NewInner(rest, names))) && '\r' !in Replaced(rest, NewInner(rest, names))
  {
    var (o, c) := BraceSpan(rest).value;
    var open, inner, close := rest[..o + 1], NewInner(rest, names), rest[c..];
    RestParts(rest);
    RejoinedBody(Inner(rest), close, FIELD_ENDS, field => KeepField(field, names), ", ");
    JoinedClean(open, inner, close);
  }

  lemma JoinedClean(open: string, inner: string, close: string)
    requires Clean(open) && Stops(open) && Clean(inner + close)
    requires '\r' !in open && '\r' !in inner && '\r' !in close
    ensures Clean(open + inner + close) && '\r' !in open + inner + close
  {
    CleanAppend(open, inner + close);
    Regroup(open, inner, close);
  }

  /** The new fields are balanced, and split into exactly the kept ones. */
  lemma NewInnerProperties(rest: string, names: set<string>)
    requires BraceSpan(rest).Some? && Balanced(Inner(rest))
    ensures Balanced(NewInner(rest, names))
    ensures Split(NewInner(rest, names), FIELD_ENDS) == KeptFields(Inner(rest), names)
    ensures NewInner(rest, names) == Join(KeptFields(NewInner(rest, names), names), ", ")
  {
    UnionSeparator();
    SplitJoinFiltered(Inner(rest), field => KeepField(field, names), "", ',', " ", FIELD_ENDS);
    SplitBalanced(START, "", Inner(rest));
    FilterSubset(Split(Inner(rest), FIELD_ENDS), field => KeepField(field, names));
    JoinBalanced(KeptFields(Inner(rest), names));
    FilterIdempotent(Split(Inner(rest), FIELD_ENDS), field => KeepField(field, names));
  }

  lemma ReplacedAgain(rest: string, inner: string)
    requires BraceSpan(rest).Some? && Balanced(inner)
    ensures BraceSpan(Replaced(rest, inner)).Some? && Inner(Replaced(rest, inner)) == inner
    ensures Replaced(Replaced(rest, inner), inner) == Replaced(rest, inner)
  {
    SpanOfReplaced(rest, inner);
  }

  /** What filtering makes of an alias file: fewer imports, and the kept fields between the braces. */
  lemma FilterTypeFieldsShape(prefix: string, rest: string, names: set<string>)
    requires AliasPrefix(prefix) && BalancedBody(rest) && '\r' !in rest
    ensures var inner := NewInner(rest, names);
            var scope := Scope(Replaced(rest, inner), inner);
            FilterTypeFields(prefix + rest, names) == Pruned(prefix, scope) + Replaced(rest, inner)
            && AliasPrefix(Pruned(prefix, scope)) && Pruned(Pruned(prefix, scope), scope) == Pruned(prefix, scope)
  {
    var inner := NewInner(rest, names);
    var scope := Scope(Replaced(rest, inner), inner);
    FilterTypeFieldsIs(prefix + rest, prefix, rest, names);
    ScopeOfAlias(prefix, Replaced(rest, inner), inner);
    ReplacedClean(rest, names);
    PruneFields(prefix, Replaced(rest, inner), scope);
    PrunedPrefix(prefix, scope);
  }

  /** The filtered file holds exactly the other fields, in order. */
  lemma FilterTypeFieldsKeepsExactly(content: string, names: set<string>)
    requires FieldFile(content)
    ensures TypeBody(content).Some? && TypeBody(FilterTypeFields(content, names)).Some?
    ensures Split(TypeBody(FilterTypeFields(content, names)).value, FIELD_ENDS)
         == KeptFields(TypeBody(content).value, names)
  {
    var prefix, rest := FieldFilePrefix(content);
    BodyAfterEquals(prefix, rest);
    FilteredInner(prefix, rest, names);
    NewInnerProperties(rest, names);
  }

  lemma FilteredInner(prefix: string, rest: string, names: set<string>)
    requires AliasPrefix(prefix) && BalancedBody(rest) && '\r' !in rest
    ensures TypeBody(FilterTypeFields(prefix + rest, names)) == Some(NewInner(rest, names))
  {
    var inner := NewInner(rest, names);
    FilterTypeFieldsShape(prefix, rest, names);
    NewInnerProperties(rest, names);
    ReplacedAgain(rest, inner);
    BodyAfterEquals(Pruned(prefix, Scope(Replaced(rest, inner), inner)), Replaced(rest, inner));
  }

  /** Filtering the fields a second time changes nothing. */
  lemma FilterTypeFieldsIdempotent(content: string, names: set<string>)
    requires FieldFile(content)
    ensures FilterTypeFields(FilterTypeFields(content, names), names) == FilterTypeFields(content, names)
  {
    var prefix, rest := FieldFilePrefix(content);
    var inner := NewInner(rest, names);
    var rest' := Replaced(rest, inner);
    var prefix' := Pruned(prefix, Scope(rest', inner));
    FilterTypeFieldsShape(prefix, rest, names);
    NewInnerProperties(rest, names);
    ReplacedAgain(rest, inner);
    ReplacedClean(rest, names);
    FilterTypeFieldsShape(prefix', rest', names);
  }

  lemma FieldFilePrefix(content: string) returns (prefix: string, rest: string)
    requires FieldFile(content)
    ensures content == prefix + rest && AliasPrefix(prefix)
    ensures BalancedBody(rest) && '\r' !in rest
  {
    var eq := FirstIndex(content, '=').value;
    prefix, rest := content[..eq + 1], content[eq + 1..];
    assert prefix[..eq] == content[..eq];
    PartPlain(content, eq + 1, '\r');
  }

  lemma PruneFields(prefix: string, rest: string, scope: string)
    requires AliasPrefix(prefix) && Clean(rest) && '\r' !in rest
    ensures PruneUnusedTypeImports(prefix + rest, scope) == Pruned(prefix, scope) + rest
  {
    assert rest + "" == rest && prefix + rest + "" == prefix + rest;
    PruneAlias(Alias(prefix, rest, ""), scope);
    assert Pruned(prefix, scope) + rest + "" == Pruned(prefix, scope) + rest;
  }
}
