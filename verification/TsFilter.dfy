/**
 Dropping experimental arms from the union of client requests, and experimental fields from an
 object type, in generated TypeScript text.
 */
module TsFilter {
  import opened Wrappers
  import opened Selection
  import opened TsScan
  import opened TsText

  // ---------------------------------------------------------------- reading the text

  function LastIndex(s: string, c: char): (r: Option<nat>)
    ensures r.Some? ==> r.value < |s| && s[r.value] == c && forall i | r.value < i < |s| :: s[i] != c
    ensures r.None? ==> c !in s
  {
    if s == "" then None
    else if s[|s| - 1] == c then Some(|s| - 1)
    else LastIndex(s[..|s| - 1], c)
  }

  datatype Alias = Alias(prefix: string, body: string, suffix: string)

  /** The text up to the first '=', between it and the last ';', and from there on. */
  function SplitTypeAlias(content: string): Option<Alias> {
    match (FirstIndex(content, '='), LastIndex(content, ';'))
    case (Some(eq), Some(semi)) =>
      if semi <= eq then None else Some(Alias(content[..eq + 1], content[eq + 1..semi], content[semi..]))
    case _ => None
  }

  /** The first span from a top-level '{' to the '}' that returns to top level. */
  function SpanFrom(s: Scan, i: nat, open: Option<nat>, text: string): (r: Option<(nat, nat)>)
    requires i <= |text| && (open.Some? ==> open.value < i && text[open.value] == '{')
    ensures r.Some? ==> r.value.0 < r.value.1 < |text| && i <= r.value.1
    ensures r.Some? ==> text[r.value.0] == '{' && text[r.value.1] == '}'
    decreases |text| - i
  {
    if i == |text| then None
    else
      var open' := if !s.InString() && text[i] == '{' && s.TopLevel() then Some(i) else open;
      var t := Next(s, text[i]);
      if !t.InString() && text[i] == '}' && t.TopLevel() && open'.Some? then Some((open'.value, i))
      else SpanFrom(t, i + 1, open', text)
  }

  function BraceSpan(text: string): Option<(nat, nat)> { SpanFrom(START, 0, None, text) }

  function LiteralEnd(s: string, i: nat, quote: char, escape: bool): (r: Option<nat>)
    requires i <= |s|
    ensures r.Some? ==> i <= r.value < |s|
    decreases |s| - i
  {
    if i == |s| then None
    else if escape then LiteralEnd(s, i + 1, quote, false)
    else if s[i] == '\\' then LiteralEnd(s, i + 1, quote, true)
    else if s[i] == quote then Some(i)
    else LiteralEnd(s, i + 1, quote, false)
  }

  /** A string literal at the start of the text, and where it ends. */
  function ParseStringLiteral(s: string): (r: Option<(string, nat)>)
    ensures r.Some? ==> r.value.1 <= |s|
  {
    if s == "" || (s[0] != '"' && s[0] != '\'') then None
    else
      match LiteralEnd(s, 1, s[0], false)
      case Some(end) => Some((s[1..end], end + 1))
      case None => None
  }

  predicate IdentChar(c: char) {
    'a' <= c <= 'z' || 'A' <= c <= 'Z' || '0' <= c <= '9' || c == '_'
  }

  function Ident(s: string): (r: string)
    ensures r <= s
  {
    if s != "" && IdentChar(s[0]) then [s[0]] + Ident(s[1..]) else ""
  }

  function ParsePropertyName(input: string): Option<string> {
    var trimmed := TrimStart(input);
    match ParseStringLiteral(trimmed)
    case Some(literal) => if ":" <= TrimStart(trimmed[literal.1..]) then Some(literal.0) else None
    case None =>
      var name := Ident(trimmed);
      var rest := TrimStart(trimmed[|name|..]);
      var rest' := if "?" <= rest then TrimStart(rest[1..]) else rest;
      if name != "" && ":" <= rest' then Some(name) else None
  }

  function ParseProperty(input: string): Option<(string, string)> {
    match (ParsePropertyName(input), FirstIndex(input, ':'))
    case (Some(name), Some(colon)) => Some((name, TrimStart(input[colon + 1..])))
    case _ => None
  }

  function MethodAmong(fields: seq<string>): Option<string> {
    if fields == [] then None
    else
      match ParseProperty(fields[0])
      case None => MethodAmong(fields[1..])
      case Some(property) =>
        if property.0 != "method" then MethodAmong(fields[1..])
        else
          match ParseStringLiteral(TrimStart(property.1))
          case Some(literal) => Some(literal.0)
          case None => None
  }

  /** The literal of the `method` property of a union arm. */
  function ExtractMethod(arm: string): Option<string> {
    match BraceSpan(arm)
    case Some(span) => MethodAmong(Split(arm[span.0 + 1..span.1], {','}))
    case None => None
  }

  predicate KeepArm(arm: string, methods: set<string>) {
    ExtractMethod(arm).Some? ==> ExtractMethod(arm).value !in methods - {""}
  }

  function KeptArms(body: string, methods: set<string>): seq<string> {
    Filter(Split(body, {'|'}), arm => KeepArm(arm, methods))
  }

  /** Replace the body, then prune imports that the body of the new alias does not use. */
  function WithBody(content: string, body: string): string {
    var scope := match SplitTypeAlias(content) case Some(alias) => alias.body case None => body;
    PruneUnusedTypeImports(content, scope)
  }

  function FilterClientRequest(content: string, methods: set<string>): string {
    match SplitTypeAlias(content)
    case None => content
    case Some(alias) =>
      var body := Join(KeptArms(alias.body, methods), " | ");
      WithBody(alias.prefix + body + alias.suffix, body)
  }

  // ---------------------------------------------------------------- the shape of an alias file

  /** The length of the whole lines at the front of a text. */
  function HeadLength(s: string): (k: nat)
    ensures k <= |s| && (s[..k] == "" || Terminated(s[..k])) && NoNewline(s[k..])
  {
    match LastIndex(s, '\n')
    case Some(i) => i + 1
    case None => 0
  }

  /** An alias file: its imports come before the line of the first '=', and only there. */
  predicate AliasFile(content: string) {
    && SplitTypeAlias(content).Some?
    && '\r' !in content
    && var alias := SplitTypeAlias(content).value;
    && !ImportStart(alias.prefix[HeadLength(alias.prefix)..])
    && Clean(alias.body + alias.suffix)
  }

  predicate AliasParts(a: Alias) {
    && a.prefix != "" && a.prefix[|a.prefix| - 1] == '=' && '=' !in a.prefix[..|a.prefix| - 1]
    && a.suffix != "" && a.suffix[0] == ';' && ';' !in a.suffix[1..]
  }

  lemma AliasShape(content: string)
    requires SplitTypeAlias(content).Some?
    ensures var a := SplitTypeAlias(content).value;
            AliasParts(a) && content == a.prefix + a.body + a.suffix
  {
  }

  /** The last occurrence of a character is the one after which there is no other. */
  lemma LastIndexIs(s: string, c: char, i: nat)
    requires i < |s| && s[i] == c && c !in s[i + 1..]
    ensures LastIndex(s, c) == Some(i)
  {
  }

  lemma AliasOf(a: Alias)
    requires AliasParts(a)
    ensures SplitTypeAlias(a.prefix + a.body + a.suffix) == Some(a)
  {
    var content := a.prefix + a.body + a.suffix;
    AliasSlices(a, content);
    FirstIndexIs(content, '=', |a.prefix| - 1);
    LastIndexIs(content, ';', |a.prefix| + |a.body|);
  }

  lemma AliasSlices(a: Alias, content: string)
    requires AliasParts(a) && content == a.prefix + a.body + a.suffix
    ensures var eq, semi := |a.prefix| - 1, |a.prefix| + |a.body|;
            && content[eq] == '=' && '=' !in content[..eq] && content[semi] == ';' && ';' !in content[semi + 1..]
            && content[..eq + 1] == a.prefix && content[eq + 1..semi] == a.body && content[semi..] == a.suffix
  {
  }

  // ---------------------------------------------------------------- the union filter

  lemma {:induction false} TerminateChars(lines: seq<string>, c: char)
    requires c != '\n' && forall l | l in lines :: c !in l
    ensures c !in Terminate(lines)
  {
    if lines != [] {
      assert lines[0] in lines && forall l | l in lines[1..] :: l in lines;
      TerminateChars(lines[1..], c);
    }
  }

  lemma {:induction false} SplitFromClean(s: Scan, current: string, rest: string, delims: set<char>)
    requires Clean(current + rest)
    ensures forall p | p in SplitFrom(s, current, rest, delims) :: Clean(p)
    decreases |rest|
  {
    CleanTrimmed(current, rest);
    if rest != "" {
      if Cuts(s, rest[0], delims) {
        assert current + rest == (current + [rest[0]]) + rest[1..] + "";
        CleanInfix(current + [rest[0]], rest[1..], "");
        assert "" + rest[1..] == rest[1..];
        SplitFromClean(Next(s, rest[0]), "", rest[1..], delims);
      } else {
        assert current + rest == (current + [rest[0]]) + rest[1..];
        SplitFromClean(Next(s, rest[0]), current + [rest[0]], rest[1..], delims);
      }
    }
  }

  lemma CleanTrimmed(current: string, rest: string)
    requires Clean(current + rest)
    ensures Clean(Trim(current))
  {
    var before, after := TrimShape(current);
    assert current + rest == before + Trim(current) + (after + rest);
    CleanInfix(before, Trim(current), after + rest);
  }

  lemma {:induction false} FilterSubset(parts: seq<string>, keep: string -> bool)
    ensures forall p | p in Filter(parts, keep) :: p in parts
  {
    if parts != [] { FilterSubset(parts[1..], keep); }
  }

  lemma JoinSplit(parts: seq<string>, separator: string, rest: string)
    requires |parts| > 1
    ensures Join(parts, separator) + rest == parts[0] + (separator + (Join(parts[1..], separator) + rest))
  {
  }

  /** Joining clean parts in front of a clean rest leaves no import-like line. */
  lemma {:induction false} JoinClean(parts: seq<string>, separator: string, rest: string)
    requires (forall p | p in parts :: Clean(p) && Trimmed(p)) && Clean(rest) && Breaks(rest)
    requires NoNewline(separator) && forall x :: Breaks(separator + x)
    ensures Clean(Join(parts, separator) + rest)
  {
    if parts == [] {
      assert "" + rest == rest;
    } else {
      assert parts[0] in parts && forall p | p in parts[1..] :: p in parts;
      if |parts| == 1 {
        CleanAppend(parts[0], rest);
      } else {
        var tail := Join(parts[1..], separator) + rest;
        JoinClean(parts[1..], separator, rest);
        CleanPrepend(separator, tail);
        CleanAppend(parts[0], separator + tail);
        JoinSplit(parts, separator, rest);
      }
    }
  }

  lemma CleanPrepend(plain: string, rest: string)
    requires NoNewline(plain) && Clean(rest)
    ensures Clean(plain + rest)
  {
    forall i | 0 <= i < |plain| ensures plain[i] != '\n' { assert plain[i] in plain; }
    forall j | 0 <= j < |plain + rest| && (plain + rest)[j] == '\n' ensures !ImportStart((plain + rest)[j + 1..]) {
      assert (plain + rest)[j + 1..] == rest[j - |plain| + 1..];
    }
  }

  lemma BreaksAfter(separator: string)
    requires separator == " | " || separator == ", "
    ensures forall x :: Breaks(separator + x)
  {
    forall x, k | 0 < k < |IMPORT| ensures !(IMPORT[k..] <= separator + x) {
      assert (separator + x)[0] == separator[0] && (separator + x)[1] == separator[1];
      assert IMPORT[k..][0] == IMPORT[k];
      if separator == " | " && IMPORT[k] == ' ' { assert IMPORT[k..][1] == IMPORT[k + 1]; }
    }
  }

  lemma BreaksSemicolon(rest: string)
    requires rest != "" && (rest[0] == ';' || rest[0] == '}')
    ensures Breaks(rest)
  {
  }

  /** The prefix of an alias without the imports that are not used in `scope`. */
  function Pruned(prefix: string, scope: string): string {
    Terminate(Used(Lines(prefix[..HeadLength(prefix)]), scope)) + prefix[HeadLength(prefix)..]
  }

  predicate AliasPrefix(prefix: string) {
    && prefix != "" && prefix[|prefix| - 1] == '=' && '=' !in prefix[..|prefix| - 1]
    && '\r' !in prefix && !ImportStart(prefix[HeadLength(prefix)..])
  }

  /** The line of the alias begins after whole lines without '='. */
  lemma AliasLine(prefix: string)
    requires AliasPrefix(prefix)
    ensures var k := HeadLength(prefix);
            k < |prefix| && prefix == prefix[..k] + prefix[k..] && Stops(prefix[k..]) && Clean(prefix[k..])
            && '=' !in prefix[..k] && '\r' !in prefix[..k]
  {
  }

  lemma AliasTail(prefix: string, k: nat)
    requires k < |prefix| && '=' !in prefix[..|prefix| - 1]
    ensures '=' !in prefix[k..][..|prefix[k..]| - 1]
  {
  }

  lemma PartPlain(s: string, k: nat, c: char)
    requires k <= |s| && c !in s
    ensures c !in s[..k] && c !in s[k..]
  {
  }

  /** Lines that are all used, none of them with '=' or a carriage return. */
  predicate PlainUsed(lines: seq<string>, scope: string) {
    PlainLines(lines) && forall l | l in lines :: '=' !in l && !Unused(l, scope)
  }

  /** Lines come out of a text, so they bring in no character of their own. */
  lemma UsedLinesPlain(head: string, scope: string)
    requires '\r' !in head && '=' !in head
    ensures PlainUsed(Used(Lines(head), scope), scope)
  {
    LinesPlain(head);
    UsedOnly(Lines(head), scope);
  }

  lemma NewlinesEnd(lines: seq<string>, tail: string)
    requires NoNewline(tail) && (forall l | l in lines :: NoNewline(l) && '\r' !in l)
    ensures HeadLength(Terminate(lines) + tail) == |Terminate(lines)|
  {
    LinesOfTerminate(lines);
    HeadLengthIs(Terminate(lines), tail);
  }

  lemma HeadLengthIs(head: string, tail: string)
    requires NoNewline(tail) && (head == "" || Terminated(head))
    ensures HeadLength(head + tail) == |head|
  {
    var s := head + tail;
    if head == "" {
      assert s == tail;
    } else {
      assert s[|head| - 1] == '\n' && s[|head|..] == tail;
      LastIndexIs(s, '\n', |head| - 1);
    }
  }

  /** Pruning the prefix keeps it an alias prefix, and pruning it again changes nothing. */
  lemma PrunedPrefix(prefix: string, scope: string)
    requires AliasPrefix(prefix)
    ensures AliasPrefix(Pruned(prefix, scope))
    ensures Pruned(Pruned(prefix, scope), scope) == Pruned(prefix, scope)
  {
    AliasLine(prefix);
    var k := HeadLength(prefix);
    var lines := Used(Lines(prefix[..k]), scope);
    UsedLinesPlain(prefix[..k], scope);
    PartPlain(prefix, k, '\r');
    AliasTail(prefix, k);
    PlainPrefix(lines, prefix[k..], scope);
  }

  /** Used lines in front of the line of the alias form a prefix that pruning leaves alone. */
  lemma PlainPrefix(lines: seq<string>, line: string, scope: string)
    requires PlainUsed(lines, scope)
    requires line != "" && line[|line| - 1] == '=' && '=' !in line[..|line| - 1]
    requires '\r' !in line && NoNewline(line) && !ImportStart(line)
    ensures AliasPrefix(Terminate(lines) + line)
    ensures Pruned(Terminate(lines) + line, scope) == Terminate(lines) + line
  {
    var head := Terminate(lines);
    PlainHead(lines, line, head, scope);
    HeadThenLine(head, line, head + line);
    PrunedFixed(head, line, lines, scope);
  }

  lemma PlainHead(lines: seq<string>, line: string, head: string, scope: string)
    requires PlainUsed(lines, scope) && NoNewline(line) && head == Terminate(lines)
    ensures '=' !in head && '\r' !in head && HeadLength(head + line) == |head|
    ensures Lines(head) == lines && Used(lines, scope) == lines
  {
    TerminateChars(lines, '=');
    TerminateChars(lines, '\r');
    NewlinesEnd(lines, line);
    LinesOfTerminate(lines);
    UsedAll(lines, scope);
  }

  lemma HeadThenLine(head: string, line: string, prefix: string)
    requires prefix == head + line && HeadLength(prefix) == |head| && '=' !in head && '\r' !in head
    requires line != "" && line[|line| - 1] == '=' && '=' !in line[..|line| - 1]
    requires '\r' !in line && !ImportStart(line)
    ensures AliasPrefix(prefix)
  {
    assert prefix[|head|..] == line;
    assert prefix[..|prefix| - 1] == head + line[..|line| - 1];
  }

  lemma PrunedFixed(head: string, line: string, lines: seq<string>, scope: string)
    requires HeadLength(head + line) == |head| && head == Terminate(lines)
    requires Lines(head) == lines && Used(lines, scope) == lines
    ensures Pruned(head + line, scope) == head + line
  {
    PartsOf(head, line);
  }

  lemma PartsOf(a: string, b: string)
    ensures (a + b)[..|a|] == a && (a + b)[|a|..] == b
  {
  }

  /** Pruning an alias file touches only its prefix. */
  lemma PruneAlias(a: Alias, scope: string)
    requires AliasPrefix(a.prefix) && Clean(a.body + a.suffix) && '\r' !in a.body + a.suffix
    ensures PruneUnusedTypeImports(a.prefix + a.body + a.suffix, scope)
         == Pruned(a.prefix, scope) + a.body + a.suffix
  {
    AliasLine(a.prefix);
    var k := HeadLength(a.prefix);
    var head, line, tail := a.prefix[..k], a.prefix[k..], a.body + a.suffix;
    assert forall c | c in line :: c in a.prefix;
    AliasLineThen(line, tail);
    PruneHead(head, line + tail, scope);
    PutTogether(head, line, a.body, a.suffix);
    PutTogether(Terminate(Used(Lines(head), scope)), line, a.body, a.suffix);
  }

  lemma PutTogether(a: string, b: string, c: string, d: string)
    ensures (a + b) + c + d == a + (b + (c + d))
  {
  }

  /** From the line of the alias on, no line is a type import. */
  lemma AliasLineThen(line: string, tail: string)
    requires Stops(line) && Clean(line) && !ImportStart(line) && '\r' !in line
    requires Clean(tail) && '\r' !in tail
    ensures line + tail != "" && '\r' !in line + tail
    ensures forall l | l in Lines(line + tail) :: ImportedType(l).None?
  {
    CleanAppend(line, tail);
    ImportStartAppend(line, tail);
    LinesClean(line + tail);
  }

  lemma {:induction false} SplitFromChars(s: Scan, current: string, rest: string, delims: set<char>)
    ensures forall p, c | p in SplitFrom(s, current, rest, delims) && c in p :: c in current + rest
    decreases |rest|
  {
    var before, after := TrimShape(current);
    assert forall c | c in Trim(current) :: c in current;
    if rest != "" {
      assert forall c | c in rest[1..] :: c in rest;
      assert forall c | c in current + [rest[0]] :: c in current + rest;
      if Cuts(s, rest[0], delims) {
        SplitFromChars(Next(s, rest[0]), "", rest[1..], delims);
      } else {
        SplitFromChars(Next(s, rest[0]), current + [rest[0]], rest[1..], delims);
      }
    }
  }

  lemma {:induction false} JoinChars(parts: seq<string>, separator: string, c: char)
    requires c !in separator && forall p | p in parts :: c !in p
    ensures c !in Join(parts, separator)
  {
    if parts != [] {
      assert parts[0] in parts && forall p | p in parts[1..] :: p in parts;
      JoinChars(parts[1..], separator, c);
    }
  }

  /** The kept parts of a body, joined again, are as plain and clean as the body was. */
  lemma RejoinedBody(body: string, rest: string, delims: set<char>, keep: string -> bool, separator: string)
    requires Delimiters(delims) && Clean(body + rest) && Clean(rest) && Breaks(rest)
    requires separator == " | " || separator == ", "
    ensures Clean(Join(Filter(Split(body, delims), keep), separator) + rest)
    ensures '\r' !in body ==> '\r' !in Join(Filter(Split(body, delims), keep), separator)
  {
    var parts := Split(body, delims);
    assert body + rest == "" + body + rest && "" + body == body;
    CleanInfix("", body, rest);
    SplitFromClean(START, "", body, delims);
    SplitFromChars(START, "", body, delims);
    SplitParts(body, delims);
    FilterSubset(parts, keep);
    BreaksAfter(separator);
    JoinClean(Filter(parts, keep), separator, rest);
    if '\r' !in body { JoinChars(Filter(parts, keep), separator, '\r'); }
  }

  /** The filter keeps the alias, with the kept arms as its body. */
  lemma FilterClientRequestShape(content: string, methods: set<string>)
    requires AliasFile(content)
    ensures var a := SplitTypeAlias(content).value;
            var body := Join(KeptArms(a.body, methods), " | ");
            var b := Alias(Pruned(a.prefix, body), body, a.suffix);
            && FilterClientRequest(content, methods) == b.prefix + b.body + b.suffix
            && AliasParts(b) && AliasPrefix(b.prefix) && Clean(b.body + b.suffix) && '\r' !in b.body + b.suffix
  {
    var a := SplitTypeAlias(content).value;
    var body := Join(KeptArms(a.body, methods), " | ");
    AliasFilePrefix(content);
    KeptBody(content, methods);
    AliasOf(Alias(a.prefix, body, a.suffix));
    PruneAlias(Alias(a.prefix, body, a.suffix), body);
    PrunedPrefix(a.prefix, body);
  }

  lemma KeptBody(content: string, methods: set<string>)
    requires AliasFile(content)
    ensures var a := SplitTypeAlias(content).value;
            var body := Join(KeptArms(a.body, methods), " | ");
            AliasParts(a) && Clean(body + a.suffix) && '\r' !in body + a.suffix
  {
    var a := SplitTypeAlias(content).value;
    AliasShape(content);
    SuffixPlain(a.prefix, a.body, a.suffix);
    RejoinedBody(a.body, a.suffix, {'|'}, arm => KeepArm(arm, methods), " | ");
  }

  lemma SuffixPlain(prefix: string, body: string, suffix: string)
    requires '\r' !in prefix + body + suffix && Clean(body + suffix) && suffix != "" && suffix[0] == ';'
    ensures '\r' !in body && '\r' !in suffix && Clean(suffix) && Breaks(suffix)
  {
    assert body + suffix + "" == body + suffix;
    CleanInfix(body, suffix, "");
    BreaksSemicolon(suffix);
  }

  /** The body of the filtered alias splits into exactly the arms that were not experimental. */
  lemma FilterKeepsExactly(content: string, methods: set<string>)
    requires AliasFile(content)
    ensures var a, b := SplitTypeAlias(content), SplitTypeAlias(FilterClientRequest(content, methods));
            b.Some? && b.value.suffix == a.value.suffix
            && Split(b.value.body, {'|'}) == KeptArms(a.value.body, methods)
  {
    var a := SplitTypeAlias(content).value;
    var body := Join(KeptArms(a.body, methods), " | ");
    FilterClientRequestShape(content, methods);
    AliasOf(Alias(Pruned(a.prefix, body), body, a.suffix));
    UnionSeparator();
    SplitJoinFiltered(a.body, arm => KeepArm(arm, methods), " ", '|', " ", {'|'});
  }

  /** Of the arms those stay, in order, whose method is not among the experimental ones. */
  lemma UnionKeeps(content: string, methods: set<string>, filtered: string) returns (at: seq<nat>)
    requires AliasFile(content) && filtered == FilterClientRequest(content, methods)
    ensures SplitTypeAlias(filtered).Some?
    ensures var arms := Split(SplitTypeAlias(content).value.body, {'|'});
            && Selects(arms, at, Split(SplitTypeAlias(filtered).value.body, {'|'}))
            && forall i: nat | i < |arms| ::
                 i in at <==> !exists m :: m in methods && m != "" && ExtractMethod(arms[i]) == Some(m)
  {
    FilterKeepsExactly(content, methods);
    at := ArmsSelect(Split(SplitTypeAlias(content).value.body, {'|'}), methods);
  }

  lemma ArmsSelect(arms: seq<string>, methods: set<string>) returns (at: seq<nat>)
    ensures Selects(arms, at, Filter(arms, arm => KeepArm(arm, methods)))
    ensures forall i: nat | i < |arms| ::
              i in at <==> !exists m :: m in methods && m != "" && ExtractMethod(arms[i]) == Some(m)
  {
    at := FilterSelects(arms, arm => KeepArm(arm, methods));
  }

  lemma UnionSeparator()
    ensures Separator(" ", '|', " ", {'|'}) && " " + ['|'] + " " == " | "
    ensures Separator("", ',', " ", {',', ';'}) && "" + [','] + " " == ", "
  {
  }

  /** A file whose arms are all kept and whose imports are all used is left alone. */
  lemma FilteredIsFixed(b: Alias, methods: set<string>)
    requires AliasParts(b) && AliasPrefix(b.prefix) && Clean(b.body + b.suffix) && '\r' !in b.body + b.suffix
    requires Join(KeptArms(b.body, methods), " | ") == b.body && Pruned(b.prefix, b.body) == b.prefix
    ensures FilterClientRequest(b.prefix + b.body + b.suffix, methods) == b.prefix + b.body + b.suffix
  {
    AliasOf(b);
    PruneAlias(b, b.body);
  }

  /** Filtering a second time changes nothing. */
  lemma FilterClientRequestIdempotent(content: string, methods: set<string>)
    requires AliasFile(content)
    ensures FilterClientRequest(FilterClientRequest(content, methods), methods) == FilterClientRequest(content, methods)
  {
    var a := SplitTypeAlias(content).value;
    var kept := KeptArms(a.body, methods);
    var body := Join(kept, " | ");
    FilterClientRequestShape(content, methods);
    AliasOf(Alias(Pruned(a.prefix, body), body, a.suffix));
    FilterKeepsExactly(content, methods);
    FilterIdempotent(Split(a.body, {'|'}), arm => KeepArm(arm, methods));
    assert KeptArms(body, methods) == kept;
    AliasFilePrefix(content);
    PrunedPrefix(a.prefix, body);
    FilteredIsFixed(Alias(Pruned(a.prefix, body), body, a.suffix), methods);
  }

  lemma AliasFilePrefix(content: string)
    requires AliasFile(content)
    ensures AliasPrefix(SplitTypeAlias(content).value.prefix)
  {
  }
}
