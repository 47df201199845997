/** The field filter on files that declare an interface, and the laws for both kinds of file. */
module TsInterface {
  import opened Wrappers
  import opened Selection
  import opened TsScan
  import opened TsText
  import opened TsFilter
  import opened TsFields

  // ---------------------------------------------------------------- the first occurrence

  /** The pattern occurs at position `i`. */
  predicate At(s: string, p: string, i: nat) {
    i + |p| <= |s| && forall k | 0 <= k < |p| :: s[i + k] == p[k]
  }

  ghost predicate Absent(s: string, p: string) { forall i: nat :: !At(s, p, i) }

  predicate First(s: string, p: string, i: nat) {
    At(s, p, i) && forall j: nat | j < i :: !At(s, p, j)
  }

  lemma AtStart(s: string, p: string)
    ensures p <= s <==> At(s, p, 0)
  {
    if At(s, p, 0) { assert s[..|p|] == p; }
  }

  lemma AtTail(s: string, p: string, i: nat)
    requires s != ""
    ensures At(s, p, i + 1) <==> At(s[1..], p, i)
  {
    if At(s, p, i + 1) {
      forall k | 0 <= k < |p| ensures s[1..][i + k] == p[k] { assert s[i + 1 + k] == p[k]; }
    }
  }

  /** What the substring search returns. */
  lemma {:induction false} FindMeans(s: string, p: string)
    ensures match Find(s, p) case Some(i) => First(s, p, i) case None => Absent(s, p)
  {
    AtStart(s, p);
    if !(p <= s) && s != "" {
      FindMeans(s[1..], p);
      forall i: nat ensures At(s, p, i + 1) <==> At(s[1..], p, i) { AtTail(s, p, i); }
      match Find(s[1..], p)
      case Some(i) => FirstTail(s, p, i);
      case None =>
        forall i: nat ensures !At(s, p, i) {
          if i > 0 { AtTail(s, p, i - 1); }
        }
    }
  }

  lemma FirstTail(s: string, p: string, i: nat)
    requires s != "" && !At(s, p, 0) && First(s[1..], p, i)
    ensures First(s, p, i + 1)
  {
    AtTail(s, p, i);
    forall j: nat | j < i + 1 ensures !At(s, p, j) {
      if j > 0 { AtTail(s, p, j - 1); }
    }
  }

  lemma FindIs(s: string, p: string, i: nat)
    requires First(s, p, i)
    ensures Find(s, p) == Some(i)
  {
    FindMeans(s, p);
  }

  lemma AtLeft(a: string, b: string, p: string, i: nat)
    requires i + |p| <= |a|
    ensures At(a + b, p, i) <==> At(a, p, i)
  {
  }

  lemma AtRight(a: string, b: string, p: string, i: nat)
    ensures At(a + b, p, |a| + i) <==> At(b, p, i)
  {
  }

  /** What follows an occurrence does not change which one is the first. */
  lemma FirstThen(a: string, b: string, p: string, i: nat)
    requires First(a, p, i)
    ensures First(a + b, p, i)
  {
    AtLeft(a, b, p, i);
    forall j: nat | j < i ensures !At(a + b, p, j) { AtLeft(a, b, p, j); }
  }

  lemma FirstCut(a: string, b: string, p: string, i: nat)
    requires First(a + b, p, i) && i + |p| <= |a|
    ensures First(a, p, i)
  {
    AtLeft(a, b, p, i);
    forall j: nat | j < i ensures !At(a, p, j) { AtLeft(a, b, p, j); }
  }

  /** A text without the pattern has no part with it. */
  lemma AbsentParts(a: string, b: string, p: string)
    requires Absent(a + b, p)
    ensures Absent(a, p) && Absent(b, p)
  {
    forall i: nat ensures !At(a, p, i) {
      if At(a, p, i) { AtLeft(a, b, p, i); }
    }
    forall i: nat ensures !At(b, p, i) { AtRight(a, b, p, i); }
  }

  /** The first occurrence in the last part of a text, and none before that part. */
  lemma FirstParts(a: string, b: string, p: string, i: nat)
    requires First(a + b, p, |a| + i) && p != ""
    ensures First(b, p, i)
    ensures i + |p| == |b| ==> Absent(a, p)
  {
    AtRight(a, b, p, i);
    forall j: nat | j < i ensures !At(b, p, j) { AtRight(a, b, p, j); }
    forall j: nat ensures !At(a, p, j) {
      if At(a, p, j) { AtLeft(a, b, p, j); }
    }
  }

  /** A pattern within lines does not occur across the end of a line. */
  lemma FirstNextLine(line: string, rest: string, p: string, i: nat)
    requires NoNewline(p) && Absent(line, p) && First(rest, p, i)
    ensures First(line + "\n" + rest, p, |line| + 1 + i)
  {
    var head := line + "\n";
    AtRight(head, rest, p, i);
    forall j: nat | j < |line| + 1 + i ensures !At(head + rest, p, j) {
      if j >= |head| {
        AtRight(head, rest, p, j - |head|);
      } else if j + |p| <= |line| {
        AtLeft(line, "\n", p, j);
        AtLeft(head, rest, p, j);
      } else {
        assert (head + rest)[|line|] == '\n';
        NotAcross(head + rest, p, j, |line|);
      }
    }
  }

  lemma NotAcross(s: string, p: string, j: nat, n: nat)
    requires NoNewline(p) && j <= n < j + |p| && n < |s| && s[n] == '\n'
    ensures !At(s, p, j)
  {
    assert p[n - j] in p && s[j + (n - j)] == s[n];
  }

  // ---------------------------------------------------------------- the prefix of an interface

  /** The text of an interface file up to the first marker. */
  predicate InterfacePrefix(prefix: string) {
    && |INTERFACE| <= |prefix| && First(prefix, INTERFACE, |prefix| - |INTERFACE|)
    && '=' !in prefix && '\r' !in prefix && !ImportStart(prefix[HeadLength(prefix)..])
  }

  /** An interface file: without '=', with a balanced body, and imports only before the interface. */
  predicate InterfaceFile(content: string) {
    && '\r' !in content && '=' !in content && Find(content, INTERFACE).Some?
    && var n := Find(content, INTERFACE).value + |INTERFACE|;
    && !ImportStart(content[..n][HeadLength(content[..n])..])
    && BalancedBody(content[n..])
  }

  lemma InterfaceParts(content: string) returns (prefix: string, rest: string)
    requires InterfaceFile(content)
    ensures content == prefix + rest && InterfacePrefix(prefix)
    ensures BalancedBody(rest) && '\r' !in rest && '=' !in rest
  {
    var i := Find(content, INTERFACE).value;
    var n := i + |INTERFACE|;
    prefix, rest := content[..n], content[n..];
    assert content == prefix + rest;
    PartPlain(content, n, '\r');
    PartPlain(content, n, '=');
    MarkerCut(content, INTERFACE, i, prefix, rest);
  }

  lemma MarkerCut(content: string, marker: string, i: nat, prefix: string, rest: string)
    requires Find(content, marker) == Some(i) && content == prefix + rest && |prefix| == i + |marker|
    ensures First(prefix, marker, i)
  {
    FindMeans(content, marker);
    FirstCut(prefix, rest, marker, i);
  }

  /** The braces are those of the text behind the marker. */
  lemma InterfaceSpan(content: string, prefix: string, rest: string, open: nat, close: nat)
    requires InterfacePrefix(prefix) && '=' !in rest && BraceSpan(rest).Some? && content == prefix + rest
    requires open == BraceSpan(rest).value.0 + |prefix| && close == BraceSpan(rest).value.1 + |prefix|
    ensures TypeBodySpan(content) == Some((open, close)) && TypeBody(content) == Some(Inner(rest))
  {
    InterfaceMarked(content, prefix, rest);
    SpanBehind(content, INTERFACE, |prefix|, rest, open, close);
    BodyOf(content, |prefix|, rest, open, close);
    MarkedBody(content, open, close, Inner(rest));
  }

  lemma InterfaceMarked(content: string, prefix: string, rest: string)
    requires InterfacePrefix(prefix) && '=' !in rest && content == prefix + rest
    ensures FirstIndex(content, '=').None? && content[|prefix|..] == rest
    ensures |INTERFACE| <= |prefix| && Find(content, INTERFACE) == Some(|prefix| - |INTERFACE|)
  {
    MarkerFound(prefix, rest, INTERFACE);
    NoEquals(prefix, rest);
    TailOf(prefix, rest);
  }

  lemma MarkerFound(prefix: string, rest: string, marker: string)
    requires |marker| <= |prefix| && First(prefix, marker, |prefix| - |marker|)
    ensures Find(prefix + rest, marker) == Some(|prefix| - |marker|)
  {
    FirstThen(prefix, rest, marker, |prefix| - |marker|);
    FindIs(prefix + rest, marker, |prefix| - |marker|);
  }

  lemma NoEquals(a: string, b: string)
    requires '=' !in a && '=' !in b
    ensures '=' !in a + b && FirstIndex(a + b, '=').None?
  {
  }

  lemma TailOf(a: string, b: string)
    ensures (a + b)[|a|..] == b
  {
  }

  lemma SpanBehind(content: string, marker: string, n: nat, rest: string, open: nat, close: nat)
    requires |marker| <= n <= |content| && Find(content, marker) == Some(n - |marker|)
    requires content[n..] == rest && BraceSpan(rest).Some?
    requires open == BraceSpan(rest).value.0 + n && close == BraceSpan(rest).value.1 + n
    ensures MarkerSpan(content, marker) == Some((open, close))
  {
    SpanAfterAt(content, n, rest, open, close);
    MarkerSpanAt(content, marker, n, Some((open, close)));
  }

  lemma SpanAfterAt(content: string, n: nat, rest: string, open: nat, close: nat)
    requires n <= |content| && content[n..] == rest && BraceSpan(rest).Some?
    requires open == BraceSpan(rest).value.0 + n && close == BraceSpan(rest).value.1 + n
    ensures SpanAfter(content, n) == Some((open, close))
  {
  }

  lemma MarkerSpanAt(content: string, marker: string, n: nat, span: Option<(nat, nat)>)
    requires |marker| <= n <= |content| && Find(content, marker) == Some(n - |marker|)
    requires SpanAfter(content, n) == span
    ensures MarkerSpan(content, marker) == span
  {
  }

  lemma BodyOf(content: string, n: nat, rest: string, open: nat, close: nat)
    requires n <= |content| && content[n..] == rest && BraceSpan(rest).Some?
    requires open == BraceSpan(rest).value.0 + n && close == BraceSpan(rest).value.1 + n
    ensures open < close < |content| && content[open + 1..close] == Inner(rest)
  {
    var (o, c) := BraceSpan(rest).value;
    SliceOfTail(content, n, o + 1, c);
  }

  lemma SliceOfTail(s: string, n: nat, i: nat, j: nat)
    requires n <= |s| && i <= j <= |s| - n
    ensures s[n..][i..j] == s[n + i..n + j]
  {
  }

  lemma MarkedBody(content: string, open: nat, close: nat, body: string)
    requires FirstIndex(content, '=').None? && MarkerSpan(content, INTERFACE) == Some((open, close))
    requires open < close < |content| && content[open + 1..close] == body
    ensures TypeBodySpan(content) == Some((open, close)) && TypeBody(content) == Some(body)
  {
    WithoutEquals(content);
    SpanBody(content, open, close, body);
  }

  lemma WithoutEquals(content: string)
    requires FirstIndex(content, '=').None?
    ensures TypeBodySpan(content) == MarkerSpan(content, INTERFACE)
  {
  }

  lemma SpanBody(content: string, open: nat, close: nat, body: string)
    requires TypeBodySpan(content) == Some((open, close)) && open < close < |content|
    requires content[open + 1..close] == body
    ensures TypeBody(content) == Some(body)
  {
  }

  lemma InterfaceScope(prefix: string, rest: string, inner: string)
    requires '=' !in prefix && '=' !in rest
    ensures WithBody(prefix + rest, inner) == PruneUnusedTypeImports(prefix + rest, inner)
  {
    assert '=' !in prefix + rest;
  }

  /** The line of the marker: it is no import, and too long to become one by what follows. */
  lemma InterfaceLine(prefix: string)
    requires InterfacePrefix(prefix)
    ensures var k := HeadLength(prefix);
            && k <= |prefix| - |INTERFACE| && NoNewline(prefix[k..]) && |TrimStart(prefix[k..])| >= |INTERFACE|
            && '\r' !in prefix[k..] && '\r' !in prefix[..k] && '=' !in prefix[k..] && '=' !in prefix[..k]
  {
    var k, i := HeadLength(prefix), |prefix| - |INTERFACE|;
    MarkerInLine(prefix, INTERFACE, k, i);
    PartPlain(prefix, k, '\r');
    PartPlain(prefix, k, '=');
    LineLength(prefix, INTERFACE, k, i);
  }

  lemma MarkerInLine(s: string, p: string, k: nat, i: nat)
    requires k <= |s| == i + |p| && At(s, p, i) && NoNewline(p) && (s[..k] == "" || Terminated(s[..k]))
    ensures k <= i
  {
    if i < k { NotAcross(s, p, i, k - 1); }
  }

  lemma LineLength(s: string, p: string, k: nat, i: nat)
    requires k <= i && |s| == i + |p| && At(s, p, i) && p != "" && !IsSpace(p[0])
    ensures |TrimStart(s[k..])| >= |p|
  {
    assert s[i..] == p;
    assert s[k..] == s[k..i] + p;
    TrimKeeps(s[k..i], p);
  }

  lemma {:induction false} TrimKeeps(x: string, s: string)
    requires s != "" && !IsSpace(s[0])
    ensures |TrimStart(x + s)| >= |s|
  {
    if x == "" {
      assert x + s == s;
    } else if IsSpace(x[0]) {
      assert (x + s)[1..] == x[1..] + s && (x + s)[0] == x[0];
      TrimKeeps(x[1..], s);
    } else {
      assert (x + s)[0] == x[0];
    }
  }

  lemma InterfaceLineThen(line: string, tail: string)
    requires NoNewline(line) && |TrimStart(line)| >= |IMPORT| && !ImportStart(line) && '\r' !in line
    requires Clean(tail) && '\r' !in tail
    ensures line + tail != "" && '\r' !in line + tail
    ensures forall l | l in Lines(line + tail) :: ImportedType(l).None?
  {
    CleanPrepend(line, tail);
    TrimStartConcat(line, tail);
    assert IMPORT <= TrimStart(line) + tail ==> IMPORT <= TrimStart(line);
    LinesClean(line + tail);
  }

  lemma PruneInterface(prefix: string, rest: string, scope: string)
    requires InterfacePrefix(prefix) && Clean(rest) && '\r' !in rest
    ensures PruneUnusedTypeImports(prefix + rest, scope) == Pruned(prefix, scope) + rest
  {
    InterfaceLine(prefix);
    var k := HeadLength(prefix);
    InterfaceLineThen(prefix[k..], rest);
    PrunePrefix(prefix, k, prefix[..k], prefix[k..], rest, scope);
  }

  /** Pruning touches only the whole lines before a text without imports. */
  lemma PrunePrefix(prefix: string, k: nat, head: string, line: string, rest: string, scope: string)
    requires k == HeadLength(prefix) && head == prefix[..k] && line == prefix[k..]
    requires line + rest != "" && '\r' !in line + rest
    requires forall l | l in Lines(line + rest) :: ImportedType(l).None?
    ensures PruneUnusedTypeImports(prefix + rest, scope) == Pruned(prefix, scope) + rest
  {
    PruneHead(head, line + rest, scope);
    CutAt(prefix, k, rest);
    Regroup(Terminate(Used(Lines(head), scope)), line, rest);
  }

  lemma CutAt(s: string, k: nat, rest: string)
    requires k <= |s|
    ensures s + rest == s[..k] + (s[k..] + rest)
  {
  }

  // ---------------------------------------------------------------- pruning the prefix

  lemma {:induction false} LinesWithout(s: string, p: string)
    requires Absent(s, p) && '\r' !in s
    ensures AllAbsent(Lines(s), p)
    decreases |s|
  {
    if s != "" && |FirstLine(s)| < |s| {
      var line, rest := LinesSplit(s);
      LineAbsent(line, rest, s, p);
      LinesWithout(rest, p);
    }
  }

  ghost predicate AllAbsent(lines: seq<string>, p: string) { forall l | l in lines :: Absent(l, p) }

  lemma LineAbsent(line: string, rest: string, s: string, p: string)
    requires s == line + "\n" + rest && '\r' !in s && Absent(s, p)
    ensures Absent(line, p) && Absent(rest, p) && '\r' !in rest && StripCr(line) == line
  {
    AbsentParts(line + "\n", rest, p);
    AbsentParts(line, "\n", p);
    SplitKeeps(line, rest, s);
  }

  lemma SplitKeeps(line: string, rest: string, s: string)
    requires s == line + "\n" + rest && '\r' !in s
    ensures '\r' !in rest && StripCr(line) == line
  {
    assert forall c | c in line || c in rest :: c in s;
  }

  lemma {:induction false} FirstAfterLines(lines: seq<string>, line: string, p: string, i: nat)
    requires NoNewline(p) && First(line, p, i) && AllAbsent(lines, p)
    ensures First(Terminate(lines) + line, p, |Terminate(lines)| + i)
  {
    if lines == [] {
      assert Terminate(lines) + line == line;
    } else {
      assert lines[0] in lines && forall l | l in lines[1..] :: l in lines;
      FirstAfterLines(lines[1..], line, p, i);
      FirstNextLine(lines[0], Terminate(lines[1..]) + line, p, |Terminate(lines[1..])| + i);
      Regroup(lines[0] + "\n", Terminate(lines[1..]), line);
    }
  }

  /** The line on which an interface begins. */
  ghost predicate MarkerLine(line: string) {
    && |INTERFACE| <= |line| && First(line, INTERFACE, |line| - |INTERFACE|)
    && '=' !in line && '\r' !in line && NoNewline(line) && !ImportStart(line)
  }

  /** Used lines in front of the line of an interface form a prefix that pruning leaves alone. */
  lemma PlainInterface(lines: seq<string>, line: string, scope: string)
    requires PlainUsed(lines, scope) && AllAbsent(lines, INTERFACE) && MarkerLine(line)
    ensures InterfacePrefix(Terminate(lines) + line)
    ensures Pruned(Terminate(lines) + line, scope) == Terminate(lines) + line
  {
    var head := Terminate(lines);
    PlainHead(lines, line, head, scope);
    LinesThen(lines, line, head);
    PrefixOf(head, line, head + line);
    PrunedFixed(head, line, lines, scope);
  }

  lemma LinesThen(lines: seq<string>, line: string, head: string)
    requires AllAbsent(lines, INTERFACE) && MarkerLine(line) && head == Terminate(lines)
    ensures First(head + line, INTERFACE, |head| + (|line| - |INTERFACE|))
  {
    FirstAfterLines(lines, line, INTERFACE, |line| - |INTERFACE|);
  }

  lemma PrefixOf(head: string, line: string, prefix: string)
    requires prefix == head + line && HeadLength(prefix) == |head| && MarkerLine(line) && '=' !in head && '\r' !in head
    requires First(prefix, INTERFACE, |head| + (|line| - |INTERFACE|))
    ensures InterfacePrefix(prefix)
  {
    TailOf(head, line);
    assert prefix[|head|..] == line;
  }

  lemma PrunedInterface(prefix: string, scope: string)
    requires InterfacePrefix(prefix)
    ensures InterfacePrefix(Pruned(prefix, scope))
    ensures Pruned(Pruned(prefix, scope), scope) == Pruned(prefix, scope)
  {
    var k := HeadLength(prefix);
    PrefixParts(prefix, k, prefix[..k], prefix[k..], scope);
    PlainInterface(Used(Lines(prefix[..k]), scope), prefix[k..], scope);
  }

  lemma PrefixParts(prefix: string, k: nat, head: string, line: string, scope: string)
    requires InterfacePrefix(prefix) && k == HeadLength(prefix) && head == prefix[..k] && line == prefix[k..]
    ensures PlainUsed(Used(Lines(head), scope), scope) && AllAbsent(Used(Lines(head), scope), INTERFACE)
    ensures MarkerLine(line)
  {
    LinePlain(prefix, k, head, line);
    PartsMarked(prefix, k, head, line);
    HeadPlain(head, scope);
  }

  lemma PartsMarked(prefix: string, k: nat, head: string, line: string)
    requires InterfacePrefix(prefix) && k <= |prefix| && head == prefix[..k] && line == prefix[k..]
    requires |INTERFACE| <= |line|
    ensures First(line, INTERFACE, |line| - |INTERFACE|) && Absent(head, INTERFACE)
  {
    assert head + line == prefix;
    MarkerParts(prefix, head, line, INTERFACE);
  }

  lemma HeadPlain(head: string, scope: string)
    requires '\r' !in head && '=' !in head && Absent(head, INTERFACE)
    ensures PlainUsed(Used(Lines(head), scope), scope) && AllAbsent(Used(Lines(head), scope), INTERFACE)
  {
    LinesWithout(head, INTERFACE);
    UsedAbsent(head, scope, INTERFACE);
    UsedLinesPlain(head, scope);
  }

  lemma LinePlain(prefix: string, k: nat, head: string, line: string)
    requires InterfacePrefix(prefix) && k == HeadLength(prefix) && head == prefix[..k] && line == prefix[k..]
    ensures |INTERFACE| <= |line| && NoNewline(line) && !ImportStart(line)
    ensures '\r' !in line && '\r' !in head && '=' !in line && '=' !in head
  {
    InterfaceLine(prefix);
  }

  lemma MarkerParts(prefix: string, head: string, line: string, marker: string)
    requires head + line == prefix && 0 < |marker| <= |line| && First(prefix, marker, |prefix| - |marker|)
    ensures First(line, marker, |line| - |marker|) && Absent(head, marker)
  {
    FirstParts(head, line, marker, |line| - |marker|);
  }

  lemma UsedAbsent(head: string, scope: string, marker: string)
    requires AllAbsent(Lines(head), marker)
    ensures AllAbsent(Used(Lines(head), scope), marker)
  {
    UsedOnly(Lines(head), scope);
  }

  // ---------------------------------------------------------------- the laws

  lemma ReplacedPlain(rest: string, names: set<string>)
    requires BraceSpan(rest).Some? && '=' !in rest
    ensures '=' !in Replaced(rest, NewInner(rest, names))
  {
    var (o, c) := BraceSpan(rest).value;
    SplitFromChars(START, "", Inner(rest), FIELD_ENDS);
    FilterSubset(Split(Inner(rest), FIELD_ENDS), field => KeepField(field, names));
    assert forall x | x in "" + Inner(rest) :: x in rest;
    JoinChars(KeptFields(Inner(rest), names), ", ", '=');
    PartPlain(rest, o + 1, '=');
    PartPlain(rest, c, '=');
  }

  /** What filtering makes of an interface file: fewer imports, and the kept fields between the braces. */
  lemma InterfaceShape(prefix: string, rest: string, names: set<string>)
    requires InterfacePrefix(prefix) && BalancedBody(rest) && '\r' !in rest && '=' !in rest
    ensures var inner := NewInner(rest, names);
            FilterTypeFields(prefix + rest, names) == Pruned(prefix, inner) + Replaced(rest, inner)
            && InterfacePrefix(Pruned(prefix, inner)) && Pruned(Pruned(prefix, inner), inner) == Pruned(prefix, inner)
  {
    var inner := NewInner(rest, names);
    var open, close := BraceSpan(rest).value.0 + |prefix|, BraceSpan(rest).value.1 + |prefix|;
    InterfaceSpan(prefix + rest, prefix, rest, open, close);
    FilterAt(prefix + rest, prefix, rest, names, open, close);
    ReplacedPlain(rest, names);
    InterfaceScope(prefix, Replaced(rest, inner), inner);
    ReplacedClean(rest, names);
    PruneInterface(prefix, Replaced(rest, inner), inner);
    PrunedInterface(prefix, inner);
  }

  lemma InterfaceInner(prefix: string, rest: string, names: set<string>)
    requires InterfacePrefix(prefix) && BalancedBody(rest) && '\r' !in rest && '=' !in rest
    ensures TypeBody(FilterTypeFields(prefix + rest, names)) == Some(NewInner(rest, names))
  {
    var inner := NewInner(rest, names);
    var prefix', rest' := Pruned(prefix, inner), Replaced(rest, inner);
    InterfaceShape(prefix, rest, names);
    NewInnerProperties(rest, names);
    ReplacedAgain(rest, inner);
    ReplacedPlain(rest, names);
    InterfaceSpan(prefix' + rest', prefix', rest',
                  BraceSpan(rest').value.0 + |prefix'|, BraceSpan(rest').value.1 + |prefix'|);
  }

  /** A generated file with an object type: an alias or an interface. */
  predicate TypeFile(content: string) { FieldFile(content) || InterfaceFile(content) }

  /** The filtered file holds exactly the other fields, in order. */
  lemma FilterKeepsFields(content: string, names: set<string>)
    requires TypeFile(content)
    ensures TypeBody(content).Some? && TypeBody(FilterTypeFields(content, names)).Some?
    ensures Split(TypeBody(FilterTypeFields(content, names)).value, FIELD_ENDS)
         == KeptFields(TypeBody(content).value, names)
  {
    if FieldFile(content) {
      FilterTypeFieldsKeepsExactly(content, names);
    } else {
      var prefix, rest := InterfaceParts(content);
      InterfaceSpan(content, prefix, rest, BraceSpan(rest).value.0 + |prefix|, BraceSpan(rest).value.1 + |prefix|);
      InterfaceInner(prefix, rest, names);
      NewInnerProperties(rest, names);
    }
  }

  /** Filtering the fields a second time changes nothing. */
  lemma FilterFieldsIdempotent(content: string, names: set<string>)
    requires TypeFile(content)
    ensures FilterTypeFields(FilterTypeFields(content, names), names) == FilterTypeFields(content, names)
  {
    if FieldFile(content) {
      FilterTypeFieldsIdempotent(content, names);
    } else {
      var prefix, rest := InterfaceParts(content);
      var inner := NewInner(rest, names);
      var rest' := Replaced(rest, inner);
      InterfaceShape(prefix, rest, names);
      NewInnerProperties(rest, names);
      ReplacedAgain(rest, inner);
      ReplacedClean(rest, names);
      ReplacedPlain(rest, names);
      InterfaceShape(Pruned(prefix, inner), rest', names);
    }
  }
  /** Of the fields those stay, in order, whose name is not among the experimental ones. */
  lemma FieldsKept(content: string, names: set<string>, filtered: string) returns (at: seq<nat>)
    requires TypeFile(content) && filtered == FilterTypeFields(content, names)
    ensures TypeBody(content).Some? && TypeBody(filtered).Some?
    ensures var fields := Split(TypeBody(content).value, FIELD_ENDS);
            && Selects(fields, at, Split(TypeBody(filtered).value, FIELD_ENDS))
            && forall i: nat | i < |fields| ::
                 i in at <==> !exists name :: name in names
                                && ParsePropertyName(StripLeadingBlockComments(fields[i])) == Some(name)
  {
    FilterKeepsFields(content, names);
    at := FilterSelects(Split(TypeBody(content).value, FIELD_ENDS), field => KeepField(field, names));
  }
}
