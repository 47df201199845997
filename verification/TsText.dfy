/**
 Lines of a generated TypeScript file, and the removal of type imports that are no longer used.
 */
module TsText {
  import opened Wrappers
  import opened TsScan

  const IMPORT := "import type {"
  const FROM := "} from "

  predicate NoNewline(s: string) { '\n' !in s }

  /** The text before the first newline. */
  function FirstLine(s: string): (line: string)
    ensures NoNewline(line) && |line| <= |s| && line == s[..|line|] && (|line| < |s| ==> s[|line|] == '\n')
  {
    if s == "" || s[0] == '\n' then "" else [s[0]] + FirstLine(s[1..])
  }

  function StripCr(line: string): string {
    if line != "" && line[|line| - 1] == '\r' then line[..|line| - 1] else line
  }

  /** The lines of a text, without their terminators. */
  function Lines(s: string): seq<string>
    decreases |s|
  {
    if s == "" then []
    else if |FirstLine(s)| == |s| then [s]
    else [StripCr(FirstLine(s))] + Lines(s[|FirstLine(s)| + 1..])
  }

  /** The first occurrence of `pattern`. */
  function Find(s: string, pattern: string): (r: Option<nat>)
    ensures r.Some? ==> r.value + |pattern| <= |s|
  {
    if pattern <= s then Some(0)
    else if s == "" then None
    else match Find(s[1..], pattern) case Some(i) => Some(i + 1) case None => None
  }

  /** The first occurrence of a character. */
  function FirstIndex(s: string, c: char): (r: Option<nat>)
    ensures r.Some? ==> r.value < |s| && s[r.value] == c && forall i | 0 <= i < r.value :: s[i] != c
    ensures r.None? ==> c !in s
  {
    if s == "" then None
    else if s[0] == c then Some(0)
    else match FirstIndex(s[1..], c) case Some(i) => Some(i + 1) case None => None
  }

  lemma FirstIndexIs(s: string, c: char, i: nat)
    requires i < |s| && s[i] == c && c !in s[..i]
    ensures FirstIndex(s, c) == Some(i)
  {
  }

  /** The single type that a line imports, if it is such an import. */
  function ImportedType(line: string): Option<string> {
    var t := Trim(line);
    if !(IMPORT <= t) then None
    else
      match Find(t[|IMPORT|..], FROM)
      case None => None
      case Some(i) =>
        var name := Trim(t[|IMPORT|..|IMPORT| + i]);
        if name == "" || ',' in name || Find(name, " as ").Some? then None else Some(name)
  }

  predicate Unused(line: string, scope: string) {
    ImportedType(line).Some? && Find(scope, ImportedType(line).value).None?
  }

  function Used(lines: seq<string>, scope: string): seq<string> {
    if lines == [] then []
    else if Unused(lines[0], scope) then Used(lines[1..], scope)
    else [lines[0]] + Used(lines[1..], scope)
  }

  predicate Terminated(s: string) { s != "" && s[|s| - 1] == '\n' }

  function PruneUnusedTypeImports(content: string, scope: string): string {
    Join(Used(Lines(content), scope), "\n") + (if Terminated(content) then "\n" else "")
  }

  /** Each line with a newline after it. */
  function Terminate(lines: seq<string>): string {
    if lines == [] then "" else lines[0] + "\n" + Terminate(lines[1..])
  }

  lemma {:induction false} FirstLineIs(line: string, rest: string, s: string)
    requires NoNewline(line) && s == line + "\n" + rest
    ensures FirstLine(s) == line
  {
    if line != "" {
      assert s[0] == line[0] && line[0] in line && s[1..] == line[1..] + "\n" + rest;
      FirstLineIs(line[1..], rest, s[1..]);
    }
  }

  lemma LinesStep(line: string, rest: string, s: string)
    requires NoNewline(line) && s == line + "\n" + rest
    ensures Lines(s) == [StripCr(line)] + Lines(rest)
  {
    FirstLineIs(line, rest, s);
    assert s[|line| + 1..] == rest;
  }

  /** A text with a newline in it is its first line, the newline and the rest. */
  lemma LinesSplit(s: string) returns (line: string, rest: string)
    requires |FirstLine(s)| < |s|
    ensures NoNewline(line) && s == line + "\n" + rest && Lines(s) == [StripCr(line)] + Lines(rest)
    ensures Terminated(s) <==> rest == "" || Terminated(rest)
  {
    line, rest := FirstLine(s), s[|FirstLine(s)| + 1..];
    CutLine(s, |line|);
    LinesStep(line, rest, s);
  }

  lemma CutLine(s: string, n: nat)
    requires n < |s| && s[n] == '\n'
    ensures s == s[..n] + "\n" + s[n + 1..]
    ensures Terminated(s) <==> s[n + 1..] == "" || Terminated(s[n + 1..])
  {
    assert s[n + 1..] != "" ==> s[n + 1..][|s| - n - 2] == s[|s| - 1];
  }

  lemma Regroup(a: string, b: string, c: string)
    ensures (a + b) + c == a + (b + c)
  {
  }

  lemma RegroupLines(l: string, a: seq<string>, b: seq<string>)
    ensures ([l] + a) + b == [l] + (a + b)
  {
  }

  lemma {:induction false} LinesConcat(head: string, rest: string)
    requires head == "" || Terminated(head)
    ensures Lines(head + rest) == Lines(head) + Lines(rest)
    decreases |head|
  {
    if head == "" {
      assert head + rest == rest;
    } else {
      var line, tail := LinesSplit(head);
      LinesConcat(tail, rest);
      Regroup(line + "\n", tail, rest);
      LinesStep(line, tail + rest, head + rest);
      RegroupLines(StripCr(line), Lines(tail), Lines(rest));
    }
  }

  lemma {:induction false} UsedConcat(a: seq<string>, b: seq<string>, scope: string)
    ensures Used(a + b, scope) == Used(a, scope) + Used(b, scope)
  {
    if a == [] {
      assert a + b == b;
    } else {
      assert (a + b)[1..] == a[1..] + b;
      UsedConcat(a[1..], b, scope);
    }
  }

  lemma {:induction false} UsedAll(lines: seq<string>, scope: string)
    requires forall l | l in lines :: !Unused(l, scope)
    ensures Used(lines, scope) == lines
  {
    if lines != [] {
      assert lines[0] in lines && forall l | l in lines[1..] :: l in lines;
      UsedAll(lines[1..], scope);
      assert lines == [lines[0]] + lines[1..];
    }
  }

  lemma {:induction false} UsedOnly(lines: seq<string>, scope: string)
    ensures forall l | l in Used(lines, scope) :: l in lines && !Unused(l, scope)
  {
    if lines != [] { UsedOnly(lines[1..], scope); }
  }

  /** Without carriage returns, joining the lines of a text restores it. */
  lemma {:induction false} JoinLines(s: string)
    requires '\r' !in s
    ensures Join(Lines(s), "\n") + (if Terminated(s) then "\n" else "") == s
    ensures s != "" ==> Lines(s) != []
    decreases |s|
  {
    if s != "" && |FirstLine(s)| < |s| {
      var line, rest := LinesSplit(s);
      assert forall c | c in line || c in rest :: c in s;
      JoinLines(rest);
      JoinFirst(line, Lines(rest));
      if rest != "" {
        Regroup(line + "\n", Join(Lines(rest), "\n"), if Terminated(rest) then "\n" else "");
      }
    }
  }

  lemma JoinFirst(line: string, lines: seq<string>)
    ensures Join([line] + lines, "\n") == if lines == [] then line else line + "\n" + Join(lines, "\n")
  {
  }

  lemma {:induction false} JoinTerminated(a: seq<string>, b: seq<string>)
    requires b != []
    ensures Join(a + b, "\n") == Terminate(a) + Join(b, "\n")
  {
    if a == [] {
      assert a + b == b;
    } else {
      assert (a + b)[1..] == a[1..] + b;
      JoinTerminated(a[1..], b);
    }
  }

  predicate PlainLines(lines: seq<string>) { forall l | l in lines :: NoNewline(l) && '\r' !in l }

  lemma PlainTail(lines: seq<string>)
    requires PlainLines(lines) && lines != []
    ensures PlainLines(lines[1..]) && NoNewline(lines[0]) && '\r' !in lines[0]
    ensures lines == [lines[0]] + lines[1..]
  {
    assert lines[0] in lines && forall l | l in lines[1..] :: l in lines;
  }

  lemma {:induction false} LinesOfTerminate(lines: seq<string>)
    requires PlainLines(lines)
    ensures Lines(Terminate(lines)) == lines
    ensures lines != [] ==> Terminated(Terminate(lines))
  {
    if lines != [] {
      PlainTail(lines);
      LinesOfTerminate(lines[1..]);
      TerminateStep(lines, lines[0], lines[1..]);
    }
  }

  lemma TerminateStep(lines: seq<string>, line: string, rest: seq<string>)
    requires lines == [line] + rest && NoNewline(line) && '\r' !in line
    requires Lines(Terminate(rest)) == rest && (Terminate(rest) == "" || Terminated(Terminate(rest)))
    ensures Lines(Terminate(lines)) == lines && Terminated(Terminate(lines))
  {
    assert lines[1..] == rest;
    LineThen(line, Terminate(rest));
  }

  lemma LineThen(line: string, rest: string)
    requires NoNewline(line) && '\r' !in line && (rest == "" || Terminated(rest))
    ensures Lines(line + "\n" + rest) == [line] + Lines(rest) && Terminated(line + "\n" + rest)
  {
    LinesStep(line, rest, line + "\n" + rest);
  }

  lemma {:induction false} LinesPlain(s: string)
    requires '\r' !in s
    ensures forall l | l in Lines(s) :: NoNewline(l) && forall c | c in l :: c in s
    decreases |s|
  {
    if s != "" && |FirstLine(s)| < |s| {
      var rest := s[|FirstLine(s)| + 1..];
      assert forall c | c in rest :: c in s;
      LinesPlain(rest);
    }
  }

  /**
   Pruning the imports in front of a text that has none itself: the head keeps the used ones,
   the rest is unchanged.
   */
  lemma PruneHead(head: string, rest: string, scope: string)
    requires (head == "" || Terminated(head)) && rest != "" && '\r' !in rest
    requires forall l | l in Lines(rest) :: ImportedType(l).None?
    ensures PruneUnusedTypeImports(head + rest, scope) == Terminate(Used(Lines(head), scope)) + rest
  {
    var used := Used(Lines(head), scope);
    UsedLines(head, rest, scope);
    JoinLines(rest);
    JoinTerminated(used, Lines(rest));
    Regroup(Terminate(used), Join(Lines(rest), "\n"), if Terminated(rest) then "\n" else "");
    LastChar(head, rest);
  }

  lemma LastChar(head: string, rest: string)
    requires rest != ""
    ensures Terminated(head + rest) == Terminated(rest)
  {
  }

  lemma UsedLines(head: string, rest: string, scope: string)
    requires (head == "" || Terminated(head)) && forall l | l in Lines(rest) :: ImportedType(l).None?
    ensures Used(Lines(head + rest), scope) == Used(Lines(head), scope) + Lines(rest)
  {
    LinesConcat(head, rest);
    UsedConcat(Lines(head), Lines(rest), scope);
    UsedAll(Lines(rest), scope);
  }

  // ---------------------------------------------------------------- text without import lines

  predicate ImportStart(s: string) { IMPORT <= TrimStart(s) }

  /** No line after the first begins like a type import. */
  predicate Clean(s: string) {
    forall j | 0 <= j < |s| && s[j] == '\n' :: !ImportStart(s[j + 1..])
  }

  /** What follows cannot complete a type import begun before it. */
  predicate Breaks(rest: string) {
    rest != "" && forall k | 0 < k < |IMPORT| :: !(IMPORT[k..] <= rest)
  }

  predicate EndsVisibly(s: string) { s != "" && !IsSpace(s[|s| - 1]) }

  /** The last character of the text does not occur before the end of a type import's opening. */
  predicate Stops(s: string) {
    EndsVisibly(s) && s[|s| - 1] !in IMPORT[..|IMPORT| - 1]
  }

  lemma {:induction false} TrimStartConcat(a: string, b: string)
    requires TrimStart(a) != ""
    ensures TrimStart(a + b) == TrimStart(a) + b
  {
    assert (a + b)[0] == a[0] && (a + b)[1..] == a[1..] + b;
    if IsSpace(a[0]) { TrimStartConcat(a[1..], b); }
  }

  lemma ImportStartMonotone(a: string, b: string)
    ensures ImportStart(a) ==> ImportStart(a + b)
  {
    if ImportStart(a) { TrimStartConcat(a, b); }
  }

  lemma {:induction false} TrimStartVisible(s: string)
    requires EndsVisibly(s)
    ensures TrimStart(s) != "" && TrimStart(s)[|TrimStart(s)| - 1] == s[|s| - 1]
  {
    if IsSpace(s[0]) { TrimStartVisible(s[1..]); }
  }

  lemma PrefixSplit(p: string, t: string, rest: string)
    requires 0 < |t| < |p|
    ensures p <= t + rest ==> p[|t| - 1] == t[|t| - 1] && p[|t|..] <= rest
  {
  }

  lemma ImportStartAppend(a: string, rest: string)
    requires EndsVisibly(a) && !ImportStart(a) && (Breaks(rest) || Stops(a))
    ensures !ImportStart(a + rest)
  {
    TrimStartVisible(a);
    TrimStartConcat(a, rest);
    var t := TrimStart(a);
    if |t| < |IMPORT| {
      PrefixSplit(IMPORT, t, rest);
      assert IMPORT[|t| - 1] in IMPORT[..|IMPORT| - 1];
    } else {
      assert (t + rest)[..|IMPORT|] == t[..|IMPORT|];
    }
  }

  lemma CleanInfix(x: string, y: string, z: string)
    requires Clean(x + y + z)
    ensures Clean(y)
  {
    forall j | 0 <= j < |y| && y[j] == '\n' ensures !ImportStart(y[j + 1..]) {
      var all := x + y + z;
      assert all[|x| + j] == '\n' && all[|x| + j + 1..] == y[j + 1..] + z;
      ImportStartMonotone(y[j + 1..], z);
    }
  }

  lemma CleanAppend(a: string, rest: string)
    requires Clean(a) && Clean(rest) && EndsVisibly(a) && (Breaks(rest) || Stops(a))
    ensures Clean(a + rest)
  {
    forall j | 0 <= j < |a + rest| && (a + rest)[j] == '\n' ensures !ImportStart((a + rest)[j + 1..]) {
      if j < |a| { CleanAppendAt(a, rest, j); } else { TailOfSecond(a, rest, j); }
    }
  }

  lemma CleanAppendAt(a: string, rest: string, j: nat)
    requires Clean(a) && EndsVisibly(a) && (Breaks(rest) || Stops(a)) && j < |a| && a[j] == '\n'
    ensures !ImportStart((a + rest)[j + 1..])
  {
    assert (a + rest)[j + 1..] == a[j + 1..] + rest;
    assert a[j + 1..] != "" && a[j + 1..][|a| - j - 2] == a[|a| - 1];
    ImportStartAppend(a[j + 1..], rest);
  }

  lemma TailOfSecond(a: string, rest: string, j: nat)
    requires |a| <= j < |a + rest|
    ensures (a + rest)[j + 1..] == rest[j - |a| + 1..] && (a + rest)[j] == rest[j - |a|]
  {
  }

  lemma FirstLineClean(s: string)
    requires !ImportStart(s)
    ensures ImportedType(FirstLine(s)).None?
  {
    var line := FirstLine(s);
    var k := TrimEndShape(TrimStart(line));
    ImportStartMonotone(line, s[|line|..]);
    assert line + s[|line|..] == s;
  }

  lemma RestClean(s: string, k: nat)
    requires Clean(s) && k < |s| && s[k] == '\n'
    ensures Clean(s[k + 1..]) && !ImportStart(s[k + 1..])
  {
  }

  /** A clean text whose first line is no type import either has no line that is one. */
  lemma {:induction false} LinesClean(s: string)
    requires Clean(s) && !ImportStart(s) && '\r' !in s
    ensures forall l | l in Lines(s) :: ImportedType(l).None?
    decreases |s|
  {
    if s != "" {
      FirstLineClean(s);
      if |FirstLine(s)| < |s| {
        RestClean(s, |FirstLine(s)|);
        LinesClean(s[|FirstLine(s)| + 1..]);
        KeepsFirstLine(s);
      } else {
        assert Lines(s) == [s] && FirstLine(s) == s;
      }
    }
  }

  lemma KeepsFirstLine(s: string)
    requires '\r' !in s
    ensures StripCr(FirstLine(s)) == FirstLine(s)
  {
  }
}
