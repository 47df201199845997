/**
 The scanner for generated TypeScript types, splitting at top-level delimiters, and the proof
 that joining undoes splitting.
 */
module TsScan {
  import opened Wrappers
  import opened Selection

  /** Open brackets of each kind, the quote of an open string, and a pending escape in it. */
  datatype Scan = Scan(brace: nat, bracket: nat, paren: nat, angle: nat, delim: Option<char>, escape: bool) {
    predicate InString() { delim.Some? }
    predicate TopLevel() { brace == 0 && bracket == 0 && paren == 0 && angle == 0 }
  }

  const START := Scan(0, 0, 0, 0, None, false)

  function Pred(n: nat): nat { if n == 0 then 0 else n - 1 }

  function Next(s: Scan, c: char): Scan {
    if s.InString() then
      if s.escape then s.(escape := false)
      else if c == '\\' then s.(escape := true)
      else if c == s.delim.value then s.(delim := None)
      else s
    else if c == '"' || c == '\'' then s.(delim := Some(c))
    else if c == '{' then s.(brace := s.brace + 1)
    else if c == '}' then s.(brace := Pred(s.brace))
    else if c == '[' then s.(bracket := s.bracket + 1)
    else if c == ']' then s.(bracket := Pred(s.bracket))
    else if c == '(' then s.(paren := s.paren + 1)
    else if c == ')' then s.(paren := Pred(s.paren))
    else if c == '<' then s.(angle := s.angle + 1)
    else if c == '>' then s.(angle := Pred(s.angle))
    else s
  }

  function Run(s: Scan, text: string): Scan
    decreases |text|
  {
    if text == "" then s else Run(Next(s, text[0]), text[1..])
  }

  /** The Unicode White_Space characters. */
  predicate IsSpace(c: char) {
    || '\t' <= c <= '\r' || c == ' ' || c == '\U{85}' || c == '\U{A0}' || c == '\U{1680}'
    || '\U{2000}' <= c <= '\U{200A}' || c == '\U{2028}' || c == '\U{2029}' || c == '\U{202F}'
    || c == '\U{205F}' || c == '\U{3000}'
  }

  predicate Blank(s: string) { forall c | c in s :: IsSpace(c) }

  function TrimStart(s: string): string {
    if s != "" && IsSpace(s[0]) then TrimStart(s[1..]) else s
  }

  function TrimEnd(s: string): string {
    if s != "" && IsSpace(s[|s| - 1]) then TrimEnd(s[..|s| - 1]) else s
  }

  function Trim(s: string): string { TrimEnd(TrimStart(s)) }

  predicate Trimmed(s: string) {
    s != "" && !IsSpace(s[0]) && !IsSpace(s[|s| - 1])
  }

  /** `c` ends a part when the scanner is in state `s`. */
  predicate Cuts(s: Scan, c: char, delims: set<char>) {
    !s.InString() && s.TopLevel() && c in delims
  }

  function Part(s: string): seq<string> {
    if Trim(s) == "" then [] else [Trim(s)]
  }

  /** Split what remains of a text, with the part `current` under way. */
  function SplitFrom(s: Scan, current: string, rest: string, delims: set<char>): seq<string>
    decreases |rest|
  {
    if rest == "" then Part(current)
    else if Cuts(s, rest[0], delims) then Part(current) + SplitFrom(Next(s, rest[0]), "", rest[1..], delims)
    else SplitFrom(Next(s, rest[0]), current + [rest[0]], rest[1..], delims)
  }

  function Split(text: string, delims: set<char>): seq<string> {
    SplitFrom(START, "", text, delims)
  }

  function Join(parts: seq<string>, separator: string): string {
    if parts == [] then ""
    else if |parts| == 1 then parts[0]
    else parts[0] + separator + Join(parts[1..], separator)
  }

  /** No delimiter of `text` ends a part when scanning starts in state `s`. */
  predicate Uncut(s: Scan, text: string, delims: set<char>)
    decreases |text|
  {
    text == "" || (!Cuts(s, text[0], delims) && Uncut(Next(s, text[0]), text[1..], delims))
  }

  /** Delimiters are ordinary characters to the scanner, and visible. */
  predicate Delimiters(delims: set<char>) {
    forall c | c in delims :: c !in "\"'{}[]()<>" && !IsSpace(c)
  }

  predicate Closed(text: string) { Run(START, text) == START }

  /** A list of parts as splitting produces it: only the last part may be left open. */
  predicate PartList(parts: seq<string>, delims: set<char>) {
    forall i | 0 <= i < |parts| ::
      Trimmed(parts[i]) && Uncut(START, parts[i], delims) && (i < |parts| - 1 ==> Closed(parts[i]))
  }

  // ---------------------------------------------------------------- trimming and blanks

  lemma {:induction false} TrimStartShape(s: string) returns (k: nat)
    ensures k <= |s| && Blank(s[..k]) && TrimStart(s) == s[k..]
    ensures TrimStart(s) != "" ==> !IsSpace(TrimStart(s)[0])
  {
    if s != "" && IsSpace(s[0]) {
      var j := TrimStartShape(s[1..]);
      k := j + 1;
      assert s[..k] == [s[0]] + s[1..][..j];
    } else {
      k := 0;
    }
  }

  lemma {:induction false} TrimEndShape(s: string) returns (k: nat)
    ensures k <= |s| && Blank(s[k..]) && TrimEnd(s) == s[..k]
    ensures TrimEnd(s) != "" ==> !IsSpace(TrimEnd(s)[k - 1])
  {
    if s != "" && IsSpace(s[|s| - 1]) {
      k := TrimEndShape(s[..|s| - 1]);
      assert s[k..] == s[..|s| - 1][k..] + [s[|s| - 1]];
      assert s[..|s| - 1][..k] == s[..k];
    } else {
      k := |s|;
    }
  }

  /** Trimming cuts blanks off both ends. */
  lemma TrimShape(s: string) returns (before: string, after: string)
    ensures s == before + Trim(s) + after && Blank(before) && Blank(after)
    ensures Trim(s) != "" ==> Trimmed(Trim(s))
  {
    var k := TrimStartShape(s);
    var t := s[k..];
    var j := TrimEndShape(t);
    before, after := s[..k], t[j..];
    assert s == s[..k] + (t[..j] + t[j..]);
    if Trim(s) != "" { assert Trim(s)[0] == t[0]; }
  }

  lemma {:induction false} TrimStartOf(blank: string, s: string)
    requires Blank(blank) && s != "" && !IsSpace(s[0])
    ensures TrimStart(blank + s) == s
  {
    if blank == "" {
      assert blank + s == s;
    } else {
      assert (blank + s)[0] == blank[0] && (blank + s)[1..] == blank[1..] + s;
      assert blank[0] in blank && forall c | c in blank[1..] :: c in blank;
      TrimStartOf(blank[1..], s);
    }
  }

  lemma {:induction false} TrimEndOf(s: string, blank: string)
    requires Blank(blank) && s != "" && !IsSpace(s[|s| - 1])
    ensures TrimEnd(s + blank) == s
  {
    var t := s + blank;
    if blank == "" {
      assert t == s;
    } else {
      assert t[|t| - 1] == blank[|blank| - 1] && t[..|t| - 1] == s + blank[..|blank| - 1];
      assert blank[|blank| - 1] in blank && forall c | c in blank[..|blank| - 1] :: c in blank;
      TrimEndOf(s, blank[..|blank| - 1]);
    }
  }

  /** A trimmed text is what trimming leaves of it between blanks. */
  lemma TrimOf(before: string, s: string, after: string)
    requires Blank(before) && Blank(after) && Trimmed(s)
    ensures Trim(before + s + after) == s
  {
    assert before + s + after == before + (s + after);
    assert (s + after)[0] == s[0];
    TrimStartOf(before, s + after);
    TrimEndOf(s, after);
  }

  // ---------------------------------------------------------------- scanning concatenations

  lemma {:induction false} RunConcat(s: Scan, a: string, b: string)
    ensures Run(s, a + b) == Run(Run(s, a), b)
    decreases |a|
  {
    if a == "" {
      assert a + b == b;
    } else {
      assert (a + b)[0] == a[0] && (a + b)[1..] == a[1..] + b;
      RunConcat(Next(s, a[0]), a[1..], b);
    }
  }

  lemma {:induction false} UncutConcat(s: Scan, a: string, b: string, delims: set<char>)
    ensures Uncut(s, a + b, delims) <==> Uncut(s, a, delims) && Uncut(Run(s, a), b, delims)
    decreases |a|
  {
    if a == "" {
      assert a + b == b;
    } else {
      assert (a + b)[0] == a[0] && (a + b)[1..] == a[1..] + b;
      UncutConcat(Next(s, a[0]), a[1..], b, delims);
    }
  }

  lemma {:induction false} RunBlank(s: Scan, blank: string)
    requires Blank(blank) && !s.InString()
    ensures Run(s, blank) == s
  {
    if blank != "" {
      assert IsSpace(blank[0]) && Next(s, blank[0]) == s;
      assert forall c | c in blank[1..] :: c in blank;
      RunBlank(s, blank[1..]);
    }
  }

  /** Blanks never close a string. */
  lemma {:induction false} BlankKeepsString(s: Scan, blank: string)
    requires Blank(blank) && s.InString() && s.delim.value in {'"', '\''}
    ensures Run(s, blank).InString()
    decreases |blank|
  {
    if blank != "" {
      assert IsSpace(blank[0]);
      assert forall c | c in blank[1..] :: c in blank;
      BlankKeepsString(Next(s, blank[0]), blank[1..]);
    }
  }

  /** Strings are opened by quotes only, and escapes are pending only inside strings. */
  predicate Proper(s: Scan) {
    (s.InString() ==> s.delim.value in {'"', '\''}) && (s.escape ==> s.InString())
  }

  lemma {:induction false} RunProper(s: Scan, text: string)
    requires Proper(s)
    ensures Proper(Run(s, text))
    decreases |text|
  {
    if text != "" { RunProper(Next(s, text[0]), text[1..]); }
  }

  /** Trimming a part changes neither its being closed nor its being uncut. */
  lemma TrimKeepsScan(part: string, delims: set<char>)
    requires Uncut(START, part, delims)
    ensures Uncut(START, Trim(part), delims)
    ensures Closed(part) ==> Closed(Trim(part))
  {
    var before, after := TrimShape(part);
    var t := Trim(part);
    assert before + t + after == before + (t + after);
    RunConcat(START, before, t + after);
    UncutConcat(START, before, t + after, delims);
    RunBlank(START, before);
    RunConcat(START, t, after);
    UncutConcat(START, t, after, delims);
    RunProper(START, t);
    if Run(START, t).InString() {
      BlankKeepsString(Run(START, t), after);
    } else {
      RunBlank(Run(START, t), after);
    }
  }

  // ---------------------------------------------------------------- splitting and joining

  lemma PartListCons(part: string, parts: seq<string>, delims: set<char>)
    requires Uncut(START, part, delims) && (parts != [] ==> Closed(part)) && PartList(parts, delims)
    ensures PartList(Part(part) + parts, delims)
  {
    var _, _ := TrimShape(part);
    TrimKeepsScan(part, delims);
  }

  /** Splitting produces trimmed, uncut parts, all closed except perhaps the last. */
  lemma {:induction false} SplitFromParts(s: Scan, current: string, rest: string, delims: set<char>)
    requires Delimiters(delims) && s == Run(START, current) && Uncut(START, current, delims)
    ensures PartList(SplitFrom(s, current, rest, delims), delims)
    decreases |rest|
  {
    if rest == "" {
      PartListCons(current, [], delims);
      assert Part(current) + [] == Part(current);
    } else if Cuts(s, rest[0], delims) {
      RunProper(START, current);
      assert s == START && Next(s, rest[0]) == START;
      SplitFromParts(START, "", rest[1..], delims);
      PartListCons(current, SplitFrom(START, "", rest[1..], delims), delims);
    } else {
      RunConcat(START, current, [rest[0]]);
      UncutConcat(START, current, [rest[0]], delims);
      SplitFromParts(Next(s, rest[0]), current + [rest[0]], rest[1..], delims);
    }
  }

  lemma SplitParts(text: string, delims: set<char>)
    requires Delimiters(delims)
    ensures PartList(Split(text, delims), delims)
  {
    SplitFromParts(START, "", text, delims);
  }

  /** An uncut stretch of text is taken into the part under way. */
  lemma {:induction false} SplitUncut(s: Scan, current: string, text: string, rest: string, delims: set<char>)
    requires Uncut(s, text, delims)
    ensures SplitFrom(s, current, text + rest, delims) == SplitFrom(Run(s, text), current + text, rest, delims)
    decreases |text|
  {
    if text == "" {
      assert text + rest == rest && current + text == current;
    } else {
      assert (text + rest)[0] == text[0] && (text + rest)[1..] == text[1..] + rest;
      assert current + text == current + [text[0]] + text[1..];
      SplitUncut(Next(s, text[0]), current + [text[0]], text[1..], rest, delims);
    }
  }

  predicate Separator(before: string, d: char, after: string, delims: set<char>) {
    Blank(before) && Blank(after) && d in delims && Delimiters(delims)
  }

  lemma {:induction false} BlankUncut(blank: string, delims: set<char>)
    requires Blank(blank) && Delimiters(delims)
    ensures Uncut(START, blank, delims)
  {
    if blank != "" {
      assert IsSpace(blank[0]) && Next(START, blank[0]) == START;
      assert forall c | c in blank[1..] :: c in blank;
      BlankUncut(blank[1..], delims);
    }
  }

  /** A closed part, a separator, and what follows. */
  lemma SplitPartThen(blank: string, p: string, before: string, d: char, after: string, tail: string, delims: set<char>)
    requires Blank(blank) && Separator(before, d, after, delims)
    requires Trimmed(p) && Uncut(START, p, delims) && Closed(p)
    ensures SplitFrom(START, blank, p + (before + ([d] + (after + tail))), delims)
         == [p] + SplitFrom(START, after, tail, delims)
  {
    var rest := [d] + (after + tail);
    SplitUncut(START, blank, p, before + rest, delims);
    BlankUncut(before, delims);
    RunBlank(START, before);
    SplitUncut(START, blank + p, before, rest, delims);
    TrimOf(blank, p, before);
    assert rest[1..] == after + tail;
    assert SplitFrom(START, blank + p + before, rest, delims) == [p] + SplitFrom(START, "", after + tail, delims);
    BlankUncut(after, delims);
    RunBlank(START, after);
    SplitUncut(START, "", after, tail, delims);
    assert "" + after == after;
  }

  lemma SplitLast(blank: string, p: string, delims: set<char>)
    requires Blank(blank) && Trimmed(p) && Uncut(START, p, delims)
    ensures SplitFrom(START, blank, p, delims) == [p]
  {
    SplitUncut(START, blank, p, "", delims);
    TrimOf(blank, p, "");
    assert p + "" == p && blank + p + "" == blank + p;
  }

  lemma TrimBlank(blank: string)
    requires Blank(blank)
    ensures Trim(blank) == ""
  {
    var b, a := TrimShape(blank);
    assert forall c | c in Trim(blank) :: c in blank;
  }

  /** Splitting a joined list of parts gives back exactly the parts. */
  lemma {:induction false} SplitJoinFrom(blank: string, parts: seq<string>, before: string, d: char, after: string,
                                         delims: set<char>)
    requires Blank(blank) && PartList(parts, delims) && Separator(before, d, after, delims)
    ensures SplitFrom(START, blank, Join(parts, before + [d] + after), delims) == parts
    decreases |parts|
  {
    if parts == [] {
      TrimBlank(blank);
    } else if |parts| == 1 {
      SplitLast(blank, parts[0], delims);
    } else {
      var tail := Join(parts[1..], before + [d] + after);
      assert Join(parts, before + [d] + after) == parts[0] + (before + ([d] + (after + tail)));
      SplitPartThen(blank, parts[0], before, d, after, tail, delims);
      SplitJoinFrom(after, parts[1..], before, d, after, delims);
    }
  }

  function Filter(parts: seq<string>, keep: string -> bool): seq<string> {
    if parts == [] then []
    else if keep(parts[0]) then [parts[0]] + Filter(parts[1..], keep)
    else Filter(parts[1..], keep)
  }

  lemma {:induction false} FilterPartList(parts: seq<string>, keep: string -> bool, delims: set<char>)
    requires PartList(parts, delims)
    ensures PartList(Filter(parts, keep), delims)
    ensures |parts| <= 1 ==> |Filter(parts, keep)| <= |parts|
  {
    if parts != [] {
      assert PartList(parts[1..], delims) by {
        assert forall i | 0 <= i < |parts| - 1 :: parts[1..][i] == parts[i + 1];
      }
      FilterPartList(parts[1..], keep, delims);
    }
  }

  lemma {:induction false} FilterNext(init: seq<string>, last: string, keep: string -> bool)
    ensures Filter(init + [last], keep) == Filter(init, keep) + (if keep(last) then [last] else [])
  {
    if init == [] {
      assert ([] + [last])[1..] == [];
    } else {
      assert (init + [last])[1..] == init[1..] + [last] && (init + [last])[0] == init[0];
      FilterNext(init[1..], last, keep);
    }
  }

  /** Filtering picks exactly the parts to keep, in order. */
  lemma {:induction false} FilterSelects(parts: seq<string>, keep: string -> bool) returns (at: seq<nat>)
    ensures Selects(parts, at, Filter(parts, keep))
    ensures forall i: nat | i < |parts| :: i in at <==> keep(parts[i])
  {
    if parts == [] {
      at := [];
    } else {
      var init, last := parts[..|parts| - 1], parts[|parts| - 1];
      at := FilterSelects(init, keep);
      assert parts == init + [last];
      FilterNext(init, last, keep);
      SelectsNext(init, at, Filter(init, keep), last);
      if keep(last) { at := at + [|init|]; }
    }
  }

  lemma {:induction false} FilterIdempotent(parts: seq<string>, keep: string -> bool)
    ensures Filter(Filter(parts, keep), keep) == Filter(parts, keep)
  {
    if parts != [] { FilterIdempotent(parts[1..], keep); }
  }

  /**
   For every text and every selection of its parts, splitting the joined selection gives back
   exactly the selected parts, in order.
   */
  lemma SplitJoinFiltered(text: string, keep: string -> bool, before: string, d: char, after: string, delims: set<char>)
    requires Separator(before, d, after, delims)
    ensures var kept := Filter(Split(text, delims), keep);
            PartList(kept, delims) && Split(Join(kept, before + [d] + after), delims) == kept
  {
    SplitParts(text, delims);
    FilterPartList(Split(text, delims), keep, delims);
    SplitJoinFrom("", Filter(Split(text, delims), keep), before, d, after, delims);
  }
}
