/** The scanner as the exporter runs it: a state that is updated character by character. */
module TsScanner {
  import opened Wrappers
  import opened TsScan
  import opened TsFilter
  import opened TsSpan

  class ScanState {
    var brace: nat
    var bracket: nat
    var paren: nat
    var angle: nat
    var stringDelim: Option<char>
    var escape: bool

    function State(): Scan
      reads this
    {
      Scan(brace, bracket, paren, angle, stringDelim, escape)
    }

    constructor ()
      ensures State() == START
    {
      brace, bracket, paren, angle, stringDelim, escape := 0, 0, 0, 0, None, false;
    }

    method Observe(ch: char)
      modifies this
      ensures State() == Next(old(State()), ch)
    {
      if stringDelim.Some? {
        if escape {
          escape := false;
          return;
        }
        if ch == '\\' {
          escape := true;
          return;
        }
        if ch == stringDelim.value { stringDelim := None; }
        return;
      }
      match ch
      case '"' => stringDelim := Some(ch);
      case '\'' => stringDelim := Some(ch);
      case '{' => brace := brace + 1;
      case '}' => brace := if brace == 0 then 0 else brace - 1;
      case '[' => bracket := bracket + 1;
      case ']' => bracket := if bracket == 0 then 0 else bracket - 1;
      case '(' => paren := paren + 1;
      case ')' => paren := if paren == 0 then 0 else paren - 1;
      case '<' => angle := angle + 1;
      case '>' => if angle > 0 { angle := angle - 1; }
      case _ =>
    }

    predicate InString()
      reads this
    {
      stringDelim.Some?
    }

    predicate IsTopLevel()
      reads this
    {
      brace == 0 && bracket == 0 && paren == 0 && angle == 0
    }
  }

  /** One character of the splitting loop, with the part under way between `start` and `index`. */
  lemma SplitStep(input: string, start: nat, index: nat, s: Scan, delims: set<char>)
    requires start <= index < |input|
    ensures SplitFrom(s, input[start..index], input[index..], delims) ==
            if Cuts(s, input[index], delims)
            then Part(input[start..index])
                 + SplitFrom(Next(s, input[index]), input[index + 1..index + 1], input[index + 1..], delims)
            else SplitFrom(Next(s, input[index]), input[start..index + 1], input[index + 1..], delims)
  {
    assert input[index..][1..] == input[index + 1..];
    assert input[start..index] + [input[index]] == input[start..index + 1];
    assert input[index + 1..index + 1] == "";
  }

  lemma SplitEnd(input: string, start: nat, s: Scan, delims: set<char>)
    requires start <= |input|
    ensures SplitFrom(s, input[start..|input|], input[|input|..], delims) == Part(input[start..])
  {
    assert input[|input|..] == "" && input[start..|input|] == input[start..];
  }

  lemma Regroup(a: seq<string>, b: seq<string>, c: seq<string>, all: seq<string>)
    requires a + (b + c) == all
    ensures (a + b) + c == all
  {
  }

  /** Add a part, unless only blanks are in it. */
  method PushPart(parts: seq<string>, text: string) returns (r: seq<string>)
    ensures r == parts + Part(text)
  {
    var part := Trim(text);
    r := if part != "" then parts + [part] else parts;
  }

  method SplitTopLevelMulti(input: string, delimiters: set<char>) returns (parts: seq<string>)
    ensures parts == Split(input, delimiters)
  {
    var state := new ScanState();
    var start := 0;
    parts := [];
    ghost var rest := Split(input, delimiters);
    assert input[0..0] == "" && input[0..] == input;
    for index := 0 to |input|
      invariant fresh(state) && start <= index
      invariant rest == SplitFrom(state.State(), input[start..index], input[index..], delimiters)
      invariant parts + rest == Split(input, delimiters)
    {
      var ch := input[index];
      SplitStep(input, start, index, state.State(), delimiters);
      if !state.InString() && state.IsTopLevel() && ch in delimiters {
        ghost var after :=
          SplitFrom(Next(state.State(), ch), input[index + 1..index + 1], input[index + 1..], delimiters);
        Regroup(parts, Part(input[start..index]), after, Split(input, delimiters));
        parts := PushPart(parts, input[start..index]);
        start, rest := index + 1, after;
      }
      state.Observe(ch);
    }
    SplitEnd(input, start, state.State(), delimiters);
    parts := PushPart(parts, input[start..]);
  }

  /** The loop returns the first top-level braces: see FirstSpan. */
  method FindTopLevelBraceSpan(input: string) returns (span: Option<(nat, nat)>)
    ensures span == BraceSpan(input)
    ensures span.Some? ==> FirstSpan(input, 0, span.value.0, span.value.1)
    ensures span.None? ==> forall c :: !Closes(input, c)
  {
    var state := new ScanState();
    var openIndex: Option<nat> := None;
    BraceSpanFound(input);
    for index := 0 to |input|
      invariant fresh(state) && (openIndex.Some? ==> openIndex.value < index && input[openIndex.value] == '{')
      invariant SpanFrom(state.State(), index, openIndex, input) == BraceSpan(input)
    {
      var ch := input[index];
      if !state.InString() && ch == '{' && state.IsTopLevel() { openIndex := Some(index); }
      state.Observe(ch);
      if !state.InString() && ch == '}' && state.IsTopLevel() && openIndex.Some? {
        return Some((openIndex.value, index));
      }
    }
    return None;
  }
}
