/** Which braces the search for an object type settles on. */
module TsSpan {
  import opened Wrappers
  import opened TsScan
  import opened TsFilter

  /** An opening brace at top level, outside strings. */
  predicate Opens(text: string, i: nat) {
    i < |text| && text[i] == '{'
    && !Run(START, text[..i]).InString() && Run(START, text[..i]).TopLevel()
  }

  /** A closing brace that returns to top level, outside strings. */
  predicate Returns(text: string, i: nat) {
    i < |text| && text[i] == '}'
    && !Run(START, text[..i + 1]).InString() && Run(START, text[..i + 1]).TopLevel()
  }

  /** `o` is the last top-level opening brace before `n`. */
  predicate LastOpen(text: string, n: nat, o: nat) {
    o < n && Opens(text, o) && forall i | o < i < n :: !Opens(text, i)
  }

  /** The brace at `c` ends an object type: it returns to top level after some opening there. */
  predicate Closes(text: string, c: nat) {
    Returns(text, c) && exists o | 0 <= o < c :: LastOpen(text, c, o)
  }

  /** What the search has seen before position `i`. */
  ghost predicate Seen(text: string, i: nat, s: Scan, open: Option<nat>) {
    && i <= |text| && s == Run(START, text[..i])
    && (if open.Some? then LastOpen(text, i, open.value) else forall o: nat | o < i :: !Opens(text, o))
  }

  lemma RunNext(text: string, i: nat)
    requires i < |text|
    ensures Run(START, text[..i + 1]) == Next(Run(START, text[..i]), text[i])
  {
    RunConcat(START, text[..i], [text[i]]);
    assert text[..i + 1] == text[..i] + [text[i]] && [text[i]][1..] == "";
  }

  lemma SeenNext(text: string, i: nat, s: Scan, open: Option<nat>)
    requires i < |text| && Seen(text, i, s, open)
    ensures var open' := if !s.InString() && text[i] == '{' && s.TopLevel() then Some(i) else open;
            Seen(text, i + 1, Next(s, text[i]), open')
  {
    RunNext(text, i);
  }

  lemma SeenClose(text: string, i: nat, s: Scan, open: Option<nat>)
    requires i < |text| && Seen(text, i, s, open)
    ensures var t := Next(s, text[i]);
            Closes(text, i) <==> !t.InString() && text[i] == '}' && t.TopLevel() && open.Some?
    ensures Closes(text, i) ==> forall o: nat :: LastOpen(text, i, o) <==> o == open.value
  {
    RunNext(text, i);
  }

  /** The first closing brace from `i` on, with the last opening brace before it. */
  ghost predicate FirstSpan(text: string, i: nat, o: nat, c: nat) {
    i <= c && Closes(text, c) && LastOpen(text, c, o) && forall d | i <= d < c :: !Closes(text, d)
  }

  lemma FirstSpanNext(text: string, i: nat, o: nat, c: nat)
    requires !Closes(text, i)
    ensures FirstSpan(text, i, o, c) <==> FirstSpan(text, i + 1, o, c)
  {
  }

  /** One step of the search. */
  lemma SpanStep(text: string, i: nat, s: Scan, open: Option<nat>)
    requires i < |text| && Seen(text, i, s, open) && (open.Some? ==> open.value < i && text[open.value] == '{')
    ensures var t, open' := Next(s, text[i]), if !s.InString() && text[i] == '{' && s.TopLevel() then Some(i) else open;
            && Seen(text, i + 1, t, open')
            && (if Closes(text, i) then open.Some? && SpanFrom(s, i, open, text) == Some((open.value, i))
                                        && FirstSpan(text, i, open.value, i)
                else SpanFrom(s, i, open, text) == SpanFrom(t, i + 1, open', text))
  {
    SeenClose(text, i, s, open);
    SeenNext(text, i, s, open);
  }

  lemma {:induction false} SpanFromIs(text: string, i: nat, s: Scan, open: Option<nat>)
    requires Seen(text, i, s, open)
    requires open.Some? ==> open.value < i && text[open.value] == '{'
    ensures match SpanFrom(s, i, open, text)
            case Some(span) => FirstSpan(text, i, span.0, span.1)
            case None => forall c | i <= c :: !Closes(text, c)
    decreases |text| - i
  {
    if i < |text| {
      SpanStep(text, i, s, open);
      if !Closes(text, i) {
        var open' := if !s.InString() && text[i] == '{' && s.TopLevel() then Some(i) else open;
        SpanFromIs(text, i + 1, Next(s, text[i]), open');
        match SpanFrom(s, i, open, text)
        case Some(span) => FirstSpanNext(text, i, span.0, span.1);
        case None =>
      }
    }
  }

  lemma FirstSpanUnique(text: string, o: nat, c: nat, o': nat, c': nat)
    requires FirstSpan(text, 0, o, c) && FirstSpan(text, 0, o', c')
    ensures o == o' && c == c'
  {
    assert !(c < c') && !(c' < c);
    assert !(o < o') && !(o' < o);
  }

  /**
   The search finds the first brace that returns to top level after an opening there, paired with
   the last such opening before it; it finds nothing exactly when there is no such brace.
   */
  lemma BraceSpanIs(text: string, o: nat, c: nat)
    ensures BraceSpan(text) == Some((o, c)) <==> FirstSpan(text, 0, o, c)
    ensures BraceSpan(text).None? <==> forall d :: !Closes(text, d)
  {
    SpanFromIs(text, 0, START, None);
    match BraceSpan(text)
    case Some(span) => if FirstSpan(text, 0, o, c) { FirstSpanUnique(text, o, c, span.0, span.1); }
    case None =>
  }

  lemma BraceSpanFound(text: string)
    ensures match BraceSpan(text)
            case Some(span) => FirstSpan(text, 0, span.0, span.1)
            case None => forall c :: !Closes(text, c)
  {
    SpanFromIs(text, 0, START, None);
  }
}
