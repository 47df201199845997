/** What the union filter reads in an arm of a generated request union. */
module TsArm {
  import opened Wrappers
  import opened TsScan
  import opened TsText
  import opened TsFilter
  import opened TsSpan
  import opened TsFields

  const COMMA: set<char> := {','}

  /** Text that needs no escape between double quotes. */
  predicate PlainLiteral(s: string) { '"' !in s && '\\' !in s }

  function Literal(s: string): string { "\"" + s + "\"" }

  /** The first field of an arm, as it is generated for a method. */
  function MethodField(name: string): string { Literal("method") + (": " + Literal(name)) }

  function Arm(name: string, more: string): string { "{" + Fields(name, more) + "}" }

  function Fields(name: string, more: string): string {
    " " + (MethodField(name) + ("" + ([','] + (" " + more))))
  }

  // ---------------------------------------------------------------- literals

  lemma {:induction false} InsideLiteral(s: Scan, text: string)
    requires s == START.(delim := Some('"')) && PlainLiteral(text)
    ensures Run(s, text) == s && Uncut(s, text, COMMA) && NoDip(s, text)
  {
    if text != "" {
      assert text[0] in text && forall c | c in text[1..] :: c in text;
      InsideLiteral(s, text[1..]);
    }
  }

  lemma OneChar(s: Scan, c: char)
    ensures Run(s, [c]) == Next(s, c)
    ensures Uncut(s, [c], COMMA) <==> !Cuts(s, c, COMMA)
    ensures NoDip(s, [c]) <==> !(c == '}' && !s.InString() && s.brace == 0)
  {
    assert [c][1..] == "";
  }

  predicate Harmless(s: Scan, text: string) { Uncut(s, text, COMMA) && NoDip(s, text) }

  lemma HarmlessConcat(s: Scan, a: string, b: string)
    requires Harmless(s, a) && Harmless(Run(s, a), b)
    ensures Harmless(s, a + b) && Run(s, a + b) == Run(Run(s, a), b)
  {
    RunConcat(s, a, b);
    UncutConcat(s, a, b, COMMA);
    NoDipConcat(s, a, b);
  }

  lemma LiteralHarmless(text: string)
    requires PlainLiteral(text)
    ensures Harmless(START, Literal(text)) && Run(START, Literal(text)) == START
  {
    var inside := START.(delim := Some('"'));
    OneChar(START, '"');
    InsideLiteral(inside, text);
    HarmlessConcat(START, "\"", text);
    OneChar(inside, '"');
    HarmlessConcat(START, "\"" + text, "\"");
  }

  lemma FieldHarmless(name: string)
    requires PlainLiteral(name)
    ensures Harmless(START, MethodField(name)) && Run(START, MethodField(name)) == START
  {
    LiteralHarmless("method");
    LiteralHarmless(name);
    OneChar(START, ':');
    OneChar(START, ' ');
    HarmlessConcat(START, [':'], [' ']);
    assert [':'] + [' '] == ": ";
    HarmlessConcat(START, ": ", Literal(name));
    HarmlessConcat(START, Literal("method"), ": " + Literal(name));
  }

  lemma {:induction false} LiteralEndIs(s: string, i: nat, j: nat)
    requires i <= j < |s| && s[j] == '"' && forall k | i <= k < j :: s[k] != '"' && s[k] != '\\'
    ensures LiteralEnd(s, i, '"', false) == Some(j)
    decreases j - i
  {
    if i < j { LiteralEndIs(s, i + 1, j); }
  }

  lemma ParsedLiteral(text: string, rest: string)
    requires PlainLiteral(text)
    ensures ParseStringLiteral(Literal(text) + rest) == Some((text, |Literal(text)|))
    ensures TrimStart(Literal(text) + rest) == Literal(text) + rest
  {
    var s := Literal(text) + rest;
    forall k | 1 <= k < |text| + 1 ensures s[k] != '"' && s[k] != '\\' { assert s[k] == text[k - 1]; }
    LiteralEndIs(s, 1, |text| + 1);
    assert s[1..|text| + 1] == text;
  }

  // ---------------------------------------------------------------- the arm

  lemma MethodProperty(name: string)
    requires PlainLiteral(name)
    ensures ParseProperty(MethodField(name)) == Some(("method", Literal(name)))
  {
    var field, after := MethodField(name), ": " + Literal(name);
    ParsedLiteral("method", after);
    var k := |Literal("method")|;
    assert field[k..] == after && after[0] == ':' && TrimStart(after) == after;
    assert ":" <= after;
    assert ':' !in Literal("method") && field[..k] == Literal("method");
    FirstIndexIs(field, ':', k);
    assert field[k + 1..] == " " + Literal(name);
    ParsedLiteral(name, "");
    assert Literal(name) + "" == Literal(name) && (" " + Literal(name))[1..] == Literal(name);
    assert TrimStart(" " + Literal(name)) == Literal(name);
  }

  lemma SplitFields(name: string, more: string)
    requires PlainLiteral(name)
    ensures Split(Fields(name, more), COMMA) == [MethodField(name)] + SplitFrom(START, " ", more, COMMA)
  {
    var field := MethodField(name);
    FieldHarmless(name);
    assert field[0] == '"' && field[|field| - 1] == '"';
    BlankUncut(" ", COMMA);
    RunBlank(START, " ");
    SplitUncut(START, "", " ", field + ("" + ([','] + (" " + more))), COMMA);
    assert "" + " " == " " && Trimmed(field) && Separator("", ',', " ", COMMA);
    SplitPartThen(" ", field, "", ',', " ", more, COMMA);
  }

  lemma FieldsBalanced(name: string, more: string)
    requires PlainLiteral(name) && Balanced(more)
    ensures Balanced(Fields(name, more))
  {
    FieldHarmless(name);
    OneChar(START, ' ');
    OneChar(START, ',');
    BalancedConcat(" ", more);
    BalancedConcat([','], " " + more);
    BalancedConcat("", [','] + (" " + more));
    BalancedConcat(MethodField(name), "" + ([','] + (" " + more)));
    BalancedConcat(" ", MethodField(name) + ("" + ([','] + (" " + more))));
  }

  lemma ArmSpan(inner: string, arm: string)
    requires Balanced(inner) && arm == "{" + inner + "}"
    ensures BraceSpan(arm) == Some((0, |inner| + 1)) && arm[1..|inner| + 1] == inner
  {
    assert arm[1..1 + |inner|] == inner && arm[..0] == "";
    SpanAround(arm, 0, inner, |inner| + 1);
    BraceSpanIs(arm, 0, |inner| + 1);
  }

  /** The filter reads the method of a generated arm, whatever its other fields are. */
  lemma MethodOfArm(name: string, more: string)
    requires PlainLiteral(name) && Balanced(more)
    ensures ExtractMethod(Arm(name, more)) == Some(name)
  {
    var arm, inner := Arm(name, more), Fields(name, more);
    FieldsBalanced(name, more);
    ArmSpan(inner, arm);
    SplitFields(name, more);
    MethodProperty(name);
    ParsedLiteral(name, "");
    assert Literal(name) + "" == Literal(name);
    assert Split(inner, COMMA)[0] == MethodField(name);
  }

  /** Such an arm is kept exactly when its method is not experimental. */
  lemma ArmKept(name: string, more: string, methods: set<string>)
    requires PlainLiteral(name) && Balanced(more)
    ensures KeepArm(Arm(name, more), methods) <==> name == "" || name !in methods
  {
    MethodOfArm(name, more);
  }
}
