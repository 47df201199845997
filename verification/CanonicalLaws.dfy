/** What the canonical form does to arrays and objects, in terms of the documents alone. */
module CanonicalLaws {
  import opened Wrappers
  import opened JsonText
  import opened Sorting
  import opened Form = Canonical

  /** `a` comes before `b`, or is `b`, when strings are compared code point by code point. */
  ghost predicate Before(a: string, b: string) {
    a <= b || exists k :: 0 <= k < |a| && k < |b| && a[..k] == b[..k] && a[k] < b[k]
  }

  ghost predicate HoldsText(es: seq<Entry>, key: string, text: string) {
    exists i :: 0 <= i < |es| && es[i] == Entry(key, String(text))
  }

  /** The text an array item is sorted by, if it has one. */
  ghost predicate KeyText(v: Doc, key: string) {
    || (v == Null && key == "null")
    || (v == Bool(true) && key == "b:true")
    || (v == Bool(false) && key == "b:false")
    || (v.Number? && key == "n:" + v.literal)
    || (v.String? && key == "s:" + v.text)
    || (v.Object? && exists s :: HoldsText(v.entries, "$ref", s) && key == "ref:" + s)
    || (v.Object? && (forall s :: !HoldsText(v.entries, "$ref", s))
        && exists s :: HoldsText(v.entries, "title", s) && key == "title:" + s)
  }

  ghost predicate Sortable(v: Doc) { exists key :: KeyText(v, key) }

  // ---------------------------------------------------------------- reading the sort key

  lemma {:induction false} LexMeans(a: string, b: string)
    ensures LexLe(a, b) <==> Before(a, b)
  {
    if a != "" && b != "" {
      LexMeans(a[1..], b[1..]);
      if a[0] == b[0] {
        BeforeTail(a, b);
      } else if a[0] < b[0] {
        assert a[..0] == b[..0];
      }
    }
  }

  lemma BeforeTail(a: string, b: string)
    requires a != "" && b != "" && a[0] == b[0]
    ensures Before(a, b) <==> Before(a[1..], b[1..])
  {
    var x, y := a[1..], b[1..];
    assert a == [a[0]] + x && b == [b[0]] + y;
    if !(a <= b) && Before(a, b) {
      var k :| 0 <= k < |a| && k < |b| && a[..k] == b[..k] && a[k] < b[k];
      assert x[..k - 1] == a[..k][1..] && y[..k - 1] == b[..k][1..];
      assert x[k - 1] < y[k - 1];
    }
    if !(x <= y) && Before(x, y) {
      var k :| 0 <= k < |x| && k < |y| && x[..k] == y[..k] && x[k] < y[k];
      assert a[..k + 1] == [a[0]] + x[..k] && b[..k + 1] == [b[0]] + y[..k];
      assert a[k + 1] < b[k + 1];
    }
  }

  lemma {:induction false} StringUnderMeans(es: seq<Entry>, key: string, text: string)
    requires DistinctKeys(es)
    ensures StringUnder(es, key) == Some(text) <==> HoldsText(es, key, text)
  {
    if es != [] {
      StringUnderMeans(es[1..], key, text);
      if HoldsText(es[1..], key, text) {
        var i :| 0 <= i < |es[1..]| && es[1..][i] == Entry(key, String(text));
        assert es[i + 1] == Entry(key, String(text));
      }
      if HoldsText(es, key, text) && es[0] != Entry(key, String(text)) {
        var i :| 0 <= i < |es| && es[i] == Entry(key, String(text));
        assert es[1..][i - 1] == Entry(key, String(text));
      }
    }
  }

  lemma SortKeyMeans(v: Doc, key: string)
    requires WellFormed(v)
    ensures SortKey(v) == Some(key) <==> KeyText(v, key)
  {
    match v
    case Object(es) =>
      forall s ensures StringUnder(es, "$ref") == Some(s) <==> HoldsText(es, "$ref", s) {
        StringUnderMeans(es, "$ref", s);
      }
      forall s ensures StringUnder(es, "title") == Some(s) <==> HoldsText(es, "title", s) {
        StringUnderMeans(es, "title", s);
      }
    case Bool(b) => assert "b:" + "true" == "b:true" && "b:" + "false" == "b:false";
    case _ =>
  }

  lemma SortableMeans(v: Doc)
    requires WellFormed(v)
    ensures SortKey(v).Some? <==> Sortable(v)
  {
    forall key ensures SortKey(v) == Some(key) <==> KeyText(v, key) { SortKeyMeans(v, key); }
    if SortKey(v).Some? { assert KeyText(v, SortKey(v).value); }
  }

  lemma AllSortable(xs: seq<Doc>)
    requires forall i | 0 <= i < |xs| :: WellFormed(xs[i])
    ensures AllKeyed(xs) <==> forall x | x in xs :: Sortable(x)
  {
    forall i | 0 <= i < |xs| ensures SortKey(xs[i]).Some? <==> Sortable(xs[i]) { SortableMeans(xs[i]); }
  }

  // ---------------------------------------------------------------- arrays

  /** An array whose items are all sortable has one canonical form, whatever their order. */
  lemma ArrayForgetsOrder(xs: seq<Doc>, ys: seq<Doc>)
    requires WellFormed(Array(xs)) && multiset(xs) == multiset(ys) && forall x | x in xs :: Sortable(x)
    ensures Canonical(Array(xs)) == Canonical(Array(ys))
  {
    SameElements(xs, ys);
    forall i | 0 <= i < |ys| ensures WellFormed(ys[i]) { assert ys[i] in ys; }
    AllSortable(xs);
    AllSortable(ys);
    CanonicalKeyed(xs);
    CanonicalKeyed(ys);
    CanonicalPermutes(xs, ys);
    ItemsForgetOrder(CanonicalItems(xs), CanonicalItems(ys));
  }

  lemma SameElements<T>(xs: seq<T>, ys: seq<T>)
    requires multiset(xs) == multiset(ys)
    ensures forall x :: x in xs <==> x in ys
  {
    forall x ensures x in xs <==> x in ys {
      assert x in xs <==> x in multiset(xs);
      assert x in ys <==> x in multiset(ys);
    }
  }

  lemma {:induction false} CanonicalPermutes(xs: seq<Doc>, ys: seq<Doc>)
    requires multiset(xs) == multiset(ys)
    ensures multiset(CanonicalItems(xs)) == multiset(CanonicalItems(ys))
    decreases |xs|
  {
    if xs == [] {
      assert |multiset(ys)| == 0;
    } else {
      var j := FirstAmong(xs, ys);
      var rest := ys[..j] + ys[j + 1..];
      WithoutOne(xs, 0, xs[1..]);
      WithoutOne(ys, j, rest);
      CanonicalPermutes(xs[1..], rest);
      CanonicalSplit(xs, 0, xs[1..]);
      CanonicalSplit(ys, j, rest);
    }
  }

  lemma WithoutOne<T>(s: seq<T>, j: nat, rest: seq<T>)
    requires j < |s| && rest == s[..j] + s[j + 1..]
    ensures multiset(s) == multiset(rest) + multiset{s[j]} && multiset(rest) == multiset(s) - multiset{s[j]}
  {
    assert s == s[..j] + [s[j]] + s[j + 1..];
  }

  lemma FirstAmong<T>(xs: seq<T>, ys: seq<T>) returns (j: nat)
    requires multiset(xs) == multiset(ys) && xs != []
    ensures j < |ys| && ys[j] == xs[0]
  {
    SameElements(xs, ys);
    assert xs[0] in xs;
    j :| 0 <= j < |ys| && ys[j] == xs[0];
  }

  lemma CanonicalSplit(ys: seq<Doc>, j: nat, rest: seq<Doc>)
    requires j < |ys| && rest == ys[..j] + ys[j + 1..]
    ensures multiset(CanonicalItems(ys)) == multiset(CanonicalItems(rest)) + multiset{Canonical(ys[j])}
  {
    var c, d := CanonicalItems(ys), CanonicalItems(rest);
    assert d == c[..j] + c[j + 1..];
    WithoutOne(c, j, d);
  }

  /** An array with an item that is not sortable keeps the order of its items. */
  lemma ArrayKeepsOrder(xs: seq<Doc>)
    requires WellFormed(Array(xs)) && exists x | x in xs :: !Sortable(x)
    ensures Canonical(Array(xs)).Array? && |Canonical(Array(xs)).items| == |xs|
    ensures forall i | 0 <= i < |xs| :: Canonical(Array(xs)).items[i] == Canonical(xs[i])
  {
    AllSortable(xs);
    CanonicalKeyed(xs);
  }

  /** Otherwise its canonical items come sorted by their key texts, and with equal ones by their JSON texts. */
  lemma ArraySorted(xs: seq<Doc>)
    requires WellFormed(Array(xs)) && forall x | x in xs :: Sortable(x)
    ensures Canonical(Array(xs)).Array?
    ensures var ys := Canonical(Array(xs)).items;
            && multiset(ys) == multiset(CanonicalItems(xs))
            && forall i, j, k, l | 0 <= i < j < |ys| && KeyText(ys[i], k) && KeyText(ys[j], l) ::
                 Before(k, l) && (k == l ==> Before(Serialize(ys[i]), Serialize(ys[j])))
  {
    AllSortable(xs);
    CanonicalKeyed(xs);
    var ys := Canonical(Array(xs)).items;
    ItemOrder();
    SortProperties(CanonicalItems(xs), ItemLe);
    SameElements(ys, CanonicalItems(xs));
    forall i, j, k, l | 0 <= i < j < |ys| && KeyText(ys[i], k) && KeyText(ys[j], l)
      ensures Before(k, l) && (k == l ==> Before(Serialize(ys[i]), Serialize(ys[j])))
    {
      assert ys[i] in ys && ys[j] in ys;
      OrderedKeys(ys[i], ys[j], k, l);
    }
  }

  lemma OrderedKeys(a: Doc, b: Doc, k: string, l: string)
    requires WellFormed(a) && WellFormed(b) && ItemLe(a, b) && KeyText(a, k) && KeyText(b, l)
    ensures Before(k, l) && (k == l ==> Before(Serialize(a), Serialize(b)))
  {
    SortKeyMeans(a, k);
    SortKeyMeans(b, l);
    LexMeans(k, l);
    LexMeans(Serialize(a), Serialize(b));
  }

  /** In particular an array of strings comes out in ascending order. */
  lemma StringsAscend(xs: seq<Doc>)
    requires forall x | x in xs :: x.String?
    ensures Canonical(Array(xs)).Array?
    ensures var ys := Canonical(Array(xs)).items;
            && multiset(ys) == multiset(xs)
            && forall i, j | 0 <= i < j < |ys| :: ys[i].String? && ys[j].String? && Before(ys[i].text, ys[j].text)
  {
    PlainStrings(xs);
    ArraySorted(xs);
    var ys := Canonical(Array(xs)).items;
    SameElements(ys, xs);
    forall i, j | 0 <= i < j < |ys| ensures ys[i].String? && ys[j].String? && Before(ys[i].text, ys[j].text) {
      assert ys[i] in ys && ys[j] in ys;
      StringPair(ys[i], ys[j]);
    }
  }

  lemma StringKey(v: Doc)
    requires v.String?
    ensures KeyText(v, "s:" + v.text) && WellFormed(v) && Sortable(v)
  {
    assert KeyText(v, "s:" + v.text);
  }

  lemma StringPair(a: Doc, b: Doc)
    requires a.String? && b.String?
    requires forall k, l | KeyText(a, k) && KeyText(b, l) :: Before(k, l)
    ensures Before(a.text, b.text)
  {
    StringKey(a);
    StringKey(b);
    BeforePrefix("s:", a.text, b.text);
  }

  lemma PlainStrings(xs: seq<Doc>)
    requires forall x | x in xs :: x.String?
    ensures CanonicalItems(xs) == xs && WellFormed(Array(xs)) && forall x | x in xs :: Sortable(x)
  {
    forall i | 0 <= i < |xs| ensures WellFormed(xs[i]) && CanonicalItems(xs)[i] == xs[i] {
      assert xs[i] in xs;
      StringKey(xs[i]);
    }
    forall x | x in xs ensures Sortable(x) { StringKey(x); }
  }

  lemma BeforePrefix(p: string, a: string, b: string)
    ensures Before(p + a, p + b) ==> Before(a, b)
    decreases |p|
  {
    if p == "" {
      assert p + a == a && p + b == b;
    } else {
      assert (p + a)[1..] == p[1..] + a && (p + b)[1..] == p[1..] + b;
      BeforeTail(p + a, p + b);
      BeforePrefix(p[1..], a, b);
    }
  }

  // ---------------------------------------------------------------- objects

  /** The entries of an object come in ascending order of their keys. */
  lemma EntriesAscend(es: seq<Entry>)
    ensures Canonical(Object(es)).Object?
    ensures var fs := Canonical(Object(es)).entries;
            && multiset(fs) == multiset(CanonicalEntries(es))
            && forall i, j | 0 <= i < j < |fs| :: Before(fs[i].key, fs[j].key)
  {
    EntryOrder();
    SortProperties(CanonicalEntries(es), EntryLe);
    var fs := Canonical(Object(es)).entries;
    forall i, j | 0 <= i < j < |fs| ensures Before(fs[i].key, fs[j].key) { LexMeans(fs[i].key, fs[j].key); }
  }
}
