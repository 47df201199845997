/**
 The canonical form that schema fixtures are compared in: object entries are sorted by key, and
 an array is sorted whenever every one of its items has a sort key.

 Equality of canonical forms is shown to be reachability by elementary swaps: exchanging two
 neighbouring entries of an object, or two neighbouring items of an array whose items all have
 a sort key, anywhere in the document.
 */
module Canonical {
  import opened Wrappers
  import opened JsonText
  import opened Sorting

  /** Keys are distinct in every object, as in any map, and numbers are number literals. */
  predicate WellFormed(v: Doc) {
    match v
    case Number(s) => NumberLiteral(s)
    case Array(xs) => forall i | 0 <= i < |xs| :: WellFormed(xs[i])
    case Object(es) => DistinctKeys(es) && forall i | 0 <= i < |es| :: WellFormed(es[i].value)
    case _ => true
  }

  predicate DistinctKeys(es: seq<Entry>) {
    forall i, j | 0 <= i < j < |es| :: es[i].key != es[j].key
  }

  function StringUnder(es: seq<Entry>, key: string): Option<string> {
    if es == [] then None
    else if es[0].key == key then (if es[0].value.String? then Some(es[0].value.text) else None)
    else StringUnder(es[1..], key)
  }

  function SortKey(v: Doc): Option<string> {
    match v
    case Null => Some("null")
    case Bool(b) => Some("b:" + (if b then "true" else "false"))
    case Number(literal) => Some("n:" + literal)
    case String(s) => Some("s:" + s)
    case Object(es) =>
      (match StringUnder(es, "$ref")
       case Some(reference) => Some("ref:" + reference)
       case None =>
         match StringUnder(es, "title")
         case Some(title) => Some("title:" + title)
         case None => None)
    case Array(_) => None
  }

  predicate AllKeyed(xs: seq<Doc>) {
    forall i | 0 <= i < |xs| :: SortKey(xs[i]).Some?
  }

  function KeyOrEmpty(v: Doc): string {
    match SortKey(v) case Some(k) => k case None => ""
  }

  /** By sort key, and by serialised text among items with the same sort key. */
  predicate ItemLe(a: Doc, b: Doc) {
    if KeyOrEmpty(a) == KeyOrEmpty(b) then LexLe(Serialize(a), Serialize(b)) else LexLe(KeyOrEmpty(a), KeyOrEmpty(b))
  }

  predicate EntryLe(a: Entry, b: Entry) {
    LexLe(a.key, b.key)
  }

  function CanonicalItems(xs: seq<Doc>): (ys: seq<Doc>)
    ensures |ys| == |xs| && forall i | 0 <= i < |xs| :: ys[i] == Canonical(xs[i])
    decreases xs
  {
    if xs == [] then [] else [Canonical(xs[0])] + CanonicalItems(xs[1..])
  }

  function CanonicalEntries(es: seq<Entry>): (fs: seq<Entry>)
    ensures |fs| == |es| && forall i | 0 <= i < |es| :: fs[i] == Entry(es[i].key, Canonical(es[i].value))
    decreases es
  {
    if es == [] then [] else [Entry(es[0].key, Canonical(es[0].value))] + CanonicalEntries(es[1..])
  }

  function SortItems(xs: seq<Doc>): seq<Doc> {
    if AllKeyed(xs) then Sort(xs, ItemLe) else xs
  }

  function Canonical(v: Doc): Doc
    decreases v
  {
    match v
    case Array(xs) => Array(SortItems(CanonicalItems(xs)))
    case Object(es) => Object(Sort(CanonicalEntries(es), EntryLe))
    case _ => v
  }

  // ---------------------------------------------------------------- elementary swaps

  /** One elementary swap, at the root or inside one child. */
  ghost predicate Step(a: Doc, b: Doc)
    decreases a, 1
  {
    match a
    case Array(xs) => b.Array? && |b.items| == |xs| && exists i :: 0 <= i < |xs| && ItemStep(xs, b.items, i)
    case Object(es) => b.Object? && |b.entries| == |es| && exists i :: 0 <= i < |es| && EntryStep(es, b.entries, i)
    case _ => false
  }

  ghost predicate ItemStep(xs: seq<Doc>, ys: seq<Doc>, i: nat)
    requires i < |xs| == |ys|
    decreases xs[i], 2
  {
    || (AllKeyed(xs) && i + 1 < |xs| && ys == Swap(xs, i))
    || (ys == xs[i := ys[i]] && Step(xs[i], ys[i]))
  }

  ghost predicate EntryStep(es: seq<Entry>, fs: seq<Entry>, i: nat)
    requires i < |es| == |fs|
    decreases es[i].value, 2
  {
    || (i + 1 < |es| && fs == Swap(es, i))
    || (fs == es[i := Entry(es[i].key, fs[i].value)] && Step(es[i].value, fs[i].value))
  }

  ghost predicate IsChain(c: seq<Doc>) {
    c != [] && forall i | 0 <= i < |c| - 1 :: Step(c[i], c[i + 1])
  }

  /** Some sequence of elementary swaps leads from `a` to `b`. */
  ghost predicate Reaches(a: Doc, b: Doc) {
    exists c :: IsChain(c) && c[0] == a && c[|c| - 1] == b
  }

  lemma ReachesRefl(a: Doc)
    ensures Reaches(a, a)
  {
    assert IsChain([a]);
  }

  lemma ReachesStep(a: Doc, b: Doc)
    requires Step(a, b)
    ensures Reaches(a, b)
  {
    assert IsChain([a, b]);
  }

  lemma ReachesTrans(a: Doc, b: Doc, c: Doc)
    requires Reaches(a, b) && Reaches(b, c)
    ensures Reaches(a, c)
  {
    var p :| IsChain(p) && p[0] == a && p[|p| - 1] == b;
    var q :| IsChain(q) && q[0] == b && q[|q| - 1] == c;
    var r := p + q[1..];
    forall i | 0 <= i < |r| - 1 ensures Step(r[i], r[i + 1]) {
      if i < |p| - 1 {
        assert r[i] == p[i] && r[i + 1] == p[i + 1];
      } else {
        assert r[i] == q[i - |p| + 1] && r[i + 1] == q[i - |p| + 2];
      }
    }
    assert IsChain(r);
  }

  lemma {:induction false} StepSymmetric(a: Doc, b: Doc)
    requires Step(a, b)
    ensures Step(b, a)
    decreases a
  {
    match a
    case Array(xs) =>
      var ys := b.items;
      var i :| 0 <= i < |xs| && ItemStep(xs, ys, i);
      if i + 1 < |xs| && AllKeyed(xs) && ys == Swap(xs, i) {
        SwapBack(xs, i);
        assert ItemStep(ys, xs, i);
      } else {
        StepSymmetric(xs[i], ys[i]);
        assert ItemStep(ys, xs, i);
      }
    case Object(es) =>
      var fs := b.entries;
      var i :| 0 <= i < |es| && EntryStep(es, fs, i);
      if i + 1 < |es| && fs == Swap(es, i) {
        SwapBack(es, i);
        assert EntryStep(fs, es, i);
      } else {
        StepSymmetric(es[i].value, fs[i].value);
        assert EntryStep(fs, es, i);
      }
  }

  lemma ReachesSymmetric(a: Doc, b: Doc)
    requires Reaches(a, b)
    ensures Reaches(b, a)
  {
    var c :| IsChain(c) && c[0] == a && c[|c| - 1] == b;
    var r := seq(|c|, i requires 0 <= i < |c| => c[|c| - 1 - i]);
    forall i | 0 <= i < |r| - 1 ensures Step(r[i], r[i + 1]) {
      var j := |c| - 2 - i;
      assert Step(c[j], c[j + 1]);
      StepSymmetric(c[j], c[j + 1]);
    }
    assert IsChain(r);
  }

  // ---------------------------------------------------------------- a document reaches its form

  lemma StepAtItem(xs: seq<Doc>, i: nat, x: Doc, y: Doc)
    requires i < |xs| && Step(x, y)
    ensures Step(Array(xs[i := x]), Array(xs[i := y]))
  {
    assert xs[i := x][i := y] == xs[i := y];
    assert ItemStep(xs[i := x], xs[i := y], i);
  }

  lemma ReachesItem(xs: seq<Doc>, i: nat, y: Doc)
    requires i < |xs| && Reaches(xs[i], y)
    ensures Reaches(Array(xs), Array(xs[i := y]))
  {
    var c :| IsChain(c) && c[0] == xs[i] && c[|c| - 1] == y;
    var d := seq(|c|, j requires 0 <= j < |c| => Array(xs[i := c[j]]));
    forall j | 0 <= j < |d| - 1 ensures Step(d[j], d[j + 1]) {
      StepAtItem(xs, i, c[j], c[j + 1]);
    }
    assert xs[i := c[0]] == xs;
    assert IsChain(d);
  }

  lemma ReachesEntry(es: seq<Entry>, i: nat, y: Doc)
    requires i < |es| && Reaches(es[i].value, y)
    ensures Reaches(Object(es), Object(es[i := Entry(es[i].key, y)]))
  {
    var c :| IsChain(c) && c[0] == es[i].value && c[|c| - 1] == y;
    var d := seq(|c|, j requires 0 <= j < |c| => Object(es[i := Entry(es[i].key, c[j])]));
    forall j | 0 <= j < |d| - 1 ensures Step(d[j], d[j + 1]) {
      assert EntryStep(es[i := Entry(es[i].key, c[j])], es[i := Entry(es[i].key, c[j + 1])], i);
    }
    assert es[i := Entry(es[i].key, c[0])] == es;
    assert IsChain(d);
  }

  lemma {:induction false} ItemsSwap(xs: seq<Doc>, ys: seq<Doc>, n: nat)
    requires SwapsIn(xs, ys, n) && AllKeyed(xs)
    ensures Reaches(Array(xs), Array(ys))
    decreases n
  {
    if n == 0 {
      ReachesRefl(Array(xs));
    } else {
      var i := FirstSwap(xs, ys, n);
      SwapKeepsKeyed(xs, i);
      ItemsSwap(Swap(xs, i), ys, n - 1);
      ItemSwapThen(xs, i, ys);
    }
  }

  lemma SwapKeepsKeyed(xs: seq<Doc>, i: nat)
    requires AllKeyed(xs) && i + 1 < |xs|
    ensures AllKeyed(Swap(xs, i))
  {
  }

  lemma ItemSwapThen(xs: seq<Doc>, i: nat, ys: seq<Doc>)
    requires AllKeyed(xs) && i + 1 < |xs| && Reaches(Array(Swap(xs, i)), Array(ys))
    ensures Reaches(Array(xs), Array(ys))
  {
    assert ItemStep(xs, Swap(xs, i), i);
    ReachesStep(Array(xs), Array(Swap(xs, i)));
    ReachesTrans(Array(xs), Array(Swap(xs, i)), Array(ys));
  }

  lemma {:induction false} EntriesSwap(es: seq<Entry>, fs: seq<Entry>, n: nat)
    requires SwapsIn(es, fs, n)
    ensures Reaches(Object(es), Object(fs))
    decreases n
  {
    if n == 0 {
      ReachesRefl(Object(es));
    } else {
      var i := FirstSwap(es, fs, n);
      assert EntryStep(es, Swap(es, i), i);
      ReachesStep(Object(es), Object(Swap(es, i)));
      EntriesSwap(Swap(es, i), fs, n - 1);
      ReachesTrans(Object(es), Object(Swap(es, i)), Object(fs));
    }
  }

  /** Every document reaches its canonical form. */
  lemma {:induction false} ReachesCanonical(v: Doc)
    ensures Reaches(v, Canonical(v))
    decreases v
  {
    match v
    case Array(xs) =>
      var ys := CanonicalItems(xs);
      AllItemsReach(v, xs, ys);
      SortItemsReach(ys);
      ReachesTrans(v, Array(ys), Canonical(v));
    case Object(es) =>
      var fs := CanonicalEntries(es);
      AllEntriesReach(v, es, fs);
      SortEntriesReach(fs);
      ReachesTrans(v, Object(fs), Canonical(v));
    case _ => ReachesRefl(v);
  }

  lemma SortItemsReach(ys: seq<Doc>)
    ensures Reaches(Array(ys), Array(SortItems(ys)))
  {
    if AllKeyed(ys) {
      var n := SortSwaps(ys, ItemLe);
      ItemsSwap(ys, Sort(ys, ItemLe), n);
    } else {
      ReachesRefl(Array(ys));
    }
  }

  lemma SortEntriesReach(fs: seq<Entry>)
    ensures Reaches(Object(fs), Object(Sort(fs, EntryLe)))
  {
    var n := SortSwaps(fs, EntryLe);
    EntriesSwap(fs, Sort(fs, EntryLe), n);
  }

  lemma {:induction false} AllItemsReach(v: Doc, xs: seq<Doc>, ys: seq<Doc>)
    requires v == Array(xs) && ys == CanonicalItems(xs)
    ensures Reaches(v, Array(ys))
    decreases v, |xs| + 1
  {
    ItemsReach(v, xs, ys, 0);
    MixedEnds(xs, ys);
  }

  lemma {:induction false} AllEntriesReach(v: Doc, es: seq<Entry>, fs: seq<Entry>)
    requires v == Object(es) && fs == CanonicalEntries(es)
    ensures Reaches(v, Object(fs))
    decreases v, |es| + 1
  {
    EntriesReach(v, es, fs, 0);
    MixedEnds(es, fs);
  }

  /** The first `k` elements of `ys`, then the others of `xs`. */
  function Mixed<T>(xs: seq<T>, ys: seq<T>, k: nat): (m: seq<T>)
    requires k <= |xs| == |ys|
    ensures |m| == |xs|
  {
    ys[..k] + xs[k..]
  }

  lemma MixedNext<T>(xs: seq<T>, ys: seq<T>, k: nat)
    requires k < |xs| == |ys|
    ensures Mixed(xs, ys, k)[k] == xs[k] && Mixed(xs, ys, k)[k := ys[k]] == Mixed(xs, ys, k + 1)
  {
  }

  lemma MixedEnds<T>(xs: seq<T>, ys: seq<T>)
    requires |xs| == |ys|
    ensures Mixed(xs, ys, 0) == xs && Mixed(xs, ys, |xs|) == ys
  {
  }

  lemma {:induction false} ItemsReach(v: Doc, xs: seq<Doc>, ys: seq<Doc>, k: nat)
    requires v == Array(xs) && ys == CanonicalItems(xs) && k <= |xs|
    ensures Reaches(Array(Mixed(xs, ys, k)), Array(ys))
    decreases v, |xs| - k
  {
    MixedEnds(xs, ys);
    if k == |xs| {
      ReachesRefl(Array(ys));
    } else {
      MixedNext(xs, ys, k);
      ReachesCanonical(xs[k]);
      ReachesItem(Mixed(xs, ys, k), k, ys[k]);
      ItemsReach(v, xs, ys, k + 1);
      ReachesTrans(Array(Mixed(xs, ys, k)), Array(Mixed(xs, ys, k + 1)), Array(ys));
    }
  }

  lemma {:induction false} EntriesReach(v: Doc, es: seq<Entry>, fs: seq<Entry>, k: nat)
    requires v == Object(es) && fs == CanonicalEntries(es) && k <= |es|
    ensures Reaches(Object(Mixed(es, fs, k)), Object(fs))
    decreases v, |es| - k
  {
    MixedEnds(es, fs);
    if k == |es| {
      ReachesRefl(Object(fs));
    } else {
      MixedNext(es, fs, k);
      ReachesCanonical(es[k].value);
      ReachesEntry(Mixed(es, fs, k), k, Canonical(es[k].value));
      EntriesReach(v, es, fs, k + 1);
      ReachesTrans(Object(Mixed(es, fs, k)), Object(Mixed(es, fs, k + 1)), Object(fs));
    }
  }

  // ---------------------------------------------------------------- swaps keep the form

  lemma {:induction false} StringUnderSwap(es: seq<Entry>, i: nat, key: string)
    requires i + 1 < |es| && DistinctKeys(es)
    ensures StringUnder(Swap(es, i), key) == StringUnder(es, key)
  {
    if i > 0 {
      assert Swap(es, i)[1..] == Swap(es[1..], i - 1);
      StringUnderSwap(es[1..], i - 1, key);
    } else {
      assert Swap(es, 0)[1..][1..] == es[1..][1..];
    }
  }

  lemma {:induction false} StringUnderReplaced(es: seq<Entry>, i: nat, key: string, y: Doc)
    requires i < |es| && !es[i].value.String? && !y.String?
    ensures StringUnder(es[i := Entry(es[i].key, y)], key) == StringUnder(es, key)
  {
    var fs := es[i := Entry(es[i].key, y)];
    if i > 0 {
      assert fs[1..] == es[1..][i - 1 := Entry(es[i].key, y)];
      StringUnderReplaced(es[1..], i - 1, key, y);
    } else {
      assert fs[1..] == es[1..];
    }
  }

  lemma StepShape(a: Doc, b: Doc)
    requires Step(a, b)
    ensures !a.String? && !b.String?
  {
  }

  /** A swap changes no sort key. */
  lemma StepKeepsKey(a: Doc, b: Doc)
    requires WellFormed(a) && Step(a, b)
    ensures SortKey(a) == SortKey(b)
  {
    if a.Object? {
      var es, fs := a.entries, b.entries;
      var i :| 0 <= i < |es| && EntryStep(es, fs, i);
      forall key ensures StringUnder(fs, key) == StringUnder(es, key) {
        if i + 1 < |es| && fs == Swap(es, i) {
          StringUnderSwap(es, i, key);
        } else {
          StepShape(es[i].value, fs[i].value);
          StringUnderReplaced(es, i, key, fs[i].value);
        }
      }
    }
  }

  lemma {:induction false} StepKeepsWellFormed(a: Doc, b: Doc)
    requires WellFormed(a) && Step(a, b)
    ensures WellFormed(b)
    decreases a
  {
    match a
    case Array(xs) =>
      var i :| 0 <= i < |xs| && ItemStep(xs, b.items, i);
      if b.items == xs[i := b.items[i]] && Step(xs[i], b.items[i]) { StepKeepsWellFormed(xs[i], b.items[i]); }
    case Object(es) =>
      var i :| 0 <= i < |es| && EntryStep(es, b.entries, i);
      if b.entries == es[i := Entry(es[i].key, b.entries[i].value)] && Step(es[i].value, b.entries[i].value) {
        StepKeepsWellFormed(es[i].value, b.entries[i].value);
      }
  }

  lemma {:induction false} ChainKeeps(c: seq<Doc>)
    requires IsChain(c) && WellFormed(c[0])
    ensures WellFormed(c[|c| - 1]) && SortKey(c[|c| - 1]) == SortKey(c[0])
  {
    if |c| > 1 {
      StepKeepsWellFormed(c[0], c[1]);
      StepKeepsKey(c[0], c[1]);
      forall i | 0 <= i < |c[1..]| - 1 ensures Step(c[1..][i], c[1..][i + 1]) {
        assert Step(c[i + 1], c[i + 2]);
      }
      ChainKeeps(c[1..]);
    }
  }

  /** The canonical form is well formed and has the sort key of the original. */
  lemma CanonicalKeeps(v: Doc)
    requires WellFormed(v)
    ensures WellFormed(Canonical(v)) && SortKey(Canonical(v)) == SortKey(v)
  {
    ReachesCanonical(v);
    var c :| IsChain(c) && c[0] == v && c[|c| - 1] == Canonical(v);
    ChainKeeps(c);
  }

  lemma ItemOrder()
    ensures TotalPreorder(ItemLe)
  {
    forall x, y ensures ItemLe(x, y) || ItemLe(y, x) {
      LexTotal(Serialize(x), Serialize(y));
      LexTotal(KeyOrEmpty(x), KeyOrEmpty(y));
    }
    forall x, y, z | ItemLe(x, y) && ItemLe(y, z) ensures ItemLe(x, z) {
      LexTotal(KeyOrEmpty(x), KeyOrEmpty(y));
      if KeyOrEmpty(x) == KeyOrEmpty(y) == KeyOrEmpty(z) {
        LexTransitive(Serialize(x), Serialize(y), Serialize(z));
      } else if KeyOrEmpty(x) != KeyOrEmpty(y) && KeyOrEmpty(y) != KeyOrEmpty(z) {
        LexTransitive(KeyOrEmpty(x), KeyOrEmpty(y), KeyOrEmpty(z));
      }
    }
  }

  lemma EntryOrder()
    ensures TotalPreorder(EntryLe)
  {
    forall x, y ensures EntryLe(x, y) || EntryLe(y, x) { LexTotal(x.key, y.key); }
    forall x, y, z | EntryLe(x, y) && EntryLe(y, z) ensures EntryLe(x, z) { LexTransitive(x.key, y.key, z.key); }
  }

  lemma {:induction false} WellFormedNumbers(v: Doc)
    requires WellFormed(v)
    ensures NumbersOk(v)
  {
    match v
    case Array(xs) => forall i | 0 <= i < |xs| { WellFormedNumbers(xs[i]); }
    case Object(es) => forall i | 0 <= i < |es| { WellFormedNumbers(es[i].value); }
    case _ =>
  }

  /** Sorting items forgets their order: equal rank means equal text, hence equal items. */
  lemma ItemsForgetOrder(xs: seq<Doc>, ys: seq<Doc>)
    requires multiset(xs) == multiset(ys) && forall x | x in xs :: WellFormed(x)
    ensures Sort(xs, ItemLe) == Sort(ys, ItemLe)
  {
    ItemOrder();
    forall x, y | x in xs && y in xs && ItemLe(x, y) && ItemLe(y, x) ensures x == y {
      LexTotal(KeyOrEmpty(x), KeyOrEmpty(y));
      LexTotal(Serialize(x), Serialize(y));
      WellFormedNumbers(x);
      WellFormedNumbers(y);
      SerializeInjective(x, y);
    }
    SortForgetsOrder(xs, ys, ItemLe);
  }

  lemma EntriesForgetOrder(es: seq<Entry>, fs: seq<Entry>)
    requires multiset(es) == multiset(fs) && DistinctKeys(es)
    ensures Sort(es, EntryLe) == Sort(fs, EntryLe)
  {
    EntryOrder();
    forall x, y | x in es && y in es && EntryLe(x, y) && EntryLe(y, x) ensures x == y {
      LexTotal(x.key, y.key);
      var i :| 0 <= i < |es| && es[i] == x;
      var j :| 0 <= j < |es| && es[j] == y;
      assert i == j;
    }
    SortForgetsOrder(es, fs, EntryLe);
  }

  lemma {:induction false} SwapCanonicalItems(xs: seq<Doc>, i: nat)
    requires i + 1 < |xs|
    ensures CanonicalItems(Swap(xs, i)) == Swap(CanonicalItems(xs), i)
  {
    var a, b := CanonicalItems(Swap(xs, i)), Swap(CanonicalItems(xs), i);
    assert |a| == |b| && forall j | 0 <= j < |a| :: a[j] == b[j];
  }

  lemma {:induction false} SameCanonicalItems(xs: seq<Doc>, ys: seq<Doc>, i: nat)
    requires i < |xs| == |ys| && ys == xs[i := ys[i]] && Canonical(xs[i]) == Canonical(ys[i])
    ensures CanonicalItems(ys) == CanonicalItems(xs)
  {
  }

  lemma {:induction false} SameCanonicalEntries(es: seq<Entry>, fs: seq<Entry>, i: nat)
    requires i < |es| == |fs| && fs == es[i := Entry(es[i].key, fs[i].value)]
    requires Canonical(es[i].value) == Canonical(fs[i].value)
    ensures CanonicalEntries(fs) == CanonicalEntries(es)
  {
  }

  lemma {:induction false} SwapCanonicalEntries(es: seq<Entry>, i: nat)
    requires i + 1 < |es|
    ensures CanonicalEntries(Swap(es, i)) == Swap(CanonicalEntries(es), i)
  {
  }

  lemma CanonicalKeyed(xs: seq<Doc>)
    requires forall i | 0 <= i < |xs| :: WellFormed(xs[i])
    ensures AllKeyed(CanonicalItems(xs)) == AllKeyed(xs)
    ensures forall x | x in CanonicalItems(xs) :: WellFormed(x)
  {
    forall i | 0 <= i < |xs|
      ensures WellFormed(CanonicalItems(xs)[i]) && SortKey(CanonicalItems(xs)[i]) == SortKey(xs[i])
    {
      CanonicalKeeps(xs[i]);
    }
  }

  lemma ItemSwapKeepsForm(xs: seq<Doc>, i: nat)
    requires i + 1 < |xs| && AllKeyed(xs) && forall j | 0 <= j < |xs| :: WellFormed(xs[j])
    ensures SortItems(CanonicalItems(Swap(xs, i))) == SortItems(CanonicalItems(xs))
  {
    CanonicalKeyed(xs);
    SwapCanonicalItems(xs, i);
    SwapKeepsKeyed(CanonicalItems(xs), i);
    SwapBack(CanonicalItems(xs), i);
    ItemsForgetOrder(CanonicalItems(xs), CanonicalItems(Swap(xs, i)));
  }

  lemma EntrySwapKeepsForm(es: seq<Entry>, i: nat)
    requires i + 1 < |es| && DistinctKeys(es)
    ensures Sort(CanonicalEntries(Swap(es, i)), EntryLe) == Sort(CanonicalEntries(es), EntryLe)
  {
    SwapCanonicalEntries(es, i);
    SwapBack(CanonicalEntries(es), i);
    EntriesForgetOrder(CanonicalEntries(es), CanonicalEntries(Swap(es, i)));
  }

  lemma {:induction false} ItemStepKeepsForm(xs: seq<Doc>, ys: seq<Doc>, i: nat)
    requires i < |xs| == |ys| && ItemStep(xs, ys, i) && forall j | 0 <= j < |xs| :: WellFormed(xs[j])
    ensures SortItems(CanonicalItems(ys)) == SortItems(CanonicalItems(xs))
    decreases xs[i], 1
  {
    if AllKeyed(xs) && i + 1 < |xs| && ys == Swap(xs, i) {
      ItemSwapKeepsForm(xs, i);
    } else {
      StepKeepsForm(xs[i], ys[i]);
      SameCanonicalItems(xs, ys, i);
    }
  }

  lemma {:induction false} EntryStepKeepsForm(es: seq<Entry>, fs: seq<Entry>, i: nat)
    requires i < |es| == |fs| && EntryStep(es, fs, i) && DistinctKeys(es)
    requires forall j | 0 <= j < |es| :: WellFormed(es[j].value)
    ensures Sort(CanonicalEntries(fs), EntryLe) == Sort(CanonicalEntries(es), EntryLe)
    decreases es[i].value, 1
  {
    if i + 1 < |es| && fs == Swap(es, i) {
      EntrySwapKeepsForm(es, i);
    } else {
      StepKeepsForm(es[i].value, fs[i].value);
      SameCanonicalEntries(es, fs, i);
    }
  }

  /** An elementary swap does not change the canonical form. */
  lemma {:induction false} StepKeepsForm(a: Doc, b: Doc)
    requires WellFormed(a) && Step(a, b)
    ensures Canonical(a) == Canonical(b)
    decreases a, 0
  {
    match a
    case Array(xs) =>
      var i :| 0 <= i < |xs| && ItemStep(xs, b.items, i);
      ItemStepKeepsForm(xs, b.items, i);
      assert Canonical(b) == Array(SortItems(CanonicalItems(b.items)));
    case Object(es) =>
      var i :| 0 <= i < |es| && EntryStep(es, b.entries, i);
      EntryStepKeepsForm(es, b.entries, i);
      assert Canonical(b) == Object(Sort(CanonicalEntries(b.entries), EntryLe));
  }

  lemma {:induction false} ChainKeepsForm(c: seq<Doc>)
    requires IsChain(c) && WellFormed(c[0])
    ensures Canonical(c[|c| - 1]) == Canonical(c[0])
  {
    if |c| > 1 {
      StepKeepsWellFormed(c[0], c[1]);
      StepKeepsForm(c[0], c[1]);
      forall i | 0 <= i < |c[1..]| - 1 ensures Step(c[1..][i], c[1..][i + 1]) {
        assert Step(c[i + 1], c[i + 2]);
      }
      ChainKeepsForm(c[1..]);
    }
  }

  /**
   Two documents have the same canonical form exactly when elementary swaps lead from one to
   the other.
   */
  lemma CanonicalDecides(a: Doc, b: Doc)
    requires WellFormed(a) && WellFormed(b)
    ensures Canonical(a) == Canonical(b) <==> Reaches(a, b)
  {
    if Reaches(a, b) {
      var c :| IsChain(c) && c[0] == a && c[|c| - 1] == b;
      ChainKeepsForm(c);
    }
    if Canonical(a) == Canonical(b) {
      ReachesCanonical(a);
      ReachesCanonical(b);
      ReachesSymmetric(b, Canonical(b));
      ReachesTrans(a, Canonical(a), b);
    }
  }

  lemma CanonicalIdempotent(v: Doc)
    requires WellFormed(v)
    ensures Canonical(Canonical(v)) == Canonical(v)
  {
    CanonicalKeeps(v);
    ReachesCanonical(v);
    CanonicalDecides(v, Canonical(v));
  }

  // ---------------------------------------------------------------- as the fixtures compute it

  /** An item with its sort key and its serialisation. */
  function Keyed(v: Doc): (Doc, (string, string)) { (v, (KeyOrEmpty(v), Serialize(v))) }

  predicate KeyedLe(a: (Doc, (string, string)), b: (Doc, (string, string))) {
    if a.1.0 == b.1.0 then LexLe(a.1.1, b.1.1) else LexLe(a.1.0, b.1.0)
  }

  /** Collect the sort keys, then sort by them; one item without a key leaves the array in its order. */
  method SortIfKeyed(items: seq<Doc>) returns (r: seq<Doc>)
    ensures r == SortItems(items)
  {
    var sortable: seq<(string, string)> := [];
    for i := 0 to |items|
      invariant |sortable| == i
      invariant forall j | 0 <= j < i :: SortKey(items[j]).Some? && sortable[j] == Keyed(items[j]).1
    {
      var key := SortKey(items[i]);
      if key.None? { return items; }
      sortable := sortable + [(key.value, Serialize(items[i]))];
    }
    var zipped := seq(|items|, i requires 0 <= i < |items| => (items[i], sortable[i]));
    var sorted := Sort(zipped, (a, b) => KeyedLe(a, b));
    r := seq(|sorted|, i requires 0 <= i < |sorted| => sorted[i].0);
    ZippedSort(items, zipped, sorted, r);
  }

  lemma ZippedSort(items: seq<Doc>, zipped: seq<(Doc, (string, string))>, sorted: seq<(Doc, (string, string))>,
                   r: seq<Doc>)
    requires |zipped| == |items| && forall i | 0 <= i < |items| :: zipped[i] == Keyed(items[i])
    requires sorted == Sort(zipped, (a, b) => KeyedLe(a, b))
    requires |r| == |sorted| && forall i | 0 <= i < |r| :: r[i] == sorted[i].0
    ensures r == Sort(items, ItemLe)
  {
    var le := (a, b) => KeyedLe(a, b);
    MapAt(items, Keyed);
    assert zipped == Map(items, Keyed);
    SortMap(items, Keyed, ItemLe, le);
    MapAt(Sort(items, ItemLe), Keyed);
  }

  method CanonicalizeJson(value: Doc) returns (r: Doc)
    ensures r == Canonical(value)
    decreases value, 1
  {
    match value
    case Array(_) =>
      var items := CanonicalizeItems(value);
      items := SortIfKeyed(items);
      r := Array(items);
    case Object(_) =>
      var children := CanonicalizeEntries(value);
      r := Object(Sort(children, EntryLe));
    case _ => r := value;
  }

  method CanonicalizeItems(value: Doc) returns (items: seq<Doc>)
    requires value.Array?
    ensures items == CanonicalItems(value.items)
    decreases value, 0
  {
    items := [];
    for i := 0 to |value.items|
      invariant |items| == i && forall j | 0 <= j < i :: items[j] == Canonical(value.items[j])
    {
      var item := CanonicalizeJson(value.items[i]);
      items := items + [item];
    }
  }

  method CanonicalizeEntries(value: Doc) returns (children: seq<Entry>)
    requires value.Object?
    ensures children == CanonicalEntries(value.entries)
    decreases value, 0
  {
    children := [];
    for i := 0 to |value.entries|
      invariant |children| == i
      invariant forall j | 0 <= j < i ::
                  children[j] == Entry(value.entries[j].key, Canonical(value.entries[j].value))
    {
      var child := CanonicalizeJson(value.entries[i].value);
      children := children + [Entry(value.entries[i].key, child)];
    }
  }
}
