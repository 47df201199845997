/**
 Reachability in a finite graph of names: the reference definition against which both
 worklists of the schema exporter are proved. A name without an entry has no successors.
 */
module Graph {

  type Edges = map<string, set<string>>

  ghost predicate Closed(g: Edges, names: set<string>) {
    forall n | n in names && n in g :: g[n] <= names
  }

  /** A walk along the edges that starts in `seeds`. */
  ghost predicate IsWalk(g: Edges, seeds: set<string>, w: seq<string>) {
    && |w| > 0
    && w[0] in seeds
    && forall i | 0 <= i < |w| - 1 :: w[i] in g && w[i + 1] in g[w[i]]
  }

  ghost predicate Reaches(g: Edges, seeds: set<string>, n: string) {
    exists w :: IsWalk(g, seeds, w) && w[|w| - 1] == n
  }

  ghost function Universe(g: Edges, seeds: set<string>): set<string> {
    seeds + (set n, m | n in g && m in g[n] :: m)
  }

  /** The names some walk from `seeds` arrives at. */
  ghost function Reachable(g: Edges, seeds: set<string>): set<string> {
    set n | n in Universe(g, seeds) && Reaches(g, seeds, n)
  }

  /** Reachability is the least set that contains the seeds and is closed under the edges. */
  lemma ReachableIsLeast(g: Edges, seeds: set<string>)
    ensures seeds <= Reachable(g, seeds)
    ensures Closed(g, Reachable(g, seeds))
    ensures forall t | seeds <= t && Closed(g, t) :: Reachable(g, seeds) <= t
  {
    forall n | n in seeds ensures Reaches(g, seeds, n) {
      assert IsWalk(g, seeds, [n]);
    }
    forall n, m | n in Reachable(g, seeds) && n in g && m in g[n] ensures Reaches(g, seeds, m) {
      var w :| IsWalk(g, seeds, w) && w[|w| - 1] == n;
      assert IsWalk(g, seeds, w + [m]);
    }
    forall t, n | seeds <= t && Closed(g, t) && n in Reachable(g, seeds) ensures n in t {
      var w :| IsWalk(g, seeds, w) && w[|w| - 1] == n;
      WalkStaysInside(g, seeds, w, t);
    }
  }

  lemma {:induction false} WalkStaysInside(g: Edges, seeds: set<string>, w: seq<string>, t: set<string>)
    requires IsWalk(g, seeds, w) && seeds <= t && Closed(g, t)
    ensures w[|w| - 1] in t
  {
    if |w| > 1 {
      WalkStaysInside(g, seeds, w[..|w| - 1], t);
      assert w[|w| - 1] in g[w[|w| - 2]];
    }
  }

  /** A closed set that contains the seeds and only reachable names is the reachable set. */
  lemma ReachableUnique(g: Edges, seeds: set<string>, names: set<string>)
    requires seeds <= names <= Reachable(g, seeds) && Closed(g, names)
    ensures names == Reachable(g, seeds)
  {
    ReachableIsLeast(g, seeds);
  }

  function Elements(names: seq<string>): set<string> {
    set n | n in names
  }

  function Successors(g: Edges, n: string): set<string> {
    if n in g then g[n] else {}
  }

  lemma ElementsOfConcat(a: seq<string>, b: seq<string>)
    ensures Elements(a + b) == Elements(a) + Elements(b)
  {
  }

  lemma ElementsOfLast(queue: seq<string>)
    requires queue != []
    ensures Elements(queue) == Elements(queue[..|queue| - 1]) + {queue[|queue| - 1]}
  {
  }

  /** A worklist in progress: `done` has been expanded, `todo` is still queued. */
  ghost predicate Worklist(g: Edges, seeds: set<string>, done: set<string>, todo: set<string>) {
    && done + todo <= Reachable(g, seeds)
    && seeds <= done + todo
    && forall n | n in done :: Successors(g, n) <= done + todo
  }

  lemma WorklistStarts(g: Edges, seeds: set<string>)
    ensures Worklist(g, seeds, {}, seeds)
  {
    ReachableIsLeast(g, seeds);
  }

  lemma SuccessorsReachable(g: Edges, seeds: set<string>, n: string)
    requires n in Reachable(g, seeds)
    ensures Successors(g, n) <= Reachable(g, seeds)
  {
    ReachableIsLeast(g, seeds);
  }

  /** Expand a queued name, queueing at least those successors not known yet. */
  lemma WorklistStep(g: Edges, seeds: set<string>, done: set<string>, todo: set<string>, n: string, next: set<string>)
    requires Worklist(g, seeds, done, todo + {n})
    requires Successors(g, n) <= done + {n} + todo + next && next <= Successors(g, n)
    ensures Worklist(g, seeds, done + {n}, todo + next)
  {
    SuccessorsReachable(g, seeds, n);
  }

  lemma WorklistEnds(g: Edges, seeds: set<string>, done: set<string>)
    requires Worklist(g, seeds, done, {})
    ensures done == Reachable(g, seeds)
  {
    assert forall n | n in done && n in g :: Successors(g, n) == g[n];
    ReachableUnique(g, seeds, done);
  }
}
