/** Branch tips over a commit graph, and what it means that history is only
    extended. */
module GitRefs {
  import opened CommitGraph
  import opened Wrappers

  datatype Refs = Refs(graph: Graph, branches: map<string, nat>, head: string)

  ghost predicate Sound(r: Refs) {
    && Acyclic(r.graph) && r.head in r.branches
    && forall n <- r.branches :: r.branches[n] < |r.graph|
  }

  /** The commit HEAD resolves to. */
  function Tip(r: Refs): nat
    requires r.head in r.branches
  {
    r.branches[r.head]
  }

  /** The checked-out branch may have moved, only forward, and no other has. */
  ghost predicate Forward(r: Refs, r': Refs)
    requires Sound(r)
  {
    && Sound(r') && r.graph <= r'.graph && r'.head == r.head
    && r'.branches == r.branches[r.head := Tip(r')]
    && Tip(r) in Ancestors(r'.graph, Tip(r'))
  }

  lemma ForwardReflexive(r: Refs)
    requires Sound(r)
    ensures Forward(r, r)
  {
  }

  lemma ForwardTransitive(r: Refs, r1: Refs, r2: Refs)
    requires Sound(r) && Forward(r, r1) && Forward(r1, r2)
    ensures Forward(r, r2)
  {
    AncestorsGrow(r1.graph, r2.graph, Tip(r1));
    AncestorsTransitive(r2.graph, Tip(r1), Tip(r2));
  }

  /** Whatever was in the history of a branch stays in it. */
  lemma ForwardKeepsHistory(r: Refs, r': Refs, branch: string, c: nat)
    requires Sound(r) && Forward(r, r') && branch in r.branches
    requires c in Ancestors(r.graph, r.branches[branch])
    ensures branch in r'.branches && c in Ancestors(r'.graph, r'.branches[branch])
  {
    AncestorsGrow(r.graph, r'.graph, r.branches[branch]);
    if branch == r.head {
      AncestorsTransitive(r'.graph, Tip(r), Tip(r'));
    }
  }

  predicate CanFastForward(r: Refs, c: nat)
    requires Acyclic(r.graph) && r.head in r.branches && c < |r.graph|
  {
    Tip(r) in Ancestors(r.graph, c)
  }

  function MoveTip(r: Refs, c: nat): Refs {
    r.(branches := r.branches[r.head := c])
  }

  /** A new commit on the checked-out branch. */
  function AddCommit(r: Refs): Refs
    requires r.head in r.branches
  {
    r.(graph := r.graph + [[Tip(r)]], branches := r.branches[r.head := |r.graph|])
  }

  lemma AddCommitForward(r: Refs)
    requires Sound(r)
    ensures Forward(r, AddCommit(r))
  {
    var r' := AddCommit(r);
    assert r'.graph[|r.graph|] == [Tip(r)];
    forall c, p | 0 <= c < |r'.graph| && p in r'.graph[c] ensures p < c {
      assert c < |r.graph| ==> r'.graph[c] == r.graph[c];
    }
    assert Tip(r) in r'.graph[|r.graph|] && Tip(r) in Ancestors(r'.graph, Tip(r));
  }

  /** `git rebase`: `n` commits replayed one on top of the other, from `onto`. */
  function Replay(g: Graph, onto: nat, n: nat): (Graph, nat)
    decreases n
  {
    if n == 0 then (g, onto) else Replay(g + [[onto]], |g|, n - 1)
  }

  lemma {:induction false} ReplayExtends(g: Graph, onto: nat, n: nat)
    requires Acyclic(g) && onto < |g|
    ensures var (g', tip) := Replay(g, onto, n);
            g <= g' && Acyclic(g') && tip < |g'| && onto in Ancestors(g', tip)
    decreases n
  {
    if n > 0 {
      var g1 := g + [[onto]];
      assert g1[|g|] == [onto];
      forall c, p | 0 <= c < |g1| && p in g1[c] ensures p < c {
        assert c < |g| ==> g1[c] == g[c];
      }
      ReplayExtends(g1, |g|, n - 1);
      var (g', tip) := Replay(g1, |g|, n - 1);
      assert g'[|g|] == g1[|g|];
      assert onto in g'[|g|] && onto in Ancestors(g', onto);
      AncestorsTransitive(g', |g|, tip);
    }
  }

  /** Of the commits there were, the replayed tip has in its history those of `onto`. */
  lemma {:induction false} ReplayHistory(g: Graph, onto: nat, n: nat, c: nat)
    requires Acyclic(g) && onto < |g| && c < |g|
    ensures var (g', tip) := Replay(g, onto, n);
            Acyclic(g') && tip < |g'| && (c in Ancestors(g', tip) <==> c in Ancestors(g, onto))
    decreases n
  {
    ReplayExtends(g, onto, n);
    if n > 0 {
      var g1 := g + [[onto]];
      OneMore(g, onto);
      ReplayHistory(g1, |g|, n - 1, c);
      assert g1[|g|] == [onto];
      AncestorsGrow(g, g1, onto);
    }
  }

  lemma OneMore(g: Graph, parent: nat)
    requires Acyclic(g) && parent < |g|
    ensures Acyclic(g + [[parent]])
  {
    var g1 := g + [[parent]];
    forall c, p | 0 <= c < |g1| && p in g1[c] ensures p < c {
      assert c < |g| ==> g1[c] == g[c];
    }
  }

  // ---------------------------------------------------------------------------
  // Branches that may be rewritten
  // ---------------------------------------------------------------------------

  /** The tip of the checked-out branch is where it was; of the others only the branch
      `task`, if any, has moved. */
  ghost predicate OnlyMoved(r: Refs, r': Refs, task: Option<string>)
    requires Sound(r)
  {
    && Sound(r') && r.graph <= r'.graph && r'.head == r.head && r'.branches.Keys == r.branches.Keys
    && forall n <- r.branches :: Some(n) != task ==> r'.branches[n] == r.branches[n]
  }

  /** One of the two commits is in the history of the other. */
  predicate Comparable(g: Graph, a: nat, b: nat)
    requires Acyclic(g) && a < |g| && b < |g|
  {
    a in Ancestors(g, b) || b in Ancestors(g, a)
  }

  /** The two commits have a common ancestor. */
  predicate Related(g: Graph, a: nat, b: nat)
    requires Acyclic(g) && a < |g| && b < |g|
  {
    Ancestors(g, a) * Ancestors(g, b) != {}
  }

  lemma ComparableRelated(g: Graph, a: nat, b: nat)
    requires Acyclic(g) && a < |g| && b < |g| && Comparable(g, a, b)
    ensures Related(g, a, b)
  {
    assert a in Ancestors(g, a) && b in Ancestors(g, b);
    assert a in Ancestors(g, a) * Ancestors(g, b) || b in Ancestors(g, a) * Ancestors(g, b);
  }

  // ---------------------------------------------------------------------------
  // Picks
  // ---------------------------------------------------------------------------

  /** Picking `c` onto `tip` adds nothing: it, a pick of it or the same changes are
      there. */
  predicate EmptyPick(g: Graph, tip: nat, picks: map<nat, nat>, sameChanges: (nat, nat) -> bool, c: nat)
    requires Acyclic(g) && tip < |g|
  {
    var history := Ancestors(g, tip);
    c in history || (exists p <- picks :: p in history && picks[p] == c) || sameChanges(c, tip)
  }

  /** Picking `c` onto `tip` makes a commit: it is no merge and adds something. */
  predicate PickApplies(g: Graph, tip: nat, picks: map<nat, nat>, sameChanges: (nat, nat) -> bool, c: nat)
    requires Acyclic(g) && tip < |g|
  {
    c < |g| && |g[c]| <= 1 && !EmptyPick(g, tip, picks, sameChanges, c)
  }
}
