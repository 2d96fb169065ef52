/** A finite acyclic commit graph. Commits are numbered in creation order, so a
    parent is always older than its child: every finite acyclic graph has such a
    numbering. */
module CommitGraph {

  /** `g[c]` lists the parents of commit `c`. */
  type Graph = seq<seq<nat>>

  ghost predicate Acyclic(g: Graph) {
    forall c, p :: 0 <= c < |g| && p in g[c] ==> p < c
  }

  /** The commits `git log c` lists: `c` and everything reachable from it. */
  function Ancestors(g: Graph, c: nat): (s: set<nat>)
    requires Acyclic(g) && c < |g|
    ensures c in s && forall a <- s :: a <= c
    decreases c
  {
    {c} + set p, a | p in g[c] && a in Ancestors(g, p) :: a
  }

  // ---------------------------------------------------------------------------
  // Reachability along parent links
  // ---------------------------------------------------------------------------

  /** A non-empty walk from child to parent to grandparent and so on. */
  ghost predicate Walk(g: Graph, w: seq<nat>) {
    && w != [] && (forall i :: 0 <= i < |w| ==> w[i] < |g|)
    && forall i :: 0 <= i < |w| - 1 ==> w[i + 1] in g[w[i]]
  }

  ghost predicate Reaches(g: Graph, from: nat, to: nat) {
    exists w :: Walk(g, w) && w[0] == from && w[|w| - 1] == to
  }

  lemma {:induction false} AncestorsReached(g: Graph, a: nat, c: nat) returns (w: seq<nat>)
    requires Acyclic(g) && c < |g| && a in Ancestors(g, c)
    ensures Walk(g, w) && w[0] == c && w[|w| - 1] == a
    decreases c
  {
    if a == c {
      w := [c];
    } else {
      var p :| p in g[c] && a in Ancestors(g, p);
      var rest := AncestorsReached(g, a, p);
      w := [c] + rest;
    }
  }

  lemma {:induction false} WalkStaysInAncestors(g: Graph, w: seq<nat>)
    requires Acyclic(g) && Walk(g, w)
    ensures w[|w| - 1] in Ancestors(g, w[0])
    decreases |w|
  {
    if |w| > 1 {
      var rest := w[1..];
      forall i | 0 <= i < |rest| - 1 ensures rest[i + 1] in g[rest[i]] {
        assert w[i + 1 + 1] in g[w[i + 1]];
      }
      WalkStaysInAncestors(g, rest);
      assert w[0 + 1] in g[w[0]];
    }
  }

  /** Ancestry is reachability along parent links. */
  lemma AncestorIffReached(g: Graph, a: nat, c: nat)
    requires Acyclic(g) && c < |g|
    ensures a in Ancestors(g, c) <==> Reaches(g, c, a)
  {
    if a in Ancestors(g, c) {
      var w := AncestorsReached(g, a, c);
    }
    if Reaches(g, c, a) {
      var w :| Walk(g, w) && w[0] == c && w[|w| - 1] == a;
      WalkStaysInAncestors(g, w);
    }
  }

  // ---------------------------------------------------------------------------
  // Ancestry is a partial order that a growing graph keeps
  // ---------------------------------------------------------------------------

  lemma {:induction false} AncestorsTransitive(g: Graph, a: nat, b: nat)
    requires Acyclic(g) && b < |g| && a in Ancestors(g, b)
    ensures Ancestors(g, a) <= Ancestors(g, b)
    decreases b
  {
    if a != b {
      var p :| p in g[b] && a in Ancestors(g, p);
      AncestorsTransitive(g, a, p);
    }
  }

  lemma AncestorsAntisymmetric(g: Graph, a: nat, b: nat)
    requires Acyclic(g) && a < |g| && b < |g|
    ensures a in Ancestors(g, b) && b in Ancestors(g, a) <==> a == b
  {
  }

  /** New commits do not change the ancestry of old ones. */
  lemma {:induction false} AncestorsGrow(g: Graph, g': Graph, c: nat)
    requires Acyclic(g) && Acyclic(g') && g <= g' && c < |g|
    ensures Ancestors(g', c) == Ancestors(g, c)
    decreases c
  {
    assert g'[c] == g[c];
    forall p | p in g[c] ensures Ancestors(g', p) == Ancestors(g, p) {
      AncestorsGrow(g, g', p);
    }
  }

  // ---------------------------------------------------------------------------
  // Merge base and "ahead" counts
  // ---------------------------------------------------------------------------

  /** A common ancestor that no other common ancestor descends from, which is what
      `git merge-base` answers. */
  ghost predicate BestCommonAncestor(g: Graph, m: nat, a: nat, b: nat)
    requires Acyclic(g) && a < |g| && b < |g|
  {
    && m in Ancestors(g, a) && m in Ancestors(g, b)
    && forall x <- Ancestors(g, a) :: x in Ancestors(g, b) && m in Ancestors(g, x) ==> x == m
  }

  /** The number of commits `git log tip --not base` lists. */
  function Ahead(g: Graph, tip: nat, base: nat): nat
    requires Acyclic(g) && tip < |g| && base < |g|
  {
    |Ancestors(g, tip) - Ancestors(g, base)|
  }

  /** With a merge base, one side is not ahead exactly when it is an ancestor of
      the other. */
  lemma AheadDecidesAncestry(g: Graph, m: nat, a: nat, b: nat)
    requires Acyclic(g) && a < |g| && b < |g| && m < |g| && BestCommonAncestor(g, m, a, b)
    ensures Ahead(g, a, m) == 0 <==> a in Ancestors(g, b)
    ensures Ahead(g, b, m) == 0 <==> b in Ancestors(g, a)
  {
    AheadOneSide(g, m, a, b);
    assert BestCommonAncestor(g, m, b, a);
    AheadOneSide(g, m, b, a);
  }

  lemma AheadOneSide(g: Graph, m: nat, a: nat, b: nat)
    requires Acyclic(g) && a < |g| && b < |g| && m < |g| && BestCommonAncestor(g, m, a, b)
    ensures Ahead(g, a, m) == 0 <==> a in Ancestors(g, b)
  {
    var diff := Ancestors(g, a) - Ancestors(g, m);
    if a in Ancestors(g, b) {
      assert a == m;
      assert diff == {};
    } else {
      assert a !in Ancestors(g, m) by {
        AncestorsTransitive(g, m, b);
      }
      assert a in diff;
    }
  }

  /** The four answers the two counts can give, in terms of ancestry alone. */
  lemma AheadCases(g: Graph, m: nat, a: nat, b: nat)
    requires Acyclic(g) && a < |g| && b < |g| && m < |g| && BestCommonAncestor(g, m, a, b)
    ensures Ahead(g, a, m) == 0 && Ahead(g, b, m) == 0 <==> a == b
    ensures Ahead(g, a, m) > 0 && Ahead(g, b, m) == 0 <==> b in Ancestors(g, a) && a != b
    ensures Ahead(g, a, m) == 0 && Ahead(g, b, m) > 0 <==> a in Ancestors(g, b) && a != b
    ensures Ahead(g, a, m) > 0 && Ahead(g, b, m) > 0 <==> a !in Ancestors(g, b) && b !in Ancestors(g, a)
  {
    AheadDecidesAncestry(g, m, a, b);
    AncestorsAntisymmetric(g, a, b);
  }
}
