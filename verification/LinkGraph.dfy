/**
 Chains of symbolic links. A graph maps the path of each live symbolic link to the path it stores;
 `tfs_open` follows it by recursion with no bound of its own (fs/operations.c:116-137).
 */
module LinkGraph {
  import opened Bytes

  type Path = seq<byte>
  type Graph = map<Path, Path>

  /** Following links from `p` reaches a path that is not a link within `k` hops. */
  predicate Ends(g: Graph, p: Path, k: nat)
    decreases k
  {
    p !in g || (k > 0 && Ends(g, g[p], k - 1))
  }

  ghost predicate Terminates(g: Graph, p: Path) {
    exists k: nat :: Ends(g, p, k)
  }

  ghost predicate Acyclic(g: Graph) {
    forall p :: p in g ==> Terminates(g, p)
  }

  lemma {:induction false} EndsMonotone(g: Graph, p: Path, k: nat, m: nat)
    requires Ends(g, p, k) && k <= m
    ensures Ends(g, p, m)
    decreases k
  {
    if p in g { EndsMonotone(g, g[p], k - 1, m - 1); }
  }

  /** The number of hops a chain takes. */
  ghost function Hops(g: Graph, p: Path): (k: nat)
    requires Terminates(g, p)
    ensures Ends(g, p, k)
    ensures k > 0 ==> !Ends(g, p, k - 1)
  {
    var w: nat :| Ends(g, p, w);
    Least(g, p, w)
  }

  ghost function Least(g: Graph, p: Path, w: nat): (k: nat)
    requires Ends(g, p, w)
    ensures Ends(g, p, k) && (k > 0 ==> !Ends(g, p, k - 1))
  {
    if w > 0 && Ends(g, p, w - 1) then Least(g, p, w - 1) else w
  }

  lemma HopsStep(g: Graph, p: Path)
    requires Terminates(g, p) && p in g
    ensures Terminates(g, g[p]) && Hops(g, p) == Hops(g, g[p]) + 1
  {
    var k := Hops(g, p);
    assert Ends(g, g[p], k - 1);
    var j := Hops(g, g[p]);
    if j < k - 1 {
      EndsMonotone(g, g[p], j, k - 2);
    } else if j > k - 1 {
      EndsMonotone(g, g[p], k - 1, j - 1);
    }
  }

  /** The path a chain ends at. */
  ghost function Final(g: Graph, p: Path): (q: Path)
    requires Terminates(g, p)
    ensures q !in g
    decreases Hops(g, p)
  {
    if p in g then HopsStep(g, p); Final(g, g[p]) else p
  }

  // ------------------------------------------------- hops bounded by the number of links

  /** A chain that ends before `p` can has no use for the link at `p`. */
  lemma {:induction false} EndsWithout(g: Graph, p: Path, q: Path, k: nat, j: nat)
    requires Ends(g, q, k) && !Ends(g, p, k)
    ensures Ends(g - {p}, q, k)
    ensures Ends(g - {p}, q, j) ==> Ends(g, q, j)
    decreases k
  {
    if q in g {
      assert !Ends(g, p, k - 1) by {
        if Ends(g, p, k - 1) { EndsMonotone(g, p, k - 1, k); }
      }
      EndsWithout(g, p, g[q], k - 1, if j > 0 then j - 1 else 0);
    }
  }

  /** A chain that ends does so within as many hops as there are live links. */
  lemma {:induction false} BoundedHops(g: Graph, p: Path)
    requires Terminates(g, p)
    ensures Hops(g, p) <= |g|
    decreases |g|
  {
    if p in g {
      HopsStep(g, p);
      var k := Hops(g, g[p]);
      var h := g - {p};
      EndsWithout(g, p, g[p], k, 0);
      assert |h| == |g| - 1 by { assert h.Keys == g.Keys - {p}; }
      BoundedHops(h, g[p]);
      EndsWithout(g, p, g[p], k, Hops(h, g[p]));
      if Hops(h, g[p]) < k { EndsMonotone(g, g[p], Hops(h, g[p]), k - 1); }
    }
  }

  // ------------------------------------------------- when a new link keeps chains finite

  lemma {:induction false} OldChain(g: Graph, l: Path, t: Path, p: Path)
    requires l !in g && Terminates(g, p) && Final(g, p) != l
    ensures Terminates(g[l := t], p) && Final(g[l := t], p) == Final(g, p)
    decreases Hops(g, p)
  {
    var h := g[l := t];
    if p in g {
      HopsStep(g, p);
      OldChain(g, l, t, g[p]);
      assert Ends(h, p, Hops(h, h[p]) + 1);
      HopsStep(h, p);
    } else {
      assert Ends(h, p, 0);
    }
  }

  lemma {:induction false} ChainToLink(g: Graph, l: Path, t: Path, p: Path, k: nat)
    requires l !in g && Terminates(g, p) && Final(g, p) == l
    requires Ends(g[l := t], p, k)
    ensures Ends(g[l := t], t, k)
    ensures k > 0 && Ends(g[l := t], t, k - 1)
    decreases Hops(g, p)
  {
    var h := g[l := t];
    if p in g {
      HopsStep(g, p);
      ChainToLink(g, l, t, g[p], k - 1);
      EndsMonotone(h, t, k - 1, k);
    } else {
      EndsMonotone(h, t, k - 1, k);
    }
  }

  lemma {:induction false} NoEndOnCycle(g: Graph, l: Path, t: Path, k: nat)
    requires l !in g && Terminates(g, t) && Final(g, t) == l
    ensures !Ends(g[l := t], t, k)
    decreases k
  {
    if Ends(g[l := t], t, k) {
      ChainToLink(g, l, t, t, k);
      NoEndOnCycle(g, l, t, k - 1);
    }
  }

  /** A new link keeps every chain finite exactly when its target's chain does not end at its own path. */
  lemma AcyclicIff(g: Graph, l: Path, t: Path)
    requires Acyclic(g) && l !in g && Terminates(g, t)
    ensures Acyclic(g[l := t]) <==> Final(g, t) != l
  {
    var h := g[l := t];
    if Final(g, t) != l {
      OldChain(g, l, t, t);
      assert Ends(h, l, Hops(h, t) + 1);
      forall p | p in h ensures Terminates(h, p) {
        if p != l {
          if Final(g, p) != l {
            OldChain(g, l, t, p);
          } else {
            Extend(g, l, t, p);
          }
        }
      }
    } else if Acyclic(h) {
      assert l in h && Terminates(h, l);
      HopsStep(h, l);
      NoEndOnCycle(g, l, t, Hops(h, t));
      assert false;
    }
  }

  lemma {:induction false} Extend(g: Graph, l: Path, t: Path, p: Path)
    requires l !in g && Terminates(g, p) && Final(g, p) == l && Terminates(g[l := t], l)
    ensures Terminates(g[l := t], p)
    decreases Hops(g, p)
  {
    var h := g[l := t];
    if p in g {
      HopsStep(g, p);
      Extend(g, l, t, g[p]);
      assert Ends(h, p, Hops(h, h[p]) + 1);
    }
  }

  /** Removing a link never makes a chain infinite. */
  lemma {:induction false} RemoveKeeps(g: Graph, s: set<Path>, p: Path, k: nat)
    requires Ends(g, p, k)
    ensures Ends(g - s, p, k)
    decreases k
  {
    if p in g - s { RemoveKeeps(g, s, g[p], k - 1); }
  }

  lemma AcyclicSubgraph(g: Graph, s: set<Path>)
    requires Acyclic(g)
    ensures Acyclic(g - s)
  {
    forall p | p in g - s ensures Terminates(g - s, p) {
      RemoveKeeps(g, s, p, Hops(g, p));
    }
  }
}
