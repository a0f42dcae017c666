/** The walk that orders the transitive `file:` dependencies of a package,
    deepest first. */
module InstallOrder {
  type Dir = string

  /** What each readable package manifest names as `file:` dependencies, in order.
      A directory whose manifest cannot be read is not a key. */
  type Graph = map<Dir, seq<Dir>>

  datatype Outcome = Installed | Cyclic(dir: Dir) | Unreadable(dir: Dir)

  // ----- what the walk is for -----

  ghost predicate Edge(g: Graph, a: Dir, b: Dir) {
    a in g && b in g[a]
  }

  ghost predicate IsPath(g: Graph, p: seq<Dir>) {
    p != [] && forall i :: 0 <= i < |p| - 1 ==> Edge(g, p[i], p[i + 1])
  }

  ghost predicate Connects(g: Graph, p: seq<Dir>, a: Dir, b: Dir) {
    IsPath(g, p) && p[0] == a && p[|p| - 1] == b
  }

  ghost predicate Reaches(g: Graph, a: Dir, b: Dir) {
    exists p :: Connects(g, p, a, b)
  }

  ghost predicate OnCycle(g: Graph, a: Dir) {
    exists p :: Connects(g, p, a, a) && |p| >= 2
  }

  /** Every package once, after all its own dependencies. */
  ghost predicate DependenciesFirst(g: Graph, order: seq<Dir>) {
    && (forall i, j :: 0 <= i < j < |order| ==> order[i] != order[j])
    && (forall i, b :: 0 <= i < |order| && Edge(g, order[i], b) ==> b in order[..i])
  }

  ghost predicate IsInstallOrder(g: Graph, root: Dir, order: seq<Dir>) {
    && (forall d :: d in order <==> Reaches(g, root, d) && d != root)
    && DependenciesFirst(g, order)
  }

  // ----- paths -----

  lemma Extend(g: Graph, p: seq<Dir>, b: Dir)
    requires IsPath(g, p) && Edge(g, p[|p| - 1], b)
    ensures IsPath(g, p + [b])
  {
    forall i | 0 <= i < |p| ensures Edge(g, (p + [b])[i], (p + [b])[i + 1]) {
    }
  }

  /** A set closed under dependencies holds everything reachable from its members. */
  lemma {:induction false} ClosedHoldsReachable(g: Graph, closed: set<Dir>, p: seq<Dir>)
    requires forall a, b :: a in closed && Edge(g, a, b) ==> b in closed
    requires IsPath(g, p) && p[0] in closed
    ensures p[|p| - 1] in closed
  {
    if |p| > 1 {
      var tail := p[1..];
      assert Edge(g, p[0], p[1]);
      forall i | 0 <= i < |tail| - 1 ensures Edge(g, tail[i], tail[i + 1]) {
        assert Edge(g, p[i + 1], p[i + 2]);
      }
      ClosedHoldsReachable(g, closed, tail);
    }
  }

  /** Along a path the position in a dependencies-first order strictly falls. */
  lemma {:induction false} PathsDescend(g: Graph, order: seq<Dir>, p: seq<Dir>, i: nat) returns (j: nat)
    requires DependenciesFirst(g, order) && IsPath(g, p)
    requires i < |order| && order[i] == p[0]
    ensures j < |order| && order[j] == p[|p| - 1] && j + |p| <= i + 1
  {
    if |p| == 1 {
      return i;
    }
    var tail := p[1..];
    assert Edge(g, order[i], p[1]);
    forall k | 0 <= k < |tail| - 1 ensures Edge(g, tail[k], tail[k + 1]) {
      assert Edge(g, p[k + 1], p[k + 2]);
    }
    var next :| 0 <= next < i && order[next] == p[1];
    j := PathsDescend(g, order, tail, next);
  }

  /** So nothing in such an order lies on a cycle. */
  lemma NoCycleInOrder(g: Graph, order: seq<Dir>, d: Dir)
    requires DependenciesFirst(g, order) && d in order
    ensures !OnCycle(g, d)
  {
    if OnCycle(g, d) {
      var p :| Connects(g, p, d, d) && |p| >= 2;
      var i :| 0 <= i < |order| && order[i] == d;
      var j := PathsDescend(g, order, p, i);
    }
  }

  // ----- the walk -----

  class Walk {
    const deps: Graph
    var done: set<Dir>
    var visiting: set<Dir>
    var ordered: seq<Dir>

    constructor (deps: Graph)
      ensures this.deps == deps && done == {} && visiting == {} && ordered == []
    {
      this.deps := deps;
      done, visiting, ordered := {}, {}, [];
    }

    /** While the root is still being visited: what is done is what is ordered. */
    ghost predicate Consistent(root: Dir)
      reads this
    {
      && (forall d :: d in done <==> d in ordered)
      && DependenciesFirst(deps, ordered)
      && (forall d :: d in done ==> d in deps && Reaches(deps, root, d))
      && done !! visiting
    }

    /** `stack` is the chain of packages from the root down to the one being visited. */
    method Visit(pkgDir: Dir, isRoot: bool, ghost stack: seq<Dir>) returns (outcome: Outcome)
      requires IsPath(deps, stack + [pkgDir])
      requires forall d :: d in visiting <==> d in stack
      requires isRoot <==> stack == []
      requires Consistent((stack + [pkgDir])[0]) && visiting <= deps.Keys
      requires isRoot ==> done == {}
      modifies this
      decreases deps.Keys - visiting
      ensures outcome.Installed? ==> pkgDir in done && visiting == old(visiting) && old(done) <= done
      ensures outcome.Installed? && !isRoot ==> Consistent(stack[0])
      ensures outcome.Installed? && isRoot ==>
                && pkgDir in deps && (forall d :: d in done <==> d in ordered + [pkgDir])
                && DependenciesFirst(deps, ordered + [pkgDir])
                && (forall d :: d in done ==> d in deps && Reaches(deps, pkgDir, d))
      ensures outcome.Cyclic? ==> Reaches(deps, (stack + [pkgDir])[0], outcome.dir) && OnCycle(deps, outcome.dir)
      ensures outcome.Unreadable? ==> Reaches(deps, (stack + [pkgDir])[0], outcome.dir) && outcome.dir !in deps
    {
      ghost var path := stack + [pkgDir];
      ghost var root := path[0];
      assert Connects(deps, path, root, pkgDir);
      if pkgDir in done {
        return Installed;
      }
      if pkgDir in visiting {
        ghost var k :| 0 <= k < |stack| && stack[k] == pkgDir;
        SubPath(deps, path, k);
        assert Connects(deps, path[k..], pkgDir, pkgDir);
        return Cyclic(pkgDir);
      }
      visiting := visiting + {pkgDir};
      if pkgDir !in deps {
        return Unreadable(pkgDir);
      }
      var fileDeps := deps[pkgDir];
      for i := 0 to |fileDeps|
        invariant visiting == old(visiting) + {pkgDir} && old(done) <= done
        invariant Consistent(root)
        invariant forall j :: 0 <= j < i ==> fileDeps[j] in done
      {
        assert Edge(deps, pkgDir, fileDeps[i]);
        Extend(deps, path, fileDeps[i]);
        assert (path + [fileDeps[i]])[0] == root && path[0] == root;
        outcome := Visit(fileDeps[i], false, path);
        if !outcome.Installed? {
          return;
        }
      }
      visiting := visiting - {pkgDir};
      done := done + {pkgDir};
      Appended(deps, ordered, pkgDir);
      if !isRoot {
        ordered := ordered + [pkgDir];
      }
      return Installed;
    }
  }

  lemma SubPath(g: Graph, p: seq<Dir>, k: nat)
    requires IsPath(g, p) && k < |p|
    ensures IsPath(g, p[k..])
  {
    forall i | 0 <= i < |p[k..]| - 1 ensures Edge(g, p[k..][i], p[k..][i + 1]) {
      assert Edge(g, p[k + i], p[k + i + 1]);
    }
  }

  lemma Appended(g: Graph, order: seq<Dir>, d: Dir)
    requires DependenciesFirst(g, order) && d !in order
    requires forall b :: Edge(g, d, b) ==> b in order
    ensures DependenciesFirst(g, order + [d])
  {
    var longer := order + [d];
    forall i, b | 0 <= i < |longer| && Edge(g, longer[i], b) ensures b in longer[..i] {
      assert longer[..i] == order[..i];
      assert order[..|order|] == order;
    }
  }

  /** The whole script: it succeeds exactly when every package reachable from the
      root has a readable manifest and none lies on a cycle, and then yields every
      reachable package except the root once, after all of its dependencies. */
  method OrderFileDeps(deps: Graph, root: Dir) returns (outcome: Outcome, ordered: seq<Dir>)
    ensures outcome.Installed? <==> forall d :: Reaches(deps, root, d) ==> d in deps && !OnCycle(deps, d)
    ensures outcome.Installed? ==> IsInstallOrder(deps, root, ordered)
    ensures outcome.Cyclic? ==> Reaches(deps, root, outcome.dir) && OnCycle(deps, outcome.dir)
    ensures outcome.Unreadable? ==> Reaches(deps, root, outcome.dir) && outcome.dir !in deps
  {
    var walk := new Walk(deps);
    assert ([] + [root])[0] == root;
    outcome := walk.Visit(root, true, []);
    ordered := walk.ordered;
    if outcome.Installed? {
      ghost var order := ordered + [root];
      forall d | Reaches(deps, root, d) ensures d in walk.done && !OnCycle(deps, d) {
        var p :| Connects(deps, p, root, d);
        ClosedUnderDeps(deps, order, walk.done);
        ClosedHoldsReachable(deps, walk.done, p);
        NoCycleInOrder(deps, order, d);
      }
      assert forall i :: 0 <= i < |ordered| ==> order[i] == ordered[i] && order[i] != order[|ordered|];
      assert forall d :: d in order <==> d in ordered || d == root;
      assert DependenciesFirst(deps, ordered) by {
        forall i, b | 0 <= i < |ordered| && Edge(deps, ordered[i], b) ensures b in ordered[..i] {
          assert order[..i] == ordered[..i];
        }
        forall i, j | 0 <= i < j < |ordered| ensures ordered[i] != ordered[j] {
          assert order[i] != order[j];
        }
      }
    }
  }

  lemma ClosedUnderDeps(g: Graph, order: seq<Dir>, done: set<Dir>)
    requires DependenciesFirst(g, order) && forall d :: d in done <==> d in order
    ensures forall a, b :: a in done && Edge(g, a, b) ==> b in done
  {
    forall a, b | a in done && Edge(g, a, b) ensures b in done {
      var i :| 0 <= i < |order| && order[i] == a;
      assert b in order[..i];
    }
  }
}
