/** View dependency graphs, topological orders and their lexicographic comparison. */
module ViewGraph {
  import opened Common

  datatype View = View(name: string, dependencies: seq<string>, query: string)

  function LowerChar(c: char): char {
    if 'A' <= c <= 'Z' then c - 'A' + 'a' else c
  }

  function Lower(s: string): string {
    seq(|s|, i requires 0 <= i < |s| => LowerChar(s[i]))
  }

  // ---------------------------------------------------------------- the order of map keys

  predicate Less(a: string, b: string) {
    if b == [] then false
    else if a == [] then true
    else if a[0] != b[0] then a[0] < b[0]
    else Less(a[1..], b[1..])
  }

  lemma {:induction false} LessTotal(a: string, b: string)
    ensures a == b || Less(a, b) || Less(b, a)
    ensures !(Less(a, b) && Less(b, a))
    ensures a == b ==> !Less(a, b)
    decreases |a|
  {
    if a != [] && b != [] && a[0] == b[0] {
      LessTotal(a[1..], b[1..]);
      assert a == [a[0]] + a[1..] && b == [b[0]] + b[1..];
    }
  }

  lemma {:induction false} LessTransitive(a: string, b: string, c: string)
    requires Less(a, b) && Less(b, c)
    ensures Less(a, c)
    decreases |a|
  {
    if a != [] && a[0] == b[0] == c[0] {
      LessTransitive(a[1..], b[1..], c[1..]);
    }
  }

  predicate IsLeast(m: string, s: set<string>) {
    m in s && forall x :: x in s && x != m ==> Less(m, x)
  }

  lemma {:induction false} LeastExists(s: set<string>)
    requires s != {}
    ensures exists m :: IsLeast(m, s)
    decreases |s|
  {
    var x :| x in s;
    if s == {x} {
      assert IsLeast(x, s);
    } else {
      LeastExists(s - {x});
      var m :| IsLeast(m, s - {x});
      LessTotal(x, m);
      var n := if Less(x, m) then x else m;
      forall y | y in s && y != n ensures Less(n, y) {
        if y != x && n == x {
          if y != m {
            LessTransitive(x, m, y);
          }
        }
      }
      assert IsLeast(n, s);
    }
  }

  method Least(s: set<string>) returns (m: string)
    requires s != {}
    ensures IsLeast(m, s)
  {
    LeastExists(s);
    m :| m in s && IsLeast(m, s);
  }

  /** Sequences of names compared element by element. */
  ghost predicate Precedes(a: seq<string>, b: seq<string>) {
    exists i :: 0 <= i < |a| && i < |b| && a[..i] == b[..i] && Less(a[i], b[i])
  }

  lemma PrecedesIsAntisymmetric(a: seq<string>, b: seq<string>)
    requires Precedes(a, b)
    ensures !Precedes(b, a) && a != b
  {
    var i :| 0 <= i < |a| && i < |b| && a[..i] == b[..i] && Less(a[i], b[i]);
    LessTotal(a[i], b[i]);
    if Precedes(b, a) {
      var j :| 0 <= j < |a| && j < |b| && b[..j] == a[..j] && Less(b[j], a[j]);
      LessTotal(a[j], b[j]);
    }
  }

  // ---------------------------------------------------------------- graphs

  type Graph = map<string, set<string>>

  /** Every name once, each after everything it depends on. */
  ghost predicate TopologicalOrder(g: Graph, order: seq<string>) {
    && Unique(order) && Elements(order) == g.Keys
    && forall i :: 0 <= i < |order| ==> g[order[i]] <= Elements(order[..i])
  }

  ghost predicate Walk(g: Graph, path: seq<string>) {
    && (forall i :: 0 <= i < |path| ==> path[i] in g)
    && forall i :: 0 <= i < |path| - 1 ==> path[i + 1] in g[path[i]]
  }

  ghost predicate Cycle(g: Graph, path: seq<string>) {
    |path| >= 2 && path[0] == path[|path| - 1] && Walk(g, path)
  }

  ghost predicate Cyclic(g: Graph) {
    exists path :: Cycle(g, path)
  }

  /** Along a walk, positions in a topological order strictly go down. */
  lemma {:induction false} WalkGoesDown(g: Graph, order: seq<string>, path: seq<string>, k: nat, i: nat, j: nat)
    requires TopologicalOrder(g, order) && Walk(g, path)
    requires k < |path| && i < |order| && j < |order| && order[i] == path[0] && order[j] == path[k]
    ensures j + k <= i
    decreases k
  {
    if k == 0 {
      assert i == j;
    } else {
      var d := path[k - 1];
      assert d in Elements(order);
      var m :| 0 <= m < |order| && order[m] == d;
      WalkGoesDown(g, order, path, k - 1, i, m);
      assert path[k - 1 + 1] in g[d];
      assert order[j] in Elements(order[..m]);
      var n :| 0 <= n < m && order[n] == order[j];
      assert n == j;
    }
  }

  lemma OrderedGraphHasNoCycle(g: Graph, order: seq<string>)
    requires TopologicalOrder(g, order)
    ensures !Cyclic(g)
  {
    if Cyclic(g) {
      var path :| Cycle(g, path);
      assert path[0] in Elements(order);
      var i :| 0 <= i < |order| && order[i] == path[0];
      WalkGoesDown(g, order, path, |path| - 1, i, i);
    }
  }

  /** When every name of a set depends on another name of it, following dependencies must return. */
  lemma {:induction false} StuckSetHasCycle(g: Graph, stuck: set<string>, path: seq<string>)
    requires stuck <= g.Keys && forall n :: n in stuck ==> g[n] * stuck != {}
    requires path != [] && Unique(path) && Elements(path) <= stuck && Walk(g, path)
    ensures Cyclic(g)
    decreases |stuck - Elements(path)|
  {
    var last := path[|path| - 1];
    assert last in Elements(path);
    var d :| d in g[last] * stuck;
    if d in path {
      var i :| 0 <= i < |path| && path[i] == d;
      ReturnMakesCycle(g, path, i);
    } else {
      ExtendWalk(g, path, d);
      ExtendElements(stuck, path, d);
      StuckSetHasCycle(g, stuck, path + [d]);
    }
  }

  lemma ReturnMakesCycle(g: Graph, path: seq<string>, i: nat)
    requires i < |path| && Walk(g, path) && path[i] in g[path[|path| - 1]]
    ensures Cyclic(g)
  {
    var round := path[i..] + [path[i]];
    assert Walk(g, path[i..]);
    ExtendWalk(g, path[i..], path[i]);
    assert Cycle(g, round);
  }

  lemma ExtendElements(stuck: set<string>, path: seq<string>, d: string)
    requires d in stuck && d !in path && Unique(path) && Elements(path) <= stuck
    ensures Unique(path + [d]) && Elements(path + [d]) <= stuck
    ensures |stuck - Elements(path + [d])| < |stuck - Elements(path)|
  {
    assert Elements(path + [d]) == Elements(path) + {d};
    assert stuck - Elements(path) == (stuck - Elements(path + [d])) + {d};
  }

  lemma ExtendWalk(g: Graph, path: seq<string>, d: string)
    requires path != [] && Walk(g, path) && d in g && d in g[path[|path| - 1]]
    ensures Walk(g, path + [d])
  {
  }
}
