/** The answer of `ordered_views` in terms of the views' own names, case and code points
    (src/sql_dump.rs:484-529). */
module ViewNames {
  import opened Common
  import opened ViewGraph
  import opened ViewOrder

  // ---------------------------------------------------------------- names without regard to ASCII case

  /** Equal, or the same ASCII letter in two cases. */
  predicate SameLetter(c: char, d: char) {
    var m, n := c as int, d as int;
    m == n || (65 <= m <= 90 && n == m + 32) || (65 <= n <= 90 && m == n + 32)
  }

  predicate SameName(s: string, t: string) {
    |s| == |t| && forall i :: 0 <= i < |s| ==> SameLetter(s[i], t[i])
  }

  /** The code point of the lower-case form. */
  function Folded(c: char): int {
    var n := c as int;
    if 65 <= n <= 90 then n + 32 else n
  }

  lemma LowerCharFolds(c: char)
    ensures LowerChar(c) as int == Folded(c) && !(65 <= Folded(c) <= 90)
  {
  }

  /** Lower-cased names are equal exactly if the names differ only in the case of ASCII letters. */
  lemma LowerFolds(s: string, t: string)
    ensures Lower(s) == Lower(t) <==> SameName(s, t)
    ensures forall i :: 0 <= i < |Lower(s)| ==> !(65 <= Lower(s)[i] as int <= 90)
  {
    forall i | 0 <= i < |s| ensures Lower(s)[i] as int == Folded(s[i]) {
      LowerCharFolds(s[i]);
    }
    forall i | 0 <= i < |t| ensures Lower(t)[i] as int == Folded(t[i]) {
      LowerCharFolds(t[i]);
    }
    if Lower(s) == Lower(t) {
      assert |s| == |Lower(s)| == |Lower(t)| == |t|;
      forall i | 0 <= i < |s| ensures SameLetter(s[i], t[i]) {
        assert Lower(s)[i] == Lower(t)[i];
      }
    }
    if SameName(s, t) {
      forall i | 0 <= i < |s| ensures Lower(s)[i] == Lower(t)[i] {
        assert SameLetter(s[i], t[i]);
      }
    }
  }

  /** At the first difference the smaller code point comes first, and a proper prefix before the whole. */
  ghost predicate CodePointsBefore(a: string, b: string) {
    exists k :: 0 <= k <= |a| && k < |b| && a[..k] == b[..k] && (k == |a| || a[k] as int < b[k] as int)
  }

  lemma FirstCharacterDecides(a: string, b: string)
    requires a != [] && b != [] && a[0] != b[0]
    ensures CodePointsBefore(a, b) <==> a[0] as int < b[0] as int
  {
    assert a[..0] == b[..0];
    forall k | 0 < k <= |a| && k < |b| ensures a[..k] != b[..k] {
      assert a[..k][0] == a[0] && b[..k][0] == b[0];
    }
  }

  lemma {:induction false} LessIsCodePointOrder(a: string, b: string)
    ensures Less(a, b) <==> CodePointsBefore(a, b)
    decreases |a|
  {
    if a == [] {
      assert b != [] ==> a[..0] == b[..0];
    } else if b != [] {
      LessIsCodePointOrder(a[1..], b[1..]);
      if a[0] != b[0] {
        FirstCharacterDecides(a, b);
      } else {
        if CodePointsBefore(a[1..], b[1..]) {
          var k :| 0 <= k <= |a[1..]| && k < |b[1..]| && a[1..][..k] == b[1..][..k]
                   && (k == |a[1..]| || a[1..][k] as int < b[1..][k] as int);
          assert a[..k + 1] == [a[0]] + a[1..][..k] && b[..k + 1] == [b[0]] + b[1..][..k];
        }
        if CodePointsBefore(a, b) {
          var k :| 0 <= k <= |a| && k < |b| && a[..k] == b[..k] && (k == |a| || a[k] as int < b[k] as int);
          assert k > 0;
          assert a[1..][..k - 1] == a[..k][1..] && b[1..][..k - 1] == b[..k][1..];
        }
      }
    }
  }

  // ---------------------------------------------------------------- duplicates and dependencies

  ghost predicate SharedName(views: seq<View>) {
    exists i, j :: 0 <= i < j < |views| && SameName(views[i].name, views[j].name)
  }

  lemma DuplicatesShareNames(views: seq<View>)
    ensures Duplicated(views) <==> SharedName(views)
  {
    if Duplicated(views) {
      var i, j :| 0 <= i < j < |views| && Lower(views[i].name) == Lower(views[j].name);
      LowerFolds(views[i].name, views[j].name);
    }
    if SharedName(views) {
      var i, j :| 0 <= i < j < |views| && SameName(views[i].name, views[j].name);
      LowerFolds(views[i].name, views[j].name);
    }
  }

  predicate DependsOn(v: View, w: View) {
    exists i :: 0 <= i < |v.dependencies| && SameName(v.dependencies[i], w.name)
  }

  lemma EdgesAreDependencies(views: seq<View>, v: View, w: View)
    requires v in views && w in views && !Duplicated(views)
    ensures Lower(v.name) in GraphOf(views)
    ensures Lower(w.name) in GraphOf(views)[Lower(v.name)] <==> DependsOn(v, w)
  {
    var n, m := Lower(v.name), Lower(w.name);
    assert n in NameSet(views) && m in NameSet(views);
    if m in DependenciesOf(views, n) {
      var x, d :|
        x in views && Lower(x.name) == n && d in x.dependencies && Lower(d) in NameSet(views) && Lower(d) == m;
      OneViewPerName(views, x, v);
      LowerFolds(d, w.name);
      var i :| 0 <= i < |v.dependencies| && v.dependencies[i] == d;
      assert SameName(v.dependencies[i], w.name);
    }
    if DependsOn(v, w) {
      var i :| 0 <= i < |v.dependencies| && SameName(v.dependencies[i], w.name);
      LowerFolds(v.dependencies[i], w.name);
      assert v.dependencies[i] in v.dependencies && Lower(v.dependencies[i]) == m;
    }
  }

  // ---------------------------------------------------------------- orders

  /** Every view comes after those of the list that it depends on, itself included, so never. */
  ghost predicate InOrder(order: seq<View>) {
    forall i, j :: 0 <= i < |order| && 0 <= j < |order| && DependsOn(order[i], order[j]) ==> j < i
  }

  lemma SameViews(views: seq<View>, order: seq<View>)
    requires multiset(order) == multiset(views)
    ensures forall v :: v in order <==> v in views
  {
    forall v ensures v in order <==> v in views {
      assert v in order <==> v in multiset(order);
      assert v in views <==> v in multiset(views);
    }
  }

  /** Positions of a name are positions of its view. */
  lemma NameAt(order: seq<View>, i: nat, n: string)
    requires i <= |order|
    ensures n in Elements(Names(order)[..i]) <==> exists j :: 0 <= j < i && Lower(order[j].name) == n
  {
    var names := Names(order)[..i];
    if n in Elements(names) {
      var j :| 0 <= j < |names| && names[j] == n;
      assert Lower(order[j].name) == n;
    }
    if j :| 0 <= j < i && Lower(order[j].name) == n {
      assert names[j] == n;
    }
  }

  lemma TopologicalIsInOrder(views: seq<View>, order: seq<View>)
    requires multiset(order) == multiset(views) && !Duplicated(views)
    requires TopologicalOrder(GraphOf(views), Names(order))
    ensures InOrder(order)
  {
    SameViews(views, order);
    var g, names := GraphOf(views), Names(order);
    forall i, j | 0 <= i < |order| && 0 <= j < |order| && DependsOn(order[i], order[j]) ensures j < i {
      assert order[i] in views && order[j] in views;
      EdgesAreDependencies(views, order[i], order[j]);
      assert g[names[i]] <= Elements(names[..i]);
      NameAt(order, i, names[j]);
      var k :| 0 <= k < i && Lower(order[k].name) == names[j];
      assert names[k] == names[j];
    }
  }

  lemma InOrderIsTopological(views: seq<View>, order: seq<View>)
    requires multiset(order) == multiset(views) && !Duplicated(views) && InOrder(order)
    ensures TopologicalOrder(GraphOf(views), Names(order))
  {
    SameViews(views, order);
    var g, names := GraphOf(views), Names(order);
    NamesAreUnique(views, order);
    NamesAreAll(views, order);
    forall i | 0 <= i < |names| ensures g[names[i]] <= Elements(names[..i]) {
      forall m | m in g[names[i]] ensures m in Elements(names[..i]) {
        EarlierDependency(views, order, i, m);
      }
    }
  }

  lemma NamesAreUnique(views: seq<View>, order: seq<View>)
    requires multiset(order) == multiset(views) && !Duplicated(views)
    ensures Unique(Names(order))
  {
    GraphIgnoresInputOrder(order, views);
  }

  lemma NamesAreAll(views: seq<View>, order: seq<View>)
    requires forall v :: v in order <==> v in views
    ensures Elements(Names(order)) == GraphOf(views).Keys
  {
    var names := Names(order);
    forall n | n in NameSet(views) ensures n in Elements(names) {
      var v :| v in views && Lower(v.name) == n;
      var i :| 0 <= i < |order| && order[i] == v;
      assert names[i] == n;
    }
    forall n | n in Elements(names) ensures n in NameSet(views) {
      var i :| 0 <= i < |names| && names[i] == n;
      assert order[i] in views;
    }
  }

  lemma EarlierDependency(views: seq<View>, order: seq<View>, i: nat, m: string)
    requires (forall v :: v in order <==> v in views) && !Duplicated(views) && InOrder(order)
    requires i < |order| && Names(order)[i] in GraphOf(views) && m in GraphOf(views)[Names(order)[i]]
    ensures m in Elements(Names(order)[..i])
  {
    assert order[i] in views && m in NameSet(views);
    var w :| w in views && Lower(w.name) == m;
    var j :| 0 <= j < |order| && order[j] == w;
    EdgesAreDependencies(views, order[i], w);
    NameAt(order, i, m);
    assert Lower(order[j].name) == m;
  }

  // ---------------------------------------------------------------- cycles

  /** A list of views, each depending on the next, that ends where it began. */
  ghost predicate ViewCycle(views: seq<View>, path: seq<View>) {
    && |path| >= 2 && path[0] == path[|path| - 1] && (forall i :: 0 <= i < |path| ==> path[i] in views)
    && forall i :: 0 <= i < |path| - 1 ==> DependsOn(path[i], path[i + 1])
  }

  ghost predicate HasCycle(views: seq<View>) {
    exists path :: ViewCycle(views, path)
  }

  lemma {:induction false} ViewsOfPath(views: seq<View>, names: seq<string>) returns (path: seq<View>)
    requires forall i :: 0 <= i < |names| ==> names[i] in NameSet(views)
    ensures |path| == |names| && forall i :: 0 <= i < |path| ==> path[i] in views && Lower(path[i].name) == names[i]
    decreases |names|
  {
    if names == [] {
      path := [];
    } else {
      var n := |names| - 1;
      assert names[n] in NameSet(views);
      var v :| v in views && Lower(v.name) == names[n];
      path := ViewsOfPath(views, names[..n]);
      path := path + [v];
    }
  }

  lemma CyclesAreCycles(views: seq<View>)
    requires !Duplicated(views)
    ensures Cyclic(GraphOf(views)) <==> HasCycle(views)
  {
    var g := GraphOf(views);
    if Cyclic(g) {
      var names :| Cycle(g, names);
      var path := ViewsOfPath(views, names);
      OneViewPerName(views, path[0], path[|path| - 1]);
      forall i | 0 <= i < |path| - 1 ensures DependsOn(path[i], path[i + 1]) {
        EdgesAreDependencies(views, path[i], path[i + 1]);
      }
      assert ViewCycle(views, path);
    }
    if HasCycle(views) {
      var path :| ViewCycle(views, path);
      var names := Names(path);
      forall i | 0 <= i < |names| - 1 ensures names[i + 1] in g[names[i]] {
        EdgesAreDependencies(views, path[i], path[i + 1]);
      }
      assert Cycle(g, names);
    }
  }

  // ---------------------------------------------------------------- the answer

  /** The first order has the smaller lower-cased name where the two first differ. */
  ghost predicate OrderBefore(a: seq<View>, b: seq<View>) {
    exists i :: 0 <= i < |a| && i < |b| && a[..i] == b[..i] && CodePointsBefore(Lower(a[i].name), Lower(b[i].name))
  }

  lemma PrecedesIsOrderBefore(views: seq<View>, a: seq<View>, b: seq<View>)
    requires !Duplicated(views) && multiset(a) == multiset(b) == multiset(views) && Precedes(Names(a), Names(b))
    ensures OrderBefore(a, b)
  {
    SameViews(views, a);
    SameViews(views, b);
    var i :| 0 <= i < |Names(a)| && i < |Names(b)| && Names(a)[..i] == Names(b)[..i] && Less(Names(a)[i], Names(b)[i]);
    forall k | 0 <= k < i ensures a[k] == b[k] {
      assert Names(a)[..i][k] == Names(b)[..i][k];
      assert a[k] in views && b[k] in views;
      OneViewPerName(views, a[k], b[k]);
    }
    assert a[..i] == b[..i];
    LessIsCodePointOrder(Lower(a[i].name), Lower(b[i].name));
  }

  /** The answer in the views' own terms. It is an error exactly if two names differ at most in case, or
      else if views depend on each other in a circle; otherwise it lists the given views, each after those
      it depends on whatever the case of the names, and of all such lists it is the first. */
  lemma AnswerInViewTerms(views: seq<View>, r: Ordered)
    requires IsAnswer(views, r)
    ensures r.DuplicateName? <==> SharedName(views)
    ensures r.DependencyCycle? <==> !SharedName(views) && HasCycle(views)
    ensures r.Sorted? ==>
              && multiset(r.views) == multiset(views) && InOrder(r.views)
              && forall other :: multiset(other) == multiset(views) && InOrder(other) && other != r.views ==>
                   OrderBefore(r.views, other)
  {
    DuplicatesShareNames(views);
    SucceedsExactlyWhenAcyclic(views, r);
    if !Duplicated(views) {
      CyclesAreCycles(views);
    }
    if r.Sorted? {
      TopologicalIsInOrder(views, r.views);
      forall other | multiset(other) == multiset(views) && InOrder(other) && other != r.views
        ensures OrderBefore(r.views, other)
      {
        InOrderIsTopological(views, other);
        if Names(other) == Names(r.views) {
          SameNamesSameViews(views, other, r.views);
        }
        PrecedesIsOrderBefore(views, r.views, other);
      }
    }
  }
}
