/** The export order of views (`ordered_views`, src/sql_dump.rs:484-529). */
module ViewOrder {
  import opened Common
  import opened ViewGraph

  datatype Ordered = Sorted(views: seq<View>) | DuplicateName | DependencyCycle

  function NameSet(views: seq<View>): set<string> {
    set v | v in views :: Lower(v.name)
  }

  ghost predicate Duplicated(views: seq<View>) {
    exists i, j :: 0 <= i < j < |views| && Lower(views[i].name) == Lower(views[j].name)
  }

  /** Dependencies of the view called `n` on the given views; others are outside the dump. */
  ghost function DependenciesOf(views: seq<View>, n: string): set<string> {
    set v, d | v in views && Lower(v.name) == n && d in v.dependencies && Lower(d) in NameSet(views) :: Lower(d)
  }

  ghost function GraphOf(views: seq<View>): Graph {
    map n | n in NameSet(views) :: DependenciesOf(views, n)
  }

  function Names(views: seq<View>): seq<string> {
    seq(|views|, i requires 0 <= i < |views| => Lower(views[i].name))
  }

  /** The specification: an error exactly when there is its reason, otherwise the views themselves
      in the topological order that comes first in the alphabet. */
  ghost predicate IsAnswer(views: seq<View>, r: Ordered) {
    match r
    case DuplicateName => Duplicated(views)
    case DependencyCycle => !Duplicated(views) && Cyclic(GraphOf(views))
    case Sorted(order) =>
      && !Duplicated(views) && multiset(order) == multiset(views)
      && TopologicalOrder(GraphOf(views), Names(order))
      && forall t :: TopologicalOrder(GraphOf(views), t) && t != Names(order) ==> Precedes(Names(order), t)
  }

  // ---------------------------------------------------------------- index by lower-cased name

  ghost predicate Indexes(byName: map<string, View>, views: seq<View>) {
    && byName.Keys == NameSet(views)
    && forall n :: n in byName ==> byName[n] in views && Lower(byName[n].name) == n
  }

  method IndexByName(views: seq<View>) returns (byName: map<string, View>)
    ensures Indexes(byName, views)
  {
    byName := map[];
    ghost var prefix: seq<View> := [];
    for i := 0 to |views|
      invariant prefix == views[..i] && Indexes(byName, prefix)
    {
      InsertKeepsIndex(byName, prefix, views[i]);
      byName := byName[Lower(views[i].name) := views[i]];
      prefix := prefix + [views[i]];
    }
    assert prefix == views;
  }

  lemma InsertKeepsIndex(byName: map<string, View>, prefix: seq<View>, v: View)
    requires Indexes(byName, prefix)
    ensures Indexes(byName[Lower(v.name) := v], prefix + [v])
  {
    NameSetStep(prefix, v);
  }

  lemma NameSetStep(prefix: seq<View>, v: View)
    ensures NameSet(prefix + [v]) == NameSet(prefix) + {Lower(v.name)}
  {
    assert forall w :: w in prefix + [v] <==> w in prefix || w == v;
  }

  /** Comparing sizes detects duplicates, as names collapse in the index. */
  lemma {:induction false} SizesDetectDuplicates(views: seq<View>)
    ensures |NameSet(views)| <= |views|
    ensures |NameSet(views)| == |views| <==> !Duplicated(views)
    decreases |views|
  {
    if views != [] {
      var n := |views| - 1;
      var prefix, v := views[..n], views[n];
      SizesDetectDuplicates(prefix);
      assert views == prefix + [v];
      NameSetStep(prefix, v);
      DuplicateStep(prefix, v, views);
    }
  }

  lemma DuplicateStep(prefix: seq<View>, v: View, views: seq<View>)
    requires views == prefix + [v]
    ensures Duplicated(views) <==> Duplicated(prefix) || Lower(v.name) in NameSet(prefix)
  {
    if Duplicated(prefix) {
      var j, k :| 0 <= j < k < |prefix| && Lower(prefix[j].name) == Lower(prefix[k].name);
      assert Lower(views[j].name) == Lower(views[k].name);
    }
    if Lower(v.name) in NameSet(prefix) {
      var j :| 0 <= j < |prefix| && Lower(prefix[j].name) == Lower(v.name);
      assert Lower(views[j].name) == Lower(views[|prefix|].name);
    }
    if Duplicated(views) {
      var j, k :| 0 <= j < k < |views| && Lower(views[j].name) == Lower(views[k].name);
      if k == |prefix| {
        assert prefix[j] in prefix;
      } else {
        assert Lower(prefix[j].name) == Lower(prefix[k].name);
      }
    }
  }

  function Edges(byName: map<string, View>): Graph {
    map n | n in byName :: set d | d in byName[n].dependencies && Lower(d) in byName :: Lower(d)
  }

  lemma EdgesAreTheGraph(byName: map<string, View>, views: seq<View>)
    requires Indexes(byName, views) && !Duplicated(views)
    ensures Edges(byName) == GraphOf(views)
  {
    forall n | n in byName ensures Edges(byName)[n] == DependenciesOf(views, n) {
      forall v | v in views && Lower(v.name) == n ensures v == byName[n] {
        OneViewPerName(views, v, byName[n]);
      }
    }
  }

  lemma OneViewPerName(views: seq<View>, v: View, w: View)
    requires !Duplicated(views) && v in views && w in views && Lower(v.name) == Lower(w.name)
    ensures v == w
  {
    var i :| 0 <= i < |views| && views[i] == v;
    var j :| 0 <= j < |views| && views[j] == w;
  }

  // ---------------------------------------------------------------- counters and reverse edges

  /** `dependents[d]` lists, once each, the names of `among` that depend on `d`. */
  ghost predicate Reverses(dependents: map<string, seq<string>>, g: Graph, among: set<string>)
    requires among <= g.Keys
  {
    && (forall d :: d in dependents ==> Unique(dependents[d]))
    && (forall d, c :: d in dependents && c in dependents[d] ==> c in among && d in g[c])
    && (forall d, c :: c in among && d in g[c] ==> d in dependents && c in dependents[d])
  }

  ghost predicate Counts(remaining: map<string, nat>, g: Graph, among: set<string>)
    requires among <= g.Keys
  {
    remaining.Keys == among && forall n :: n in among ==> remaining[n] == |g[n]|
  }

  /** Both tables, for the names in `among`. */
  ghost predicate Tabled(remaining: map<string, nat>, dependents: map<string, seq<string>>, g: Graph,
                         among: set<string>) {
    among <= g.Keys && Counts(remaining, g, among) && Reverses(dependents, g, among)
  }

  method CountDependencies(g: Graph) returns (remaining: map<string, nat>, dependents: map<string, seq<string>>)
    ensures Tabled(remaining, dependents, g, g.Keys)
  {
    remaining, dependents := map[], map[];
    var todo := g.Keys;
    ghost var among: set<string> := {};
    NothingTabled(g);
    while todo != {}
      invariant among + todo == g.Keys && among * todo == {}
      invariant Tabled(remaining, dependents, g, among)
      decreases todo
    {
      var name := FirstOf(todo);
      remaining, dependents := CountView(g, among, remaining, dependents, name);
      todo, among := todo - {name}, among + {name};
    }
    assert among == g.Keys;
  }

  method FirstOf(names: set<string>) returns (name: string)
    requires names != {}
    ensures name in names
  {
    name := Least(names);
  }

  lemma NothingTabled(g: Graph)
    ensures Tabled(map[], map[], g, {})
  {
  }

  method CountView(g: Graph, ghost among: set<string>, counts: map<string, nat>, reverse: map<string, seq<string>>,
                   name: string)
    returns (remaining: map<string, nat>, dependents: map<string, seq<string>>)
    requires name in g && name !in among && Tabled(counts, reverse, g, among)
    ensures Tabled(remaining, dependents, g, among + {name})
  {
    dependents := AddDependent(g, among, reverse, name);
    CountOne(counts, g, among, name);
    remaining := counts[name := |g[name]|];
  }

  lemma CountOne(remaining: map<string, nat>, g: Graph, among: set<string>, name: string)
    requires among <= g.Keys && name in g && Counts(remaining, g, among)
    ensures Counts(remaining[name := |g[name]|], g, among + {name})
  {
  }

  method AddDependent(g: Graph, ghost among: set<string>, before: map<string, seq<string>>, name: string)
    returns (dependents: map<string, seq<string>>)
    requires name in g && name !in among && among <= g.Keys && Reverses(before, g, among)
    ensures Reverses(dependents, g, among + {name})
  {
    dependents := before;
    var deps := g[name];
    while deps != {}
      invariant deps <= g[name]
      invariant forall d :: d in dependents ==> Unique(dependents[d])
      invariant forall d, c :: d in dependents && c in dependents[d] ==>
                  if c in among then d in g[c] else c == name && d in g[name] - deps
      invariant forall d, c :: c in among && d in g[c] ==> d in dependents && c in dependents[d]
      invariant forall d :: d in g[name] - deps ==> d in dependents && name in dependents[d]
      decreases |deps|
    {
      var d :| d in deps;
      deps := deps - {d};
      dependents := dependents[d := (if d in dependents then dependents[d] else []) + [name]];
    }
  }

  // ---------------------------------------------------------------- Kahn's algorithm

  ghost function ReadyAfter(g: Graph, done: set<string>): set<string> {
    set n | n in g && n !in done && g[n] <= done
  }

  ghost predicate DownClosed(g: Graph, done: set<string>) {
    done <= g.Keys && forall n :: n in done ==> g[n] <= done
  }

  ghost predicate Open(remaining: map<string, nat>, g: Graph, done: set<string>) {
    remaining.Keys == g.Keys && forall n :: n in g && n !in done ==> remaining[n] == |g[n] - done|
  }

  /** Halfway through a released name's dependents, those in `seen` already count it as done. */
  ghost predicate Between(remaining: map<string, nat>, ready: set<string>, g: Graph, done: set<string>, name: string,
                          seen: set<string>) {
    && remaining.Keys == g.Keys
    && (forall n :: n in g && n !in done + {name} ==>
          remaining[n] == |g[n] - if n in seen then done + {name} else done|)
    && (forall n :: n in ready <==>
          n in g && n !in done + {name} && (g[n] <= done || (n in seen && g[n] <= done + {name})))
  }

  lemma ReleaseChild(remaining: map<string, nat>, ready: set<string>, g: Graph, done: set<string>, name: string,
                     seen: set<string>, child: string)
    requires Between(remaining, ready, g, done, name, seen)
    requires child in g && child !in seen && child !in done + {name} && name in g[child] && name !in done
    ensures remaining[child] > 0
    ensures var count: nat := remaining[child] - 1;
            Between(remaining[child := count], if count == 0 then ready + {child} else ready, g, done, name,
                    seen + {child})
  {
    assert g[child] - done == (g[child] - (done + {name})) + {name};
    assert remaining[child] == |g[child] - done|;
    if g[child] <= done + {name} {
      assert g[child] - (done + {name}) == {};
    }
  }

  lemma ChildIsOpen(g: Graph, done: set<string>, name: string, children: seq<string>, j: nat)
    requires DownClosed(g, done) && name in ReadyAfter(g, done) && j < |children|
    requires Unique(children) && forall c :: c in children <==> c in g && name in g[c]
    ensures children[j] in g && children[j] !in Elements(children[..j]) && children[j] !in done + {name}
    ensures name in g[children[j]] && name !in done
    ensures Elements(children[..j + 1]) == Elements(children[..j]) + {children[j]}
  {
    assert children[j] in children;
    assert children[..j + 1] == children[..j] + [children[j]];
  }

  method Release(g: Graph, ghost done: set<string>, name: string, children: seq<string>,
                 before: map<string, nat>, waiting: set<string>)
    returns (remaining: map<string, nat>, ready: set<string>)
    requires DownClosed(g, done) && name in ReadyAfter(g, done) && waiting == ReadyAfter(g, done) - {name}
    requires Open(before, g, done)
    requires Unique(children) && forall c :: c in children <==> c in g && name in g[c]
    ensures Open(remaining, g, done + {name}) && ready == ReadyAfter(g, done + {name})
  {
    remaining, ready := before, waiting;
    ghost var seen: set<string> := {};
    ReleaseStart(remaining, ready, g, done, name);
    for j := 0 to |children|
      invariant seen == Elements(children[..j])
      invariant Between(remaining, ready, g, done, name, seen)
    {
      var child := children[j];
      ChildIsOpen(g, done, name, children, j);
      ReleaseChild(remaining, ready, g, done, name, seen, child);
      var count: nat := remaining[child] - 1;
      remaining := remaining[child := count];
      if count == 0 {
        ready := ready + {child};
      }
      seen := seen + {child};
    }
    assert children[..|children|] == children;
    ReleaseEnd(remaining, ready, g, done, name, children);
  }

  lemma ReleaseStart(remaining: map<string, nat>, ready: set<string>, g: Graph, done: set<string>, name: string)
    requires name in ReadyAfter(g, done) && ready == ReadyAfter(g, done) - {name} && Open(remaining, g, done)
    ensures Between(remaining, ready, g, done, name, {})
  {
  }

  lemma ReleaseEnd(remaining: map<string, nat>, ready: set<string>, g: Graph, done: set<string>, name: string,
                   children: seq<string>)
    requires Between(remaining, ready, g, done, name, Elements(children))
    requires forall c :: c in children <==> c in g && name in g[c]
    ensures Open(remaining, g, done + {name}) && ready == ReadyAfter(g, done + {name})
  {
    forall n | n in g && n !in children ensures g[n] - done == g[n] - (done + {name}) {
    }
  }

  /** A prefix of a topological order. */
  ghost predicate Partial(g: Graph, order: seq<string>) {
    && Unique(order) && Elements(order) <= g.Keys
    && forall i :: 0 <= i < |order| ==> g[order[i]] <= Elements(order[..i])
  }

  /** No topological order starts with anything earlier in the alphabet. */
  ghost predicate Unbeaten(g: Graph, order: seq<string>) {
    forall t :: TopologicalOrder(g, t) ==> order <= t || Precedes(order, t)
  }

  lemma PartialIsDownClosed(g: Graph, order: seq<string>)
    requires Partial(g, order)
    ensures DownClosed(g, Elements(order))
  {
    forall n | n in Elements(order) ensures g[n] <= Elements(order) {
      var i :| 0 <= i < |order| && order[i] == n;
      assert g[order[i]] <= Elements(order[..i]);
    }
  }

  lemma PartialStep(g: Graph, order: seq<string>, name: string)
    requires Partial(g, order) && name in ReadyAfter(g, Elements(order))
    ensures Partial(g, order + [name]) && Elements(order + [name]) == Elements(order) + {name}
  {
    var longer := order + [name];
    forall i | 0 <= i < |longer| ensures g[longer[i]] <= Elements(longer[..i]) {
      if i < |order| {
        assert longer[..i] == order[..i];
      } else {
        assert longer[..i] == order;
      }
    }
  }

  lemma UnbeatenStep(g: Graph, order: seq<string>, name: string)
    requires Unbeaten(g, order) && IsLeast(name, ReadyAfter(g, Elements(order)))
    ensures Unbeaten(g, order + [name])
  {
    var longer := order + [name];
    forall t | TopologicalOrder(g, t) ensures longer <= t || Precedes(longer, t) {
      if order <= t {
        FollowerIsReady(g, order, t, name);
        var n := |order|;
        assert t[..n] == order == longer[..n];
        if t[n] != name {
          assert Less(longer[n], t[n]);
        }
      } else {
        var i :| 0 <= i < |order| && i < |t| && order[..i] == t[..i] && Less(order[i], t[i]);
        assert longer[..i] == t[..i] && Less(longer[i], t[i]);
      }
    }
  }

  /** What a topological order puts next was ready. */
  lemma FollowerIsReady(g: Graph, order: seq<string>, t: seq<string>, name: string)
    requires TopologicalOrder(g, t) && order <= t && name in g && name !in Elements(order)
    ensures |order| < |t| && t[|order|] in ReadyAfter(g, Elements(order))
  {
    var n := |order|;
    assert name in Elements(t);
    var i :| 0 <= i < |t| && t[i] == name;
    assert t[..n] == order;
    assert t[n] in Elements(t);
  }

  ghost predicate Loop(g: Graph, order: seq<string>, remaining: map<string, nat>, ready: set<string>) {
    && Partial(g, order) && Unbeaten(g, order)
    && Open(remaining, g, Elements(order)) && ready == ReadyAfter(g, Elements(order))
  }

  lemma LoopStart(g: Graph, counts: map<string, nat>, ready: set<string>)
    requires Counts(counts, g, g.Keys) && ready == set n | n in counts && counts[n] == 0
    ensures Loop(g, [], counts, ready)
  {
    assert Elements<string>([]) == {};
    NothingDone(g, counts, ready);
    assert Partial(g, []);
    assert Unbeaten(g, []);
  }

  lemma NothingDone(g: Graph, counts: map<string, nat>, ready: set<string>)
    requires Counts(counts, g, g.Keys) && ready == set n | n in counts && counts[n] == 0
    ensures Open(counts, g, {}) && ready == ReadyAfter(g, {})
  {
    forall n | n in g ensures g[n] - {} == g[n] && (|g[n]| == 0 <==> g[n] <= {}) {
    }
  }

  lemma LoopStep(g: Graph, order: seq<string>, name: string, remaining: map<string, nat>, ready: set<string>)
    requires Partial(g, order) && Unbeaten(g, order) && IsLeast(name, ReadyAfter(g, Elements(order)))
    requires Open(remaining, g, Elements(order) + {name}) && ready == ReadyAfter(g, Elements(order) + {name})
    ensures Loop(g, order + [name], remaining, ready)
    ensures |g.Keys - Elements(order + [name])| < |g.Keys - Elements(order)|
  {
    PartialStep(g, order, name);
    UnbeatenStep(g, order, name);
    assert g.Keys - Elements(order) == (g.Keys - Elements(order + [name])) + {name};
  }

  function Children(dependents: map<string, seq<string>>, name: string): seq<string> {
    if name in dependents then dependents[name] else []
  }

  lemma ChildrenAreDependents(g: Graph, dependents: map<string, seq<string>>, name: string)
    requires Reverses(dependents, g, g.Keys)
    ensures Unique(Children(dependents, name))
    ensures forall c :: c in Children(dependents, name) <==> c in g && name in g[c]
  {
  }

  method Kahn(g: Graph, counts: map<string, nat>, dependents: map<string, seq<string>>) returns (order: seq<string>)
    requires Counts(counts, g, g.Keys) && Reverses(dependents, g, g.Keys)
    ensures Partial(g, order) && Unbeaten(g, order)
    ensures ReadyAfter(g, Elements(order)) == {}
  {
    order := [];
    var remaining := counts;
    var ready := set n | n in remaining && remaining[n] == 0;
    LoopStart(g, counts, ready);
    while ready != {}
      invariant Loop(g, order, remaining, ready)
      decreases |g.Keys - Elements(order)|
    {
      var name := Least(ready);
      PartialIsDownClosed(g, order);
      ChildrenAreDependents(g, dependents, name);
      remaining, ready := Release(g, Elements(order), name, Children(dependents, name), remaining, ready - {name});
      LoopStep(g, order, name, remaining, ready);
      order := order + [name];
    }
  }

  // ---------------------------------------------------------------- the whole routine

  lemma {:induction false} UniqueSize<T>(s: seq<T>)
    requires Unique(s)
    ensures |Elements(s)| == |s|
    decreases |s|
  {
    if s != [] {
      var init, last := s[..|s| - 1], s[|s| - 1];
      UniqueSize(init);
      assert Elements(s) == Elements(init) + {last};
    }
  }

  lemma StuckNamesNeedEachOther(g: Graph, done: set<string>, n: string)
    requires forall m :: m in g ==> g[m] <= g.Keys
    requires ReadyAfter(g, done) == {} && n in g.Keys - done
    ensures g[n] * (g.Keys - done) != {}
  {
    assert n !in ReadyAfter(g, done);
    var d :| d in g[n] && d !in done;
    assert d in g[n] * (g.Keys - done);
  }

  lemma StuckSetIsCyclic(g: Graph, stuck: set<string>)
    requires stuck != {} && stuck <= g.Keys && forall n :: n in stuck ==> g[n] * stuck != {}
    ensures Cyclic(g)
  {
    var n :| n in stuck;
    assert Walk(g, [n]) && Elements([n]) == {n};
    StuckSetHasCycle(g, stuck, [n]);
  }

  lemma NamesLeft(g: Graph, order: seq<string>)
    requires Unique(order) && Elements(order) <= g.Keys && |order| != |g|
    ensures g.Keys - Elements(order) != {}
  {
    assert g.Keys == Elements(order) + (g.Keys - Elements(order));
    UniqueSize(order);
  }

  /** When nothing is ready and names are left, the names left contain a cycle. */
  lemma StuckMeansCyclic(g: Graph, order: seq<string>)
    requires forall n :: n in g ==> g[n] <= g.Keys
    requires Partial(g, order) && ReadyAfter(g, Elements(order)) == {} && |order| != |g|
    ensures Cyclic(g)
  {
    NamesLeft(g, order);
    forall n | n in g.Keys - Elements(order) ensures g[n] * (g.Keys - Elements(order)) != {} {
      StuckNamesNeedEachOther(g, Elements(order), n);
    }
    StuckSetIsCyclic(g, g.Keys - Elements(order));
  }

  lemma CompleteMeansLeast(g: Graph, order: seq<string>)
    requires Partial(g, order) && Unbeaten(g, order) && |order| == |g|
    ensures TopologicalOrder(g, order)
    ensures forall t :: TopologicalOrder(g, t) && t != order ==> Precedes(order, t)
  {
    UniqueSize(order);
    FullSubset(Elements(order), g.Keys);
    forall t | TopologicalOrder(g, t) && t != order ensures Precedes(order, t) {
      UniqueSize(t);
      assert order <= t ==> order == t;
    }
  }

  lemma FullSubset<T>(a: set<T>, b: set<T>)
    requires a <= b && |a| == |b|
    ensures a == b
  {
    assert b == a + (b - a);
  }

  lemma {:induction false} UniqueMultiset<T>(s: seq<T>, x: T)
    requires Unique(s)
    ensures multiset(s)[x] == if x in s then 1 else 0
    decreases |s|
  {
    if s != [] {
      var init, last := s[..|s| - 1], s[|s| - 1];
      assert s == init + [last];
      UniqueMultiset(init, x);
    }
  }

  lemma SameElementsOnce<T>(a: seq<T>, b: seq<T>)
    requires Unique(a) && Unique(b) && forall x :: x in a <==> x in b
    ensures multiset(a) == multiset(b)
  {
    forall x ensures multiset(a)[x] == multiset(b)[x] {
      UniqueMultiset(a, x);
      UniqueMultiset(b, x);
    }
  }

  /** Looking every name up loses no view and repeats none. */
  lemma LookupIsPermutation(views: seq<View>, byName: map<string, View>, order: seq<string>, found: seq<View>)
    requires Indexes(byName, views) && !Duplicated(views) && Unique(order) && Elements(order) == byName.Keys
    requires |found| == |order| && forall i :: 0 <= i < |order| ==> order[i] in byName && found[i] == byName[order[i]]
    ensures multiset(found) == multiset(views) && Names(found) == order
  {
    forall v | v in views ensures v in found {
      var n := Lower(v.name);
      OneViewPerName(views, v, byName[n]);
      assert n in Elements(order);
      var i :| 0 <= i < |order| && order[i] == n;
      assert found[i] == v;
    }
    assert forall i, j :: 0 <= i < j < |found| ==> Lower(found[i].name) != Lower(found[j].name);
    SameElementsOnce(found, views);
  }

  method OrderedViews(views: seq<View>) returns (r: Ordered)
    ensures IsAnswer(views, r)
  {
    var byName := IndexByName(views);
    SizesDetectDuplicates(views);
    assert |byName| == |byName.Keys|;
    if |byName| != |views| {
      return DuplicateName;
    }
    var g := Edges(byName);
    EdgesAreTheGraph(byName, views);
    var counts, dependents := CountDependencies(g);
    var order := Kahn(g, counts, dependents);
    assert forall i :: 0 <= i < |order| ==> order[i] in Elements(order);
    var found := seq(|order|, i requires 0 <= i < |order| => byName[order[i]]);
    AnswerFromOrder(views, byName, order, found);
    if |found| != |views| {
      return DependencyCycle;
    }
    return Sorted(found);
  }

  lemma AnswerFromOrder(views: seq<View>, byName: map<string, View>, order: seq<string>, found: seq<View>)
    requires Indexes(byName, views) && |byName| == |views| && !Duplicated(views) && Edges(byName) == GraphOf(views)
    requires Partial(Edges(byName), order) && Unbeaten(Edges(byName), order)
    requires ReadyAfter(Edges(byName), Elements(order)) == {}
    requires |found| == |order| && forall i :: 0 <= i < |order| ==> order[i] in byName && found[i] == byName[order[i]]
    ensures IsAnswer(views, if |found| != |views| then DependencyCycle else Sorted(found))
  {
    var g := Edges(byName);
    assert g.Keys == byName.Keys;
    assert |g| == |g.Keys| && |byName| == |byName.Keys|;
    if |found| != |views| {
      StuckMeansCyclic(g, order);
    } else {
      CompleteMeansLeast(g, order);
      LookupIsPermutation(views, byName, order, found);
    }
  }

  // ---------------------------------------------------------------- the answer depends on the set of views only

  lemma GraphIgnoresInputOrder(a: seq<View>, b: seq<View>)
    requires multiset(a) == multiset(b)
    ensures GraphOf(a) == GraphOf(b)
    ensures Duplicated(a) ==> Duplicated(b)
  {
    forall v ensures v in a <==> v in b {
      assert v in a <==> v in multiset(a);
      assert v in b <==> v in multiset(b);
    }
    assert NameSet(a) == NameSet(b);
    forall n | n in NameSet(a) ensures DependenciesOf(a, n) == DependenciesOf(b, n) {
    }
    if Duplicated(a) && !Duplicated(b) {
      var i, j :| 0 <= i < j < |a| && Lower(a[i].name) == Lower(a[j].name);
      OneViewPerName(b, a[i], a[j]);
      assert Unique(b);
      TwiceInMultiset(a, i, j);
      UniqueMultiset(b, a[i]);
    }
  }

  lemma TwiceInMultiset<T>(s: seq<T>, i: nat, j: nat)
    requires i < j < |s| && s[i] == s[j]
    ensures multiset(s)[s[i]] >= 2
  {
    assert s == s[..j] + s[j..];
    assert s[i] in s[..j] && s[i] in s[j..];
    assert multiset(s) == multiset(s[..j]) + multiset(s[j..]);
  }

  /** The routine's answer does not depend on the order in which the views are listed. */
  lemma AnswerIgnoresInputOrder(a: seq<View>, b: seq<View>, r: Ordered, s: Ordered)
    requires multiset(a) == multiset(b) && IsAnswer(a, r) && IsAnswer(b, s)
    ensures r == s
  {
    GraphIgnoresInputOrder(a, b);
    GraphIgnoresInputOrder(b, a);
    var g := GraphOf(a);
    if r.Sorted? {
      OrderedGraphHasNoCycle(g, Names(r.views));
    }
    if s.Sorted? {
      OrderedGraphHasNoCycle(g, Names(s.views));
    }
    if r.Sorted? && s.Sorted? {
      if Names(r.views) != Names(s.views) {
        assert Precedes(Names(r.views), Names(s.views)) && Precedes(Names(s.views), Names(r.views));
        PrecedesIsAntisymmetric(Names(r.views), Names(s.views));
      }
      SameNamesSameViews(a, r.views, s.views);
    }
  }

  lemma SameNamesSameViews(views: seq<View>, r: seq<View>, s: seq<View>)
    requires !Duplicated(views) && multiset(r) == multiset(s) == multiset(views) && Names(r) == Names(s)
    ensures r == s
  {
    assert |r| == |Names(r)| == |Names(s)| == |s|;
    forall i | 0 <= i < |r| ensures r[i] == s[i] {
      assert r[i] in multiset(r) && s[i] in multiset(s);
      assert Names(r)[i] == Names(s)[i];
      OneViewPerName(views, r[i], s[i]);
    }
  }

  /** The routine answers with an order exactly when names are distinct and the graph has no cycle. */
  lemma SucceedsExactlyWhenAcyclic(views: seq<View>, r: Ordered)
    requires IsAnswer(views, r)
    ensures r.Sorted? <==> !Duplicated(views) && !Cyclic(GraphOf(views))
    ensures r.DependencyCycle? <==> !Duplicated(views) && Cyclic(GraphOf(views))
  {
    if r.Sorted? {
      OrderedGraphHasNoCycle(GraphOf(views), Names(r.views));
    }
  }
}
