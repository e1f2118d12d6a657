/** Compose start ordering: Kahn's algorithm in batches over the `depends_on` multigraph. */
module ServiceGraph {
  import opened Wrappers

  /** The dependencies of a service in file order; the flag says whether an unknown one is an error. */
  datatype Dependency = Dependency(service: string, required: bool)

  type Compose = map<string, seq<Dependency>>

  datatype GraphError = UnknownService | CyclicDependencies

  // ----- the dependency graph over known services -----

  /** `n` depends on `d`, and both are known. */
  predicate DependsOn(compose: Compose, n: string, d: string) {
    n in compose && d in compose && exists i :: 0 <= i < |compose[n]| && compose[n][i].service == d
  }

  /** Some required dependency names no service. */
  predicate HasUnknown(compose: Compose) {
    exists n ::
      n in compose && exists i :: 0 <= i < |compose[n]| && compose[n][i].service !in compose && compose[n][i].required
  }

  /** A dependency chain: each service depends on the one before it. */
  predicate Chain(compose: Compose, p: seq<string>) {
    && p != [] && p[0] in compose
    && forall i :: 0 <= i < |p| - 1 ==> DependsOn(compose, p[i + 1], p[i])
  }

  ghost predicate ChainTo(compose: Compose, p: seq<string>, n: string) {
    Chain(compose, p) && p[|p| - 1] == n
  }

  /** A cycle: a chain of at least two places that comes back to where it began. */
  ghost predicate HasCycle(compose: Compose) {
    exists p :: Chain(compose, p) && |p| >= 2 && p[0] == p[|p| - 1]
  }

  /** `k` is the length of the longest dependency chain that ends in `n`. */
  ghost predicate IsLevel(compose: Compose, n: string, k: nat) {
    (exists p :: ChainTo(compose, p, n) && |p| == k) && forall p :: ChainTo(compose, p, n) ==> |p| <= k
  }

  /** No chain ending in `n` is longer than `k`. */
  predicate Within(compose: Compose, n: string, k: nat)
    decreases k
  {
    k > 0 && forall d :: d in compose && DependsOn(compose, n, d) ==> Within(compose, d, k - 1)
  }

  lemma ChainElements(compose: Compose, p: seq<string>, i: nat)
    requires Chain(compose, p) && i < |p|
    ensures p[i] in compose
  {
    if i > 0 {
      assert DependsOn(compose, p[i - 1 + 1], p[i - 1]);
    }
  }

  lemma ChainExtends(compose: Compose, p: seq<string>, n: string)
    requires Chain(compose, p) && DependsOn(compose, n, p[|p| - 1])
    ensures ChainTo(compose, p + [n], n)
  {
    var q := p + [n];
    forall i | 0 <= i < |q| - 1
      ensures DependsOn(compose, q[i + 1], q[i])
    {
      if i < |p| - 1 {
        assert DependsOn(compose, p[i + 1], p[i]);
      }
    }
  }

  lemma ChainShrinks(compose: Compose, p: seq<string>)
    requires Chain(compose, p) && |p| >= 2
    ensures ChainTo(compose, p[..|p| - 1], p[|p| - 2]) && DependsOn(compose, p[|p| - 1], p[|p| - 2])
  {
    assert DependsOn(compose, p[|p| - 2 + 1], p[|p| - 2]);
    var q := p[..|p| - 1];
    forall i | 0 <= i < |q| - 1
      ensures DependsOn(compose, q[i + 1], q[i])
    {
      assert DependsOn(compose, p[i + 1], p[i]);
    }
  }

  lemma {:induction false} WithinBoundsChains(compose: Compose, n: string, k: nat, p: seq<string>)
    requires Within(compose, n, k) && ChainTo(compose, p, n)
    ensures |p| <= k
    decreases k
  {
    if |p| >= 2 {
      ChainShrinks(compose, p);
      ChainElements(compose, p, |p| - 2);
      WithinBoundsChains(compose, p[|p| - 2], k - 1, p[..|p| - 1]);
    }
  }

  /** A service that is not within `k` ends a chain of `k + 1`. */
  lemma {:induction false} LongChain(compose: Compose, n: string, k: nat) returns (p: seq<string>)
    requires n in compose && !Within(compose, n, k)
    ensures ChainTo(compose, p, n) && |p| == k + 1
    decreases k
  {
    if k == 0 {
      p := [n];
    } else {
      var d :| d in compose && DependsOn(compose, n, d) && !Within(compose, d, k - 1);
      p := LongChain(compose, d, k - 1);
      ChainExtends(compose, p, n);
      p := p + [n];
    }
  }

  lemma {:induction false} WithinGrows(compose: Compose, n: string, k: nat)
    requires Within(compose, n, k)
    ensures Within(compose, n, k + 1)
    decreases k
  {
    forall d | d in compose && DependsOn(compose, n, d)
      ensures Within(compose, d, k)
    {
      WithinGrows(compose, d, k - 1);
    }
  }

  /** Being within `k + 1` but not within `k` is having a longest chain of exactly `k + 1`. */
  lemma LevelIsExact(compose: Compose, n: string, k: nat)
    requires n in compose
    ensures IsLevel(compose, n, k + 1) <==> Within(compose, n, k + 1) && !Within(compose, n, k)
  {
    if Within(compose, n, k + 1) && !Within(compose, n, k) {
      var p := LongChain(compose, n, k);
      forall q | ChainTo(compose, q, n)
        ensures |q| <= k + 1
      {
        WithinBoundsChains(compose, n, k + 1, q);
      }
    }
    if IsLevel(compose, n, k + 1) {
      if Within(compose, n, k) {
        var p :| ChainTo(compose, p, n) && |p| == k + 1;
        WithinBoundsChains(compose, n, k, p);
      }
      if !Within(compose, n, k + 1) {
        var p := LongChain(compose, n, k + 1);
      }
    }
  }

  // ----- cycles -----

  lemma {:induction false} CycleIsNeverWithin(compose: Compose, p: seq<string>, i: nat, k: nat)
    requires Chain(compose, p) && |p| >= 2 && p[0] == p[|p| - 1] && i < |p|
    ensures !Within(compose, p[i], k)
    decreases k
  {
    if k > 0 {
      var j := if i == 0 then |p| - 1 else i;
      assert DependsOn(compose, p[j - 1 + 1], p[j - 1]);
      ChainElements(compose, p, j - 1);
      CycleIsNeverWithin(compose, p, j - 1, k - 1);
    }
  }

  function Elements(p: seq<string>): set<string> {
    set n | n in p
  }

  predicate NoRepeats(p: seq<string>) {
    forall i, j :: 0 <= i < j < |p| ==> p[i] != p[j]
  }

  lemma {:induction false} ElementsCount(p: seq<string>)
    ensures NoRepeats(p) ==> |Elements(p)| == |p|
  {
    if p != [] {
      var n := |p| - 1;
      ElementsCount(p[..n]);
      assert p == p[..n] + [p[n]];
      assert Elements(p) == Elements(p[..n]) + {p[n]};
      if NoRepeats(p) {
        assert p[n] !in Elements(p[..n]);
      }
    }
  }

  lemma SubsetSize<T>(small: set<T>, big: set<T>)
    requires small <= big
    ensures |small| <= |big|
  {
    assert big == small + (big - small);
  }

  /** Pigeonhole: a sequence longer than the set it draws from repeats an element. */
  lemma Repeats(p: seq<string>, from: set<string>) returns (i: nat, j: nat)
    requires |p| > |from| && forall x :: 0 <= x < |p| ==> p[x] in from
    ensures i < j < |p| && p[i] == p[j]
  {
    ElementsCount(p);
    SubsetSize(Elements(p), from);
    i, j :| i < j < |p| && p[i] == p[j];
  }

  lemma SubChain(compose: Compose, p: seq<string>, i: nat, j: nat)
    requires Chain(compose, p) && i < j <= |p|
    ensures Chain(compose, p[i..j])
  {
    var q := p[i..j];
    ChainElements(compose, p, i);
    forall x | 0 <= x < |q| - 1
      ensures DependsOn(compose, q[x + 1], q[x])
    {
      assert DependsOn(compose, p[i + x + 1], p[i + x]);
    }
  }

  /** A chain longer than the number of services visits some service twice, which closes a cycle. */
  lemma LongChainHasCycle(compose: Compose, p: seq<string>)
    requires Chain(compose, p) && |p| > |compose.Keys|
    ensures HasCycle(compose)
  {
    forall x | 0 <= x < |p|
      ensures p[x] in compose.Keys
    {
      ChainElements(compose, p, x);
    }
    var i, j := Repeats(p, compose.Keys);
    SubChain(compose, p, i, j + 1);
    var loop := p[i..j + 1];
    assert |loop| >= 2 && loop[0] == loop[|loop| - 1];
  }

  /** No service is within `k + 1` that was not within `k` already. */
  ghost predicate Closed(compose: Compose, k: nat) {
    forall n {:trigger Known(compose, n)} :: Known(compose, n) && Within(compose, n, k + 1) ==> Within(compose, n, k)
  }

  predicate Known(compose: Compose, n: string) {
    n in compose
  }

  lemma ClosedStays(compose: Compose, k: nat)
    requires Closed(compose, k)
    ensures Closed(compose, k + 1)
  {
    forall n | Known(compose, n) && Within(compose, n, k + 2)
      ensures Within(compose, n, k + 1)
    {
      forall d | d in compose && DependsOn(compose, n, d)
        ensures Within(compose, d, k)
      {
        assert Known(compose, d) && Within(compose, d, k + 1);
      }
    }
  }

  lemma {:induction false} StuckForever(compose: Compose, n: string, k: nat, more: nat)
    requires Closed(compose, k) && n in compose && !Within(compose, n, k)
    ensures !Within(compose, n, k + more)
    decreases more
  {
    if more > 0 {
      ClosedStays(compose, k);
      assert Known(compose, n);
      StuckForever(compose, n, k + 1, more - 1);
    }
  }

  /** When no service becomes reachable at the next level, the ones left over lie behind a cycle. */
  lemma StuckIffCycle(compose: Compose, k: nat)
    requires Closed(compose, k)
    ensures (exists n :: n in compose && !Within(compose, n, k)) <==> HasCycle(compose)
  {
    if HasCycle(compose) {
      var p :| Chain(compose, p) && |p| >= 2 && p[0] == p[|p| - 1];
      CycleIsNeverWithin(compose, p, 0, k);
    }
    if n :| n in compose && !Within(compose, n, k) {
      StuckForever(compose, n, k, |compose.Keys|);
      var p := LongChain(compose, n, k + |compose.Keys|);
      LongChainHasCycle(compose, p);
    }
  }

  // ----- counting edges -----

  /** How often `d` is listed. */
  function Listed(deps: seq<Dependency>, d: string): nat {
    if deps == [] then 0 else
      Listed(deps[..|deps| - 1], d) + (if deps[|deps| - 1].service == d then 1 else 0)
  }

  /** How many listed dependencies are known and not yet done, repeats included. */
  function Open(deps: seq<Dependency>, known: set<string>, done: set<string>): nat {
    if deps == [] then 0 else
      var d := deps[|deps| - 1].service;
      Open(deps[..|deps| - 1], known, done) + (if d in known && d !in done then 1 else 0)
  }

  lemma {:induction false} OpenAfter(deps: seq<Dependency>, known: set<string>, done: set<string>, d: string)
    requires d in known && d !in done
    ensures Open(deps, known, done + {d}) + Listed(deps, d) == Open(deps, known, done)
  {
    if deps != [] {
      OpenAfter(deps[..|deps| - 1], known, done, d);
    }
  }

  lemma {:induction false} OpenZero(deps: seq<Dependency>, known: set<string>, done: set<string>)
    ensures Open(deps, known, done) == 0 <==>
            forall i :: 0 <= i < |deps| && deps[i].service in known ==> deps[i].service in done
  {
    if deps != [] {
      var n := |deps| - 1;
      OpenZero(deps[..n], known, done);
      assert forall i :: 0 <= i < n ==> deps[..n][i] == deps[i];
    }
  }

  /** The services with nothing open. */
  function Ready(compose: Compose, done: set<string>): set<string> {
    set n | n in compose && Open(compose[n], compose.Keys, done) == 0
  }

  function WithinSet(compose: Compose, k: nat): set<string> {
    set n | n in compose && Within(compose, n, k)
  }

  /** Once everything within `k` is done, exactly the services within `k + 1` are ready. */
  lemma ReadyIsWithin(compose: Compose, k: nat)
    ensures Ready(compose, WithinSet(compose, k)) == WithinSet(compose, k + 1)
  {
    var done := WithinSet(compose, k);
    forall n | n in compose
      ensures n in Ready(compose, done) <==> Within(compose, n, k + 1)
    {
      OpenZero(compose[n], compose.Keys, done);
      if n in Ready(compose, done) {
        forall d | d in compose && DependsOn(compose, n, d)
          ensures Within(compose, d, k)
        {
          var i :| 0 <= i < |compose[n]| && compose[n][i].service == d;
        }
      }
      if Within(compose, n, k + 1) {
        forall i | 0 <= i < |compose[n]| && compose[n][i].service in compose.Keys
          ensures compose[n][i].service in done
        {
          assert DependsOn(compose, n, compose[n][i].service);
        }
      }
    }
  }

  // ----- building the graph -----

  type Edges = map<string, seq<string>>

  /** How often `n` is listed as a child of `d`. */
  function Multiplicity(edges: Edges, d: string, n: string): nat {
    if d in edges then multiset(edges[d])[n] else 0
  }

  /** `indegree` and `edges` describe the dependencies of every service outside `todo`. */
  ghost predicate GraphOf(compose: Compose, indegree: map<string, nat>, edges: Edges, todo: set<string>) {
    && indegree.Keys == compose.Keys
    && (forall n :: n in compose ==> indegree[n] == if n in todo then 0 else Open(compose[n], compose.Keys, {}))
    && (forall d, n :: d in compose && n in compose ==>
          Multiplicity(edges, d, n) == if n in todo then 0 else Listed(compose[n], d))
    && (forall d :: d in edges ==> forall i :: 0 <= i < |edges[d]| ==> edges[d][i] in compose)
  }

  /** The inner loop of graph construction: one service's dependency list. */
  method AddDependencies(compose: Compose, name: string, indegree: map<string, nat>, edges: Edges)
    returns (ok: bool, indegree': map<string, nat>, edges': Edges)
    requires name in compose && name in indegree
    requires forall d :: d in edges ==> forall i :: 0 <= i < |edges[d]| ==> edges[d][i] in compose
    ensures ok <==>
            forall i :: 0 <= i < |compose[name]| ==> compose[name][i].service in compose || !compose[name][i].required
    ensures ok ==> indegree' == indegree[name := indegree[name] + Open(compose[name], compose.Keys, {})]
    ensures ok ==> EdgesAdded(compose, edges, edges', name, compose[name])
  {
    var deps := compose[name];
    indegree', edges' := indegree, edges;
    assert deps[..0] == [] && forall d :: Listed(deps[..0], d) == 0;
    for i := 0 to |deps|
      invariant forall j :: 0 <= j < i ==> deps[j].service in compose || !deps[j].required
      invariant indegree' == indegree[name := indegree[name] + Open(deps[..i], compose.Keys, {})]
      invariant EdgesAdded(compose, edges, edges', name, deps[..i])
    {
      assert deps[..i + 1] == deps[..i] + [deps[i]];
      if deps[i].service in compose {
        AddOne(compose, edges, edges', name, deps[..i], deps[i]);
        edges' := WithEdge(edges', deps[i].service, name);
        indegree' := indegree'[name := indegree'[name] + 1];
      } else if deps[i].required {
        return false, indegree', edges';
      } else {
        AddNone(compose, edges, edges', name, deps[..i], deps[i]);
      }
    }
    assert deps[..|deps|] == deps;
    ok := true;
  }

  function WithEdge(edges: Edges, d: string, n: string): Edges {
    edges[d := (if d in edges then edges[d] else []) + [n]]
  }

  /** `after` is `before` with one edge to `name` for every known dependency listed. */
  ghost predicate EdgesAdded(compose: Compose, before: Edges, after: Edges, name: string, deps: seq<Dependency>) {
    && (forall d, n {:trigger Multiplicity(after, d, n)} :: d in compose ==>
          Multiplicity(after, d, n) == Multiplicity(before, d, n) + if n == name then Listed(deps, d) else 0)
    && (forall d :: d in after ==> forall i :: 0 <= i < |after[d]| ==> after[d][i] in compose)
  }

  lemma AddOne(compose: Compose, before: Edges, after: Edges, name: string, deps: seq<Dependency>, dep: Dependency)
    requires EdgesAdded(compose, before, after, name, deps) && dep.service in compose && name in compose
    ensures EdgesAdded(compose, before, WithEdge(after, dep.service, name), name, deps + [dep])
    ensures Open(deps + [dep], compose.Keys, {}) == Open(deps, compose.Keys, {}) + 1
  {
    assert (deps + [dep])[..|deps|] == deps;
    var more := WithEdge(after, dep.service, name);
    forall d, n | d in compose
      ensures Multiplicity(more, d, n) == Multiplicity(before, d, n) + if n == name then Listed(deps + [dep], d) else 0
    {
      assert Multiplicity(more, d, n) == Multiplicity(after, d, n) + if d == dep.service && n == name then 1 else 0;
    }
  }

  lemma AddNone(compose: Compose, before: Edges, after: Edges, name: string, deps: seq<Dependency>, dep: Dependency)
    requires EdgesAdded(compose, before, after, name, deps) && dep.service !in compose
    ensures EdgesAdded(compose, before, after, name, deps + [dep])
    ensures Open(deps + [dep], compose.Keys, {}) == Open(deps, compose.Keys, {})
  {
    assert (deps + [dep])[..|deps|] == deps;
    assert forall d :: d in compose ==> Listed(deps + [dep], d) == Listed(deps, d);
  }

  /** Both construction loops; the services come in whatever order the map yields. */
  method BuildGraph(compose: Compose) returns (r: Result<(map<string, nat>, Edges), GraphError>)
    ensures r.Err? <==> HasUnknown(compose)
    ensures r.Err? ==> r.error == UnknownService
    ensures r.Ok? ==> GraphOf(compose, r.value.0, r.value.1, {})
  {
    var indegree: map<string, nat> := map n | n in compose :: 0;
    var edges: Edges := map[];
    var todo := compose.Keys;
    while todo != {}
      invariant todo <= compose.Keys
      invariant GraphOf(compose, indegree, edges, todo)
      invariant forall n ::
                  n in compose && n !in todo ==>
                    forall i :: 0 <= i < |compose[n]| ==> compose[n][i].service in compose || !compose[n][i].required
      decreases todo
    {
      var name :| name in todo;
      var ok, indegree', edges' := AddDependencies(compose, name, indegree, edges);
      if !ok {
        return Err(UnknownService);
      }
      indegree, edges, todo := indegree', edges', todo - {name};
    }
    return Ok((indegree, edges));
  }

  // ----- Kahn's algorithm -----

  /** The innermost loop: every child loses one open dependency and is queued when the last one goes. */
  method Relax(children: seq<string>, indegree: map<string, nat>)
    returns (indegree': map<string, nat>, freed: seq<string>)
    requires forall n :: n in children ==> n in indegree && multiset(children)[n] <= indegree[n]
    ensures indegree'.Keys == indegree.Keys
    ensures forall n :: n in indegree ==> indegree'[n] + multiset(children)[n] == indegree[n]
    ensures NoRepeats(freed) && forall n :: n in freed <==> n in indegree && indegree[n] > 0 && indegree'[n] == 0
  {
    indegree', freed := indegree, [];
    for i := 0 to |children|
      invariant indegree'.Keys == indegree.Keys
      invariant forall n :: n in indegree ==> indegree'[n] + multiset(children[..i])[n] == indegree[n]
      invariant NoRepeats(freed) && forall n :: n in freed <==> n in indegree && indegree[n] > 0 && indegree'[n] == 0
    {
      var child := children[i];
      PrefixCounts(children, i);
      if child in indegree' {
        var count := if indegree'[child] == 0 then 0 else indegree'[child] - 1;
        indegree' := indegree'[child := count];
        if count == 0 {
          freed := freed + [child];
        }
      }
    }
    assert children[..|children|] == children;
  }

  /** Up to and including place `i` an element occurs at most as often as in the whole list. */
  lemma PrefixCounts(s: seq<string>, i: nat)
    requires i < |s|
    ensures multiset(s[..i + 1]) == multiset(s[..i]) + multiset{s[i]}
    ensures multiset(s[..i])[s[i]] < multiset(s)[s[i]]
  {
    assert s[..i + 1] == s[..i] + [s[i]];
    assert s == s[..i + 1] + s[i + 1..];
  }

  /** Every count is the number of open dependencies after `done`. */
  ghost predicate Counts(compose: Compose, indegree: map<string, nat>, done: set<string>) {
    indegree.Keys == compose.Keys && forall n :: n in compose ==> indegree[n] == Open(compose[n], compose.Keys, done)
  }

  /** Taking one node off the queue: its children's counts move on from `done` to `done + {node}`. */
  method Complete(compose: Compose, edges: Edges, node: string, indegree: map<string, nat>, ghost done: set<string>)
    returns (indegree': map<string, nat>, freed: seq<string>)
    requires GraphEdges(compose, edges) && Counts(compose, indegree, done)
    requires node in compose && node !in done
    ensures Counts(compose, indegree', done + {node})
    ensures Woken(compose, done, done + {node}, freed)
  {
    forall n | n in compose
      ensures Open(compose[n], compose.Keys, done + {node}) + Listed(compose[n], node) ==
              Open(compose[n], compose.Keys, done)
    {
      OpenAfter(compose[n], compose.Keys, done, node);
    }
    if node in edges {
      forall n | n in edges[node]
        ensures n in indegree && multiset(edges[node])[n] <= indegree[n]
      {
        assert Multiplicity(edges, node, n) == Listed(compose[n], node);
      }
      indegree', freed := Relax(edges[node], indegree);
    } else {
      indegree', freed := indegree, [];
    }
    forall n | n in compose
      ensures indegree'[n] + Listed(compose[n], node) == indegree[n]
    {
      assert Multiplicity(edges, node, n) == Listed(compose[n], node);
    }
  }

  ghost predicate GraphEdges(compose: Compose, edges: Edges) {
    && (forall d, n :: d in compose && n in compose ==> Multiplicity(edges, d, n) == Listed(compose[n], d))
    && (forall d :: d in edges ==> forall i :: 0 <= i < |edges[d]| ==> edges[d][i] in compose)
  }

  /** `woken` lists, once each, the services ready after `now` that were not ready after `done`. */
  ghost predicate Woken(compose: Compose, done: set<string>, now: set<string>, woken: seq<string>) {
    NoRepeats(woken) && forall n :: n in woken <==> n in Ready(compose, now) && n !in Ready(compose, done)
  }

  lemma WokenGrows(compose: Compose, done: set<string>, now: set<string>, next: set<string>, woken: seq<string>,
                   freed: seq<string>)
    requires done <= now <= next && Woken(compose, done, now, woken) && Woken(compose, now, next, freed)
    ensures Woken(compose, done, next, woken + freed)
  {
    ReadyGrows(compose, done, now);
    ReadyGrows(compose, now, next);
    var all := woken + freed;
    forall i, j | 0 <= i < j < |all|
      ensures all[i] != all[j]
    {
      if i < |woken| <= j {
        assert woken[i] in woken && freed[j - |woken|] in freed;
      }
    }
  }

  lemma NextInLine(compose: Compose, start: seq<string>, indegree: map<string, nat>, done: set<string>, i: nat)
    requires Entering(compose, start, indegree, done) && i < |start|
    ensures start[i] in compose && start[i] !in done + Elements(start[..i])
    ensures done + Elements(start[..i + 1]) == done + Elements(start[..i]) + {start[i]}
  {
    assert EnteringAt(compose, start, indegree, done);
    assert start[i] in Elements(start);
    assert start[..i + 1] == start[..i] + [start[i]];
  }

  /** Before a batch, with `done` done: the counts are current and `start` lists, once each, what is ready. */
  ghost predicate EnteringAt(compose: Compose, start: seq<string>, indegree: map<string, nat>, done: set<string>) {
    && Counts(compose, indegree, done) && done <= Ready(compose, done)
    && NoRepeats(start) && Elements(start) == Ready(compose, done) - done
  }

  ghost predicate Entering(compose: Compose, start: seq<string>, indegree: map<string, nat>, done: set<string>) {
    forall at {:trigger EnteringAt(compose, start, indegree, at)} :: at == done ==>
      EnteringAt(compose, start, indegree, at)
  }

  /** After a batch: the counts have moved on to everything that was ready, and `queue` lists what woke up. */
  ghost predicate LeftAt(compose: Compose, queue: seq<string>, indegree: map<string, nat>, done: set<string>) {
    Counts(compose, indegree, Ready(compose, done)) && Woken(compose, done, Ready(compose, done), queue)
  }

  ghost predicate Left(compose: Compose, queue: seq<string>, indegree: map<string, nat>, done: set<string>) {
    forall at {:trigger LeftAt(compose, queue, indegree, at)} :: at == done ==> LeftAt(compose, queue, indegree, at)
  }

  /** One batch: exactly the nodes queued at its start, leaving in the queue what became ready meanwhile. */
  method RunBatch(compose: Compose, edges: Edges, start: seq<string>, indegree: map<string, nat>,
                  ghost done: set<string>)
    returns (batch: seq<string>, queue: seq<string>, indegree': map<string, nat>)
    requires GraphEdges(compose, edges) && Entering(compose, start, indegree, done)
    ensures batch == start && Left(compose, queue, indegree', done)
  {
    batch, queue, indegree' := [], start, indegree;
    ghost var now: set<string> := done;
    ghost var woken: seq<string> := [];
    EnterBatch(compose, start, indegree, done);
    for i := 0 to |start|
      invariant batch == start[..i] && queue == start[i..] + woken
      invariant now == done + Elements(start[..i]) && Underway(compose, indegree', done, now, woken)
    {
      NextInLine(compose, start, indegree, done, i);
      QueueMoves(start, i, woken);
      var node := queue[0];
      var freed;
      indegree', freed := CompleteNext(compose, edges, node, indegree', done, now, woken);
      batch, queue := batch + [node], queue[1..] + freed;
      now, woken := now + {node}, woken + freed;
    }
    assert start[..|start|] == start && queue == woken;
    LeaveBatch(compose, start, indegree, done, woken, indegree');
  }

  lemma EnterBatch(compose: Compose, start: seq<string>, indegree: map<string, nat>, done: set<string>)
    requires Entering(compose, start, indegree, done)
    ensures done + Elements(start[..0]) == done && Underway(compose, indegree, done, done, [])
  {
    assert EnteringAt(compose, start, indegree, done);
  }

  lemma LeaveBatch(compose: Compose, start: seq<string>, indegree: map<string, nat>, done: set<string>,
                   woken: seq<string>, indegree': map<string, nat>)
    requires Entering(compose, start, indegree, done)
             && Underway(compose, indegree', done, done + Elements(start), woken)
    ensures Left(compose, woken, indegree', done)
  {
    assert EnteringAt(compose, start, indegree, done);
    assert UnderwayAt(compose, indegree', done, done + Elements(start), woken);
    assert done + Elements(start) == Ready(compose, done);
  }

  /** Inside a batch, with `now` done so far: the counts are current and `woken` is what became ready. */
  ghost predicate UnderwayAt(compose: Compose, indegree: map<string, nat>, done: set<string>, now: set<string>,
                             woken: seq<string>) {
    done <= now && Counts(compose, indegree, now) && Woken(compose, done, now, woken)
  }

  ghost predicate Underway(compose: Compose, indegree: map<string, nat>, done: set<string>, now: set<string>,
                           woken: seq<string>) {
    forall at {:trigger UnderwayAt(compose, indegree, done, at, woken)} :: at == now ==>
      UnderwayAt(compose, indegree, done, at, woken)
  }

  lemma QueueMoves(start: seq<string>, i: nat, woken: seq<string>)
    requires i < |start|
    ensures var queue := start[i..] + woken;
            queue[0] == start[i] && (forall freed :: queue[1..] + freed == start[i + 1..] + (woken + freed))
  {
    var queue := start[i..] + woken;
    assert queue[1..] == start[i + 1..] + woken;
  }

  method CompleteNext(compose: Compose, edges: Edges, node: string, indegree: map<string, nat>,
                      ghost done: set<string>, ghost now: set<string>, ghost woken: seq<string>)
    returns (indegree': map<string, nat>, freed: seq<string>)
    requires GraphEdges(compose, edges) && Underway(compose, indegree, done, now, woken)
    requires node in compose && node !in now
    ensures Underway(compose, indegree', done, now + {node}, woken + freed)
  {
    assert UnderwayAt(compose, indegree, done, now, woken);
    indegree', freed := Complete(compose, edges, node, indegree, now);
    WokenGrows(compose, done, now, now + {node}, woken, freed);
  }

  lemma ReadyGrows(compose: Compose, done: set<string>, more: set<string>)
    requires done <= more
    ensures Ready(compose, done) <= Ready(compose, more)
  {
    forall n | n in Ready(compose, done)
      ensures n in Ready(compose, more)
    {
      OpenZero(compose[n], compose.Keys, done);
      OpenZero(compose[n], compose.Keys, more);
    }
  }

  /** The services that depend on nothing known, in whatever order the map yields. */
  method InitialQueue(compose: Compose, indegree: map<string, nat>) returns (queue: seq<string>)
    requires Counts(compose, indegree, {})
    ensures NoRepeats(queue) && Elements(queue) == Ready(compose, {})
  {
    queue := [];
    var todo := set n | n in indegree && indegree[n] == 0;
    assert todo == Ready(compose, {});
    while todo != {}
      invariant todo <= Ready(compose, {}) && NoRepeats(queue)
      invariant Elements(queue) == Ready(compose, {}) - todo
      decreases todo
    {
      var n :| n in todo;
      assert n !in Elements(queue);
      var longer := queue + [n];
      assert Elements(longer) == Elements(queue) + {n};
      queue, todo := longer, todo - {n};
    }
  }

  /** `batch` lists, once each, the services within `k + 1` but not within `k`. */
  ghost predicate IsBatch(compose: Compose, batch: seq<string>, k: nat) {
    && batch != [] && NoRepeats(batch)
    && forall n {:trigger n in batch} ::
         n in batch <==> n in compose && Within(compose, n, k + 1) && !Within(compose, n, k)
  }

  ghost predicate BatchesUpTo(compose: Compose, order: seq<seq<string>>) {
    forall k {:trigger IsBatch(compose, order[k], k)} :: 0 <= k < |order| ==> IsBatch(compose, order[k], k)
  }

  lemma BatchesGrow(compose: Compose, order: seq<seq<string>>, batch: seq<string>)
    requires BatchesUpTo(compose, order) && IsBatch(compose, batch, |order|)
    ensures BatchesUpTo(compose, order + [batch])
  {
    var longer := order + [batch];
    forall k | 0 <= k < |longer|
      ensures IsBatch(compose, longer[k], k)
    {
      if k < |order| {
        assert IsBatch(compose, order[k], k);
      }
    }
  }

  /** Levels without reference to the algorithm: every service is in the batch of its longest chain, and in no other. */
  ghost predicate BatchedByLevel(compose: Compose, order: seq<seq<string>>) {
    && (forall k :: 0 <= k < |order| ==> order[k] != [] && NoRepeats(order[k]))
    && (forall k, n :: 0 <= k < |order| ==> (n in order[k] <==> n in compose && IsLevel(compose, n, k + 1)))
    && (forall n :: n in compose ==> exists k :: 0 <= k < |order| && n in order[k])
  }

  lemma WithinSetGrows(compose: Compose, k: nat)
    ensures WithinSet(compose, k) <= WithinSet(compose, k + 1)
  {
    forall n | n in WithinSet(compose, k)
      ensures Within(compose, n, k + 1)
    {
      WithinGrows(compose, n, k);
    }
  }

  /** When the queue runs dry, services are missing exactly when there is a cycle. */
  lemma Finished(compose: Compose, k: nat)
    requires WithinSet(compose, k + 1) <= WithinSet(compose, k)
    ensures |WithinSet(compose, k)| == |compose.Keys| <==> !HasCycle(compose)
    ensures !HasCycle(compose) ==> WithinSet(compose, k) == compose.Keys
  {
    var done := WithinSet(compose, k);
    forall n | Known(compose, n) && Within(compose, n, k + 1)
      ensures Within(compose, n, k)
    {
      assert n in WithinSet(compose, k + 1);
    }
    StuckIffCycle(compose, k);
    var missing := compose.Keys - done;
    assert compose.Keys == done + missing;
    if n :| n in compose && !Within(compose, n, k) {
      assert n in missing;
    }
  }

  lemma {:induction false} LevelExists(compose: Compose, n: string, k: nat) returns (j: nat)
    requires Within(compose, n, k)
    ensures j < k && Within(compose, n, j + 1) && !Within(compose, n, j)
    decreases k
  {
    if Within(compose, n, k - 1) {
      j := LevelExists(compose, n, k - 1);
    } else {
      j := k - 1;
    }
  }

  lemma AllBatched(compose: Compose, order: seq<seq<string>>)
    requires BatchesUpTo(compose, order) && WithinSet(compose, |order|) == compose.Keys
    ensures BatchedByLevel(compose, order)
  {
    forall k | 0 <= k < |order|
      ensures order[k] != [] && NoRepeats(order[k])
    {
      assert IsBatch(compose, order[k], k);
    }
    forall k, n | 0 <= k < |order|
      ensures n in order[k] <==> n in compose && IsLevel(compose, n, k + 1)
    {
      assert IsBatch(compose, order[k], k);
      if n in compose {
        LevelIsExact(compose, n, k);
      }
    }
    forall n | n in compose
      ensures exists k :: 0 <= k < |order| && n in order[k]
    {
      assert n in WithinSet(compose, |order|);
      var k := LevelExists(compose, n, |order|);
      assert IsBatch(compose, order[k], k);
      assert n in order[k];
    }
  }

  /** The errors are exact, and on success the batches are exactly the levels of the dependency graph. */
  method FromCompose(compose: Compose) returns (r: Result<seq<seq<string>>, GraphError>)
    ensures r == Err(UnknownService) <==> HasUnknown(compose)
    ensures r == Err(CyclicDependencies) <==> !HasUnknown(compose) && HasCycle(compose)
    ensures r.Ok? <==> !HasUnknown(compose) && !HasCycle(compose)
    ensures r.Ok? ==> BatchedByLevel(compose, r.value)
  {
    var built :- BuildGraph(compose);
    var order, processed := RunBatches(compose, built.1, built.0);
    Finished(compose, |order|);
    assert |built.0| == |built.0.Keys|;
    if processed != |built.0| {
      return Err(CyclicDependencies);
    }
    AllBatched(compose, order);
    return Ok(order);
  }

  /** The batch loop: it runs until no further service becomes ready. */
  method RunBatches(compose: Compose, edges: Edges, indegree0: map<string, nat>)
    returns (order: seq<seq<string>>, processed: nat)
    requires GraphEdges(compose, edges) && Counts(compose, indegree0, {})
    ensures BatchesUpTo(compose, order)
    ensures processed == |WithinSet(compose, |order|)|
    ensures WithinSet(compose, |order| + 1) <= WithinSet(compose, |order|)
  {
    var indegree := indegree0;
    var queue := InitialQueue(compose, indegree);
    order, processed := [], 0;
    FirstRound(compose, queue, indegree);
    while queue != []
      invariant processed <= |compose.Keys| && Progress(compose, order, queue, indegree, processed)
      decreases |compose.Keys| - processed
    {
      order, queue, indegree, processed := NextBatch(compose, edges, order, queue, indegree, processed);
    }
    LastRound(compose, order, queue, indegree, processed);
  }

  /** Between two batches: `order` holds the first `k` levels and `queue` the next one. */
  ghost predicate ProgressAt(compose: Compose, order: seq<seq<string>>, queue: seq<string>, indegree: map<string, nat>,
                             processed: nat, k: nat) {
    && BatchesUpTo(compose, order) && Waiting(compose, queue, k)
    && Counts(compose, indegree, WithinSet(compose, k)) && processed == |WithinSet(compose, k)|
  }

  ghost predicate Progress(compose: Compose, order: seq<seq<string>>, queue: seq<string>, indegree: map<string, nat>,
                           processed: nat) {
    forall k {:trigger ProgressAt(compose, order, queue, indegree, processed, k)} ::
      k == |order| ==> ProgressAt(compose, order, queue, indegree, processed, k)
  }

  /** One turn of the batch loop: the queued level is emptied into `order` and the next level is queued. */
  method NextBatch(compose: Compose, edges: Edges, order: seq<seq<string>>, queue: seq<string>,
                   indegree: map<string, nat>, processed: nat)
    returns (order': seq<seq<string>>, queue': seq<string>, indegree': map<string, nat>, processed': nat)
    requires GraphEdges(compose, edges) && queue != [] && Progress(compose, order, queue, indegree, processed)
    ensures Progress(compose, order', queue', indegree', processed')
    ensures processed < processed' <= |compose.Keys|
  {
    ghost var done := WithinSet(compose, |order|);
    StartBatch(compose, order, queue, indegree, processed);
    var batch;
    batch, queue', indegree' := RunBatch(compose, edges, queue, indegree, done);
    EndBatch(compose, order, queue, indegree, processed, queue', indegree');
    processed', order' := processed + |batch|, order + [batch];
  }

  lemma StartBatch(compose: Compose, order: seq<seq<string>>, queue: seq<string>, indegree: map<string, nat>,
                   processed: nat)
    requires Progress(compose, order, queue, indegree, processed)
    ensures Entering(compose, queue, indegree, WithinSet(compose, |order|))
  {
    assert ProgressAt(compose, order, queue, indegree, processed, |order|);
    Waits(compose, queue, |order|);
  }

  lemma EndBatch(compose: Compose, order: seq<seq<string>>, batch: seq<string>, indegree: map<string, nat>,
                 processed: nat,
                 queue: seq<string>, indegree': map<string, nat>)
    requires Progress(compose, order, batch, indegree, processed) && batch != []
    requires Left(compose, queue, indegree', WithinSet(compose, |order|))
    ensures Progress(compose, order + [batch], queue, indegree', processed + |batch|)
    ensures processed + |batch| <= |compose.Keys|
  {
    var k := |order|;
    assert ProgressAt(compose, order, batch, indegree, processed, k);
    assert LeftAt(compose, queue, indegree', WithinSet(compose, k));
    NextRound(compose, batch, queue, k);
    BatchesGrow(compose, order, batch);
    SubsetSize(WithinSet(compose, k + 1), compose.Keys);
  }

  /** The queue before batch `k` holds, once each, the services of that batch. */
  ghost predicate Waiting(compose: Compose, queue: seq<string>, k: nat) {
    NoRepeats(queue) && Elements(queue) == WithinSet(compose, k + 1) - WithinSet(compose, k)
  }

  lemma FirstRound(compose: Compose, queue: seq<string>, indegree: map<string, nat>)
    requires NoRepeats(queue) && Elements(queue) == Ready(compose, {}) && Counts(compose, indegree, {})
    ensures Progress(compose, [], queue, indegree, 0)
  {
    assert WithinSet(compose, 0) == {};
    ReadyIsWithin(compose, 0);
  }

  lemma LastRound(compose: Compose, order: seq<seq<string>>, queue: seq<string>, indegree: map<string, nat>,
                  processed: nat)
    requires Progress(compose, order, queue, indegree, processed) && queue == []
    ensures BatchesUpTo(compose, order) && processed == |WithinSet(compose, |order|)|
    ensures WithinSet(compose, |order| + 1) <= WithinSet(compose, |order|)
  {
    assert ProgressAt(compose, order, queue, indegree, processed, |order|);
    Waits(compose, queue, |order|);
  }

  lemma Waits(compose: Compose, queue: seq<string>, k: nat)
    requires Waiting(compose, queue, k)
    ensures Ready(compose, WithinSet(compose, k)) == WithinSet(compose, k + 1)
    ensures WithinSet(compose, k) <= WithinSet(compose, k + 1)
    ensures queue == [] ==> WithinSet(compose, k + 1) <= WithinSet(compose, k)
  {
    ReadyIsWithin(compose, k);
    WithinSetGrows(compose, k);
    forall n | queue == [] && n in WithinSet(compose, k + 1)
      ensures n in WithinSet(compose, k)
    {
      assert n !in Elements(queue);
    }
  }

  lemma NextRound(compose: Compose, batch: seq<string>, queue: seq<string>, k: nat)
    requires batch != [] && Waiting(compose, batch, k)
    requires Woken(compose, WithinSet(compose, k), Ready(compose, WithinSet(compose, k)), queue)
    ensures IsBatch(compose, batch, k) && Waiting(compose, queue, k + 1)
    ensures Ready(compose, WithinSet(compose, k)) == WithinSet(compose, k + 1)
    ensures |WithinSet(compose, k + 1)| == |WithinSet(compose, k)| + |batch|
  {
    Waits(compose, batch, k);
    ReadyIsWithin(compose, k + 1);
    ElementsCount(batch);
    assert WithinSet(compose, k + 1) == WithinSet(compose, k) + Elements(batch);
    forall n
      ensures n in batch <==> n in compose && Within(compose, n, k + 1) && !Within(compose, n, k)
    {
      assert n in batch <==> n in Elements(batch);
    }
  }

  // ----- the start and stop orders -----

  /** A service sits on a higher level than everything it depends on. */
  lemma LevelsRise(compose: Compose, n: string, a: nat, d: string, b: nat)
    requires DependsOn(compose, n, d) && IsLevel(compose, n, a) && IsLevel(compose, d, b)
    ensures b < a
  {
    var p :| ChainTo(compose, p, d) && |p| == b;
    ChainExtends(compose, p, n);
  }

  /** `level[i]` is the batch that place `i` of the flattened order came from. */
  ghost predicate Flattened(order: seq<seq<string>>, ordered: seq<string>, level: seq<nat>) {
    && |level| == |ordered|
    && (forall i :: 0 <= i < |ordered| ==> level[i] < |order| && ordered[i] in order[level[i]])
    && (forall i, j :: 0 <= i < j < |ordered| ==> level[i] <= level[j])
    && (forall i, j :: 0 <= i < j < |ordered| && level[i] == level[j] ==> ordered[i] != ordered[j])
  }

  /** Appending one service of the current batch keeps the flattening. */
  lemma FlattenGrows(order: seq<seq<string>>, ordered: seq<string>, level: seq<nat>, k: nat, n: string)
    requires Flattened(order, ordered, level) && k < |order| && n in order[k]
    requires forall i :: 0 <= i < |ordered| ==> level[i] < k || (level[i] == k && ordered[i] != n)
    ensures Flattened(order, ordered + [n], level + [k])
  {
  }

  /** The two nested loops that push every batch in turn. */
  method Flatten(order: seq<seq<string>>) returns (ordered: seq<string>, ghost level: seq<nat>)
    requires forall k :: 0 <= k < |order| ==> NoRepeats(order[k])
    ensures Flattened(order, ordered, level)
    ensures forall k, n :: 0 <= k < |order| && n in order[k] ==> n in ordered
  {
    ordered, level := [], [];
    for k := 0 to |order|
      invariant Flattened(order, ordered, level)
      invariant forall i :: 0 <= i < |ordered| ==> level[i] < k
      invariant forall b, n :: 0 <= b < k && n in order[b] ==> n in ordered
    {
      ghost var before := ordered;
      for i := 0 to |order[k]|
        invariant Flattened(order, ordered, level)
        invariant ordered == before + order[k][..i]
        invariant forall x :: 0 <= x < |before| ==> level[x] < k
        invariant forall x :: |before| <= x < |ordered| ==> level[x] == k
      {
        assert forall x :: |before| <= x < |ordered| ==> ordered[x] == order[k][x - |before|];
        FlattenGrows(order, ordered, level, k, order[k][i]);
        assert order[k][..i + 1] == order[k][..i] + [order[k][i]];
        ordered, level := ordered + [order[k][i]], level + [k];
      }
    }
  }

  /** Every service exactly once. */
  ghost predicate IsPermutation(compose: Compose, ordered: seq<string>) {
    NoRepeats(ordered) && Elements(ordered) == compose.Keys
  }

  /** Every place of the flattened order is on the level of its batch. */
  ghost predicate Leveled(compose: Compose, ordered: seq<string>, level: seq<nat>)
    requires |level| == |ordered|
  {
    forall i {:trigger ordered[i]} :: 0 <= i < |ordered| ==>
      ordered[i] in compose && IsLevel(compose, ordered[i], level[i] + 1)
  }

  lemma FlatOrderLeveled(compose: Compose, order: seq<seq<string>>, ordered: seq<string>, level: seq<nat>)
    requires BatchedByLevel(compose, order) && Flattened(order, ordered, level)
    ensures Leveled(compose, ordered, level)
  {
    forall i | 0 <= i < |ordered|
      ensures ordered[i] in compose && IsLevel(compose, ordered[i], level[i] + 1)
    {
      assert ordered[i] in order[level[i]];
    }
  }

  lemma FlatOrderDistinct(compose: Compose, order: seq<seq<string>>, ordered: seq<string>, level: seq<nat>)
    requires Flattened(order, ordered, level) && Leveled(compose, ordered, level)
    ensures NoRepeats(ordered)
  {
  }

  lemma FlatOrderIsTopological(compose: Compose, order: seq<seq<string>>, ordered: seq<string>, level: seq<nat>)
    requires Flattened(order, ordered, level) && Leveled(compose, ordered, level)
    ensures DependenciesFirst(compose, ordered)
  {
    forall i, j | 0 <= i < |ordered| && 0 <= j < |ordered| && DependsOn(compose, ordered[i], ordered[j])
      ensures j < i
    {
      LevelsRise(compose, ordered[i], level[i] + 1, ordered[j], level[j] + 1);
    }
  }

  lemma FlatOrderComplete(compose: Compose, order: seq<seq<string>>, ordered: seq<string>)
    requires forall n :: n in compose ==> exists k :: 0 <= k < |order| && n in order[k]
    requires forall k, n :: 0 <= k < |order| && n in order[k] ==> n in ordered
    requires forall i {:trigger ordered[i]} :: 0 <= i < |ordered| ==> ordered[i] in compose
    ensures Elements(ordered) == compose.Keys
  {
    forall n | n in compose
      ensures n in ordered
    {
      var k :| 0 <= k < |order| && n in order[k];
    }
  }

  /** Every dependency stands before its dependents. */
  predicate DependenciesFirst(compose: Compose, ordered: seq<string>) {
    forall i, j {:trigger DependsOn(compose, ordered[i], ordered[j])} ::
      0 <= i < |ordered| && 0 <= j < |ordered| && DependsOn(compose, ordered[i], ordered[j]) ==> j < i
  }

  /** Every dependency stands after its dependents. */
  predicate DependenciesLast(compose: Compose, ordered: seq<string>) {
    forall i, j {:trigger DependsOn(compose, ordered[i], ordered[j])} ::
      0 <= i < |ordered| && 0 <= j < |ordered| && DependsOn(compose, ordered[i], ordered[j]) ==> i < j
  }

  lemma FlatOrderCorrect(compose: Compose, order: seq<seq<string>>, ordered: seq<string>, level: seq<nat>)
    requires BatchedByLevel(compose, order) && Flattened(order, ordered, level)
    requires forall k, n :: 0 <= k < |order| && n in order[k] ==> n in ordered
    ensures IsPermutation(compose, ordered) && DependenciesFirst(compose, ordered)
  {
    FlatOrderLeveled(compose, order, ordered, level);
    FlatOrderDistinct(compose, order, ordered, level);
    FlatOrderComplete(compose, order, ordered);
    FlatOrderIsTopological(compose, order, ordered, level);
  }

  /** Dependencies start before the services that need them. */
  method ComposeUp(compose: Compose) returns (r: Result<seq<string>, GraphError>)
    ensures r.Ok? <==> !HasUnknown(compose) && !HasCycle(compose)
    ensures r.Ok? ==> IsPermutation(compose, r.value) && DependenciesFirst(compose, r.value)
  {
    var batches :- FromCompose(compose);
    var ordered, level := Flatten(batches);
    FlatOrderCorrect(compose, batches, ordered, level);
    return Ok(ordered);
  }

  /** Services stop before the dependencies they need. */
  method ComposeDown(compose: Compose) returns (r: Result<seq<string>, GraphError>)
    ensures r.Ok? <==> !HasUnknown(compose) && !HasCycle(compose)
    ensures r.Ok? ==> IsPermutation(compose, r.value) && DependenciesLast(compose, r.value)
  {
    var up :- ComposeUp(compose);
    ReversalCorrect(compose, up);
    return Ok(Reversed(up));
  }

  function Reversed(s: seq<string>): (t: seq<string>)
    ensures |t| == |s| && forall i :: 0 <= i < |s| ==> t[i] == s[|s| - 1 - i]
  {
    if s == [] then [] else Reversed(s[1..]) + [s[0]]
  }

  lemma {:induction false} ReversedElements(s: seq<string>)
    ensures Elements(Reversed(s)) == Elements(s)
  {
    if s != [] {
      ReversedElements(s[1..]);
      assert s == [s[0]] + s[1..];
      assert Elements(s) == {s[0]} + Elements(s[1..]);
      assert Elements(Reversed(s[1..]) + [s[0]]) == Elements(Reversed(s[1..])) + {s[0]};
    }
  }

  lemma ReversalCorrect(compose: Compose, up: seq<string>)
    requires IsPermutation(compose, up) && DependenciesFirst(compose, up)
    ensures IsPermutation(compose, Reversed(up)) && DependenciesLast(compose, Reversed(up))
  {
    var down := Reversed(up);
    ReversedElements(up);
    forall i, j | 0 <= i < j < |down|
      ensures down[i] != down[j]
    {
      assert up[|up| - 1 - j] != up[|up| - 1 - i];
    }
    forall i, j | 0 <= i < |down| && 0 <= j < |down| && DependsOn(compose, down[i], down[j])
      ensures i < j
    {
      assert DependsOn(compose, up[|up| - 1 - i], up[|up| - 1 - j]);
    }
  }
}
