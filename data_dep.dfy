/**
 * `walk_data_dep`: nodes are visited in topological order, each carrying, per register, the
 * nodes whose definition of that register reaches it along forward out-edges. A node gets a
 * DataDependency edge to every reaching definition of a register it uses (and a DataDependent
 * edge back), then passes its own state, with the registers it defines reset to itself, on to
 * its successors.
 */
module DataDep {
  import opened Wrappers
  import opened Words
  import opened Superset
  import opened GraphCore

  /** `DataDepState`: per register, the nodes whose definition is live (a missing key is empty). */
  type State = map<Reg, seq<nat>>

  function Get(st: State, r: Reg): seq<nat> {
    if r in st then st[r] else []
  }

  predicate NoDups(s: seq<nat>) {
    forall i, j :: 0 <= i < j < |s| ==> s[i] != s[j]
  }

  /**
   * Definition `d` of register `r` reaches the entry of node `k`: some forward predecessor of
   * `k` feeds it in.
   */
  ghost predicate Reaches(entries: seq<Entry>, d: nat, k: nat, r: Reg)
    decreases k, 0
  {
    k < |entries| && exists p: nat :: p < k && Feeds(entries, p, k, d, r)
  }

  /** `k` is an out-edge of `p`, and `p` passes definition `d` of `r` on. */
  ghost predicate Feeds(entries: seq<Entry>, p: nat, k: nat, d: nat, r: Reg)
    decreases p, 2
  {
    p < |entries| && k in OutEdges(entries, p) && PassesOn(entries, p, d, r)
  }

  /**
   * Node `p` passes definition `d` of `r` on to its successors: `p` defines `r` and is `d`, or
   * `p` leaves `r` alone and `d` reaches `p`.
   */
  ghost predicate PassesOn(entries: seq<Entry>, p: nat, d: nat, r: Reg)
    decreases p, 1
  {
    p < |entries|
    && if r in entries[p].feature.defines then d == p else Reaches(entries, d, p, r)
  }

  /** `p` feeds definition `d` of `r` into `k`, as a property of `p`. */
  ghost function FeedsInto(entries: seq<Entry>, k: nat, d: nat, r: Reg): nat -> bool {
    (p: nat) => Feeds(entries, p, k, d, r)
  }

  /** Some node below both `t` and `k` has the property. */
  ghost predicate AnyBelow(has: nat -> bool, t: nat, k: nat) {
    exists p: nat :: p < t && p < k && has(p)
  }

  /** `d` reaches `k` through a predecessor below `t`, the nodes visited so far. */
  ghost predicate ReachesBefore(entries: seq<Entry>, d: nat, k: nat, r: Reg, t: nat) {
    k < |entries| && AnyBelow(FeedsInto(entries, k, d, r), t, k)
  }

  /** A reaching definition comes from an earlier node. */
  lemma {:induction false} ReachesBelow(entries: seq<Entry>, d: nat, k: nat, r: Reg)
    requires Reaches(entries, d, k, r)
    ensures d < k
    decreases k
  {
    var p: nat :| p < k && Feeds(entries, p, k, d, r);
    assert PassesOn(entries, p, d, r);
    if r !in entries[p].feature.defines {
      ReachesBelow(entries, d, p, r);
    }
  }

  lemma AnyBelowStep(has: nat -> bool, t: nat, k: nat)
    requires t < k
    ensures AnyBelow(has, t + 1, k) <==> AnyBelow(has, t, k) || has(t)
  {
    if AnyBelow(has, t + 1, k) && !has(t) {
      var p: nat :| p < t + 1 && p < k && has(p);
      assert p < t;
    }
  }

  /** Visiting node `t` adds what it passes on to each of its successors above it. */
  lemma ReachesBeforeStep(entries: seq<Entry>, d: nat, k: nat, r: Reg, t: nat)
    requires t < k < |entries|
    ensures ReachesBefore(entries, d, k, r, t + 1) <==> ReachesBefore(entries, d, k, r, t) || Feeds(entries, t, k, d, r)
  {
    AnyBelowStep(FeedsInto(entries, k, d, r), t, k);
  }

  /** Once every node below `k` is visited, the definitions reaching `k` are all known. */
  lemma ReachesBeforeAll(entries: seq<Entry>, d: nat, k: nat, r: Reg)
    requires k < |entries|
    ensures ReachesBefore(entries, d, k, r, k) <==> Reaches(entries, d, k, r)
  {
    if Reaches(entries, d, k, r) {
      ReachesIsBefore(entries, d, k, r);
    }
    if ReachesBefore(entries, d, k, r, k) {
      var p: nat :| p < k && p < k && FeedsInto(entries, k, d, r)(p);
      assert Feeds(entries, p, k, d, r);
    }
  }

  lemma ReachesIsBefore(entries: seq<Entry>, d: nat, k: nat, r: Reg)
    requires Reaches(entries, d, k, r)
    ensures ReachesBefore(entries, d, k, r, k)
  {
    var p: nat :| p < k && Feeds(entries, p, k, d, r);
    assert FeedsInto(entries, k, d, r)(p);
  }

  /**
   * The state of node `k` once the nodes below `t` are visited, plus what `t` passes on when
   * `withT` holds: exactly the reaching definitions, none listed twice.
   */
  ghost predicate StateIs(entries: seq<Entry>, st: State, k: nat, t: nat, withT: bool)
    requires t < |entries| || !withT
  {
    && (forall r, d :: d in Get(st, r) <==> ReachesBefore(entries, d, k, r, t) || (withT && PassesOn(entries, t, d, r)))
    && forall r :: NoDups(Get(st, r))
  }

  /** `apply_state`: every register the node defines is reset to the node alone. */
  method ApplyState(entries: seq<Entry>, index: nat, state: State) returns (r: State)
    requires index < |entries|
    ensures forall reg :: Get(r, reg) == if reg in entries[index].feature.defines then [index] else Get(state, reg)
  {
    r := state;
    var defines := entries[index].feature.defines;
    for k := 0 to |defines|
      invariant forall reg :: Get(r, reg) == if reg in defines[..k] then [index] else Get(state, reg)
    {
      assert defines[..k + 1] == defines[..k] + [defines[k]];
      r := r[defines[k] := [index]];
    }
    assert defines[..|defines|] == defines;
  }

  /** One register of `aggregate_state`: each source node not listed yet is appended. */
  method MergeInto(dst: seq<nat>, src: seq<nat>) returns (r: seq<nat>)
    ensures |r| >= |dst| && r[..|dst|] == dst
    ensures forall x :: x in r <==> x in dst || x in src
    ensures NoDups(dst) ==> NoDups(r)
  {
    r := dst;
    for k := 0 to |src|
      invariant |r| >= |dst| && r[..|dst|] == dst
      invariant forall x :: x in r <==> x in dst || x in src[..k]
      invariant NoDups(dst) ==> NoDups(r)
    {
      assert src[..k + 1] == src[..k] + [src[k]];
      if src[k] !in r {
        r := r + [src[k]];
      }
    }
    assert src[..|src|] == src;
  }

  /** `aggregate_state`: every register's list gains the source's nodes it lacks. */
  method AggregateState(src: State, dst: State) returns (r: State)
    ensures forall reg, x :: x in Get(r, reg) <==> x in Get(dst, reg) || x in Get(src, reg)
    ensures forall reg :: NoDups(Get(dst, reg)) ==> NoDups(Get(r, reg))
  {
    r := dst;
    var pending := src.Keys;
    while pending != {}
      invariant pending <= src.Keys
      invariant MergedExcept(src, dst, pending, r)
      decreases |pending|
    {
      var reg :| reg in pending;
      var merged := MergeInto(Get(r, reg), src[reg]);
      MergeStep(src, dst, pending, r, reg, merged);
      r := r[reg := merged];
      pending := pending - {reg};
    }
  }

  /** Every register outside `pending` is merged, the others are as in `dst`. */
  ghost predicate MergedExcept(src: State, dst: State, pending: set<Reg>, r: State) {
    && (forall reg, x :: x in Get(r, reg) <==> x in Get(dst, reg) || (reg !in pending && x in Get(src, reg)))
    && forall reg :: NoDups(Get(dst, reg)) ==> NoDups(Get(r, reg))
  }

  lemma MergeStep(src: State, dst: State, pending: set<Reg>, r: State, reg: Reg, merged: seq<nat>)
    requires MergedExcept(src, dst, pending, r) && reg in pending && reg in src
    requires forall x :: x in merged <==> x in Get(r, reg) || x in src[reg]
    requires NoDups(Get(r, reg)) ==> NoDups(merged)
    ensures MergedExcept(src, dst, pending - {reg}, r[reg := merged])
  {
  }

  /** Every node a state lists fits an `Index32`. */
  ghost predicate Bounded(st: State) {
    forall r, k :: 0 <= k < |Get(st, r)| ==> Get(st, r)[k] < U32_LIMIT
  }

  /** The edge pairs `collect_edges` adds for one used register whose definitions are `defs`. */
  function DataPairs(index: u32, defs: seq<nat>): seq<Triple>
    requires forall k :: 0 <= k < |defs| ==> defs[k] < U32_LIMIT
  {
    if defs == [] then []
    else
      var d := defs[|defs| - 1];
      DataPairs(index, defs[..|defs| - 1]) + [((index, d), DataDependency), ((d, index), DataDependent)]
  }

  /** The edges `collect_edges` adds for node `index` using the registers `uses`. */
  function Collected(index: u32, uses: seq<Reg>, st: State): seq<Triple>
    requires Bounded(st)
  {
    if uses == [] then []
    else Collected(index, uses[..|uses| - 1], st) + DataPairs(index, Get(st, uses[|uses| - 1]))
  }

  /** The pairs for `defs` are a dependency on, and a dependent edge from, each of them. */
  lemma {:induction false} DataPairsMembers(index: u32, defs: seq<nat>)
    requires forall k :: 0 <= k < |defs| ==> defs[k] < U32_LIMIT
    ensures forall e :: e in DataPairs(index, defs) <==>
      exists d :: d in defs && (e == ((index, d), DataDependency) || e == ((d, index), DataDependent))
  {
    if defs != [] {
      DataPairsMembers(index, defs[..|defs| - 1]);
      assert defs == defs[..|defs| - 1] + [defs[|defs| - 1]];
    }
  }

  /**
   * The edges collected for node `index`: a dependency on, and a dependent edge from, every node
   * the state lists for a register the node uses.
   */
  lemma {:induction false} CollectedMembers(index: u32, uses: seq<Reg>, st: State)
    requires Bounded(st)
    ensures forall e :: e in Collected(index, uses, st) <==>
      exists r, d :: r in uses && d in Get(st, r) && (e == ((index, d), DataDependency) || e == ((d, index), DataDependent))
  {
    if uses != [] {
      CollectedMembers(index, uses[..|uses| - 1], st);
      DataPairsMembers(index, Get(st, uses[|uses| - 1]));
      assert uses == uses[..|uses| - 1] + [uses[|uses| - 1]];
    }
  }

  /** `collect_edges`: the data edges of node `index`, appended to the graph. */
  method CollectEdges(graph: Graph, entries: seq<Entry>, index: u32, state: State)
    requires index < |entries| && Bounded(state) && graph.Valid()
    modifies graph
    ensures graph.Valid() && graph.Triples() == old(graph.Triples()) + Collected(index, entries[index].feature.uses, state)
  {
    var uses := entries[index].feature.uses;
    ghost var start := graph.Triples();
    for u := 0 to |uses|
      invariant graph.Valid() && graph.Triples() == start + Collected(index, uses[..u], state)
    {
      CollectOne(graph, index, uses, u, state, start);
    }
    assert uses[..|uses|] == uses;
  }

  /** One turn of the loop of `collect_edges`: the pairs for the register `uses[u]`. */
  method CollectOne(graph: Graph, index: u32, uses: seq<Reg>, u: nat, state: State, ghost start: seq<Triple>)
    requires u < |uses| && Bounded(state) && graph.Valid()
    requires graph.Triples() == start + Collected(index, uses[..u], state)
    modifies graph
    ensures graph.Valid() && graph.Triples() == start + Collected(index, uses[..u + 1], state)
  {
    CollectedStep(index, uses, u, state);
    AddPairs(graph, index, Get(state, uses[u]));
  }

  lemma CollectedStep(index: u32, uses: seq<Reg>, u: nat, st: State)
    requires u < |uses| && Bounded(st)
    ensures Collected(index, uses[..u + 1], st) == Collected(index, uses[..u], st) + DataPairs(index, Get(st, uses[u]))
  {
    assert uses[..u + 1][..u] == uses[..u];
  }

  /** The inner loop of `collect_edges`: the pairs for one used register. */
  method AddPairs(graph: Graph, index: u32, defs: seq<nat>)
    requires graph.Valid() && forall k :: 0 <= k < |defs| ==> defs[k] < U32_LIMIT
    modifies graph
    ensures graph.Valid() && graph.Triples() == old(graph.Triples()) + DataPairs(index, defs)
  {
    for v := 0 to |defs|
      invariant graph.Valid() && graph.Triples() == old(graph.Triples()) + DataPairs(index, defs[..v])
    {
      assert defs[..v + 1][..v] == defs[..v];
      graph.AddEdge(index, defs[v], DataDependency);
      graph.AddEdge(defs[v], index, DataDependent);
    }
    assert defs[..|defs|] == defs;
  }

  /** The states of the nodes from `t` on, with the nodes below `t` visited. */
  ghost predicate StatesFrom(entries: seq<Entry>, states: seq<State>, t: nat) {
    |states| == |entries| && forall k :: t <= k < |entries| ==> StateIs(entries, states[k], k, t, false)
  }

  /** A state holding the reaching definitions lists nodes below `t` only. */
  lemma StateBounded(entries: seq<Entry>, st: State, t: nat)
    requires t < |entries| < U32_LIMIT && StateIs(entries, st, t, t, false)
    ensures Bounded(st)
    ensures forall r, d :: d in Get(st, r) <==> Reaches(entries, d, t, r)
  {
    forall r, k | 0 <= k < |Get(st, r)|
      ensures Get(st, r)[k] < t
    {
      var d := Get(st, r)[k];
      ReachesBeforeAll(entries, d, t, r);
      ReachesBelow(entries, d, t, r);
    }
    forall r, d
      ensures d in Get(st, r) <==> Reaches(entries, d, t, r)
    {
      ReachesBeforeAll(entries, d, t, r);
    }
  }

  /** After `apply_state`, the state lists exactly what node `t` passes on. */
  lemma AppliedPasses(entries: seq<Entry>, st: State, applied: State, t: nat)
    requires t < |entries| && StateIs(entries, st, t, t, false)
    requires forall reg :: Get(applied, reg) == if reg in entries[t].feature.defines then [t] else Get(st, reg)
    ensures forall r, d :: d in Get(applied, r) <==> PassesOn(entries, t, d, r)
    ensures forall r :: NoDups(Get(applied, r))
  {
    forall r, d
      ensures d in Get(applied, r) <==> PassesOn(entries, t, d, r)
    {
      ReachesBeforeAll(entries, d, t, r);
    }
  }

  /** Aggregating what `t` passes on into a successor's state adds `t`'s contribution. */
  lemma AggregatedState(entries: seq<Entry>, st: State, applied: State, merged: State, k: nat, t: nat, withT: bool)
    requires t < |entries| && StateIs(entries, st, k, t, withT)
    requires forall r, d :: d in Get(applied, r) <==> PassesOn(entries, t, d, r)
    requires forall reg, x :: x in Get(merged, reg) <==> x in Get(st, reg) || x in Get(applied, reg)
    requires forall reg :: NoDups(Get(st, reg)) ==> NoDups(Get(merged, reg))
    ensures StateIs(entries, merged, k, t, true)
  {
  }

  /** Once `t`'s successors have its contribution, every later state is that of `t + 1`. */
  lemma StateAdvance(entries: seq<Entry>, st: State, k: nat, t: nat)
    requires t < k < |entries| && StateIs(entries, st, k, t, k in OutEdges(entries, t))
    ensures StateIs(entries, st, k, t + 1, false)
  {
    forall r, d
      ensures d in Get(st, r) <==> ReachesBefore(entries, d, k, r, t + 1)
    {
      ReachesBeforeStep(entries, d, k, r, t);
    }
  }

  /**
   * One step of the walk over node `t`: its data edges go to the graph, and its successors'
   * states gain what it passes on.
   */
  method VisitNode(graph: Graph, entries: seq<Entry>, states: seq<State>, t: nat) returns (next: seq<State>)
    requires graph.Valid() && t < |entries| < I32_MAX && StatesFrom(entries, states, t)
    modifies graph
    ensures graph.Valid() && Bounded(states[t])
    ensures graph.Triples() == old(graph.Triples()) + Collected(t, entries[t].feature.uses, states[t])
    ensures StatesFrom(entries, next, t + 1)
  {
    var state := states[t];
    StateBounded(entries, state, t);
    CollectEdges(graph, entries, t, state);
    var applied := ApplyState(entries, t, state);
    AppliedPasses(entries, state, applied, t);
    next := Propagate(entries, states, applied, t);
  }

  /** The successor loop of the walk: each successor of `t` above it gains what `t` passes on. */
  method Propagate(entries: seq<Entry>, states: seq<State>, applied: State, t: nat) returns (next: seq<State>)
    requires t < |entries| && StatesFrom(entries, states, t)
    requires forall r, d :: d in Get(applied, r) <==> PassesOn(entries, t, d, r)
    ensures StatesFrom(entries, next, t + 1)
  {
    var succs := OutEdges(entries, t);
    next := states;
    for s := 0 to |succs|
      invariant |next| == |entries|
      invariant forall k :: t < k < |entries| ==> StateIs(entries, next[k], k, t, k in succs[..s])
    {
      var succ := succs[s];
      var merged := AggregateState(applied, next[succ]);
      if t < succ {
        AggregatedState(entries, next[succ], applied, merged, succ, t, succ in succs[..s]);
      }
      next := next[succ := merged];
      assert forall k :: k in succs[..s + 1] <==> k in succs[..s] || k == succ;
    }
    forall k | t < k < |entries|
      ensures StateIs(entries, next[k], k, t + 1, false)
    {
      assert succs[..|succs|] == succs;
      StateAdvance(entries, next[k], k, t);
    }
    next := next[t := map[]];
  }

  /** `i` uses a register whose definition at node `d` reaches it. */
  ghost predicate UsesReached(entries: seq<Entry>, i: nat, d: nat) {
    i < |entries| && exists r :: r in entries[i].feature.uses && Reaches(entries, d, i, r)
  }

  /**
   * The data edges of the graph: `i` depends on `d` and `d` has `i` as a dependent when `i`
   * uses a register whose definition at `d` reaches `i`.
   */
  ghost predicate DataEdge(entries: seq<Entry>, e: Triple) {
    || (e.1 == DataDependency && UsesReached(entries, e.0.0, e.0.1))
    || (e.1 == DataDependent && UsesReached(entries, e.0.1, e.0.0))
  }

  /** The node whose register use an edge records. */
  function UserOf(e: Triple): nat {
    if e.1 == DataDependent then e.0.1 else e.0.0
  }

  /** The edges collected at node `t` are the data edges whose user is `t`. */
  lemma CollectedAreDataEdges(entries: seq<Entry>, st: State, t: u32)
    requires t < |entries| < U32_LIMIT && Bounded(st)
    requires forall r, d :: d in Get(st, r) <==> Reaches(entries, d, t, r)
    ensures forall e :: e in Collected(t, entries[t].feature.uses, st) <==> DataEdge(entries, e) && UserOf(e) == t
  {
    CollectedMembers(t, entries[t].feature.uses, st);
  }

  /** How many of the registers `uses` have their definition at `d` reach node `i`. */
  ghost function ReachedUses(entries: seq<Entry>, i: nat, d: nat, uses: seq<Reg>): nat {
    if uses == [] then 0
    else ReachedUses(entries, i, d, uses[..|uses| - 1]) + if Reaches(entries, d, i, uses[|uses| - 1]) then 1 else 0
  }

  /**
   * How often node `t`, using the registers `uses`, records the edge `e`: once per used register
   * whose definition at the other end of `e` reaches `t`.
   */
  ghost function UseCount(entries: seq<Entry>, t: nat, uses: seq<Reg>, e: Triple): nat {
    if e.1 == DataDependency && e.0.0 == t then ReachedUses(entries, t, e.0.1, uses)
    else if e.1 == DataDependent && e.0.1 == t then ReachedUses(entries, t, e.0.0, uses)
    else 0
  }

  /** How often the walk records the edge `e`, as a function of the entries alone. */
  ghost function DataEdgeCount(entries: seq<Entry>, e: Triple): nat {
    var t := UserOf(e);
    if t < |entries| then UseCount(entries, t, entries[t].feature.uses, e) else 0
  }

  /** A node records an edge at least once exactly when it is a data edge. */
  lemma DataEdgeCounted(entries: seq<Entry>, e: Triple)
    ensures DataEdgeCount(entries, e) > 0 <==> DataEdge(entries, e)
  {
    var t := UserOf(e);
    if t < |entries| {
      ReachedUsesPositive(entries, t, if e.1 == DataDependent then e.0.0 else e.0.1, entries[t].feature.uses);
    }
  }

  lemma {:induction false} ReachedUsesPositive(entries: seq<Entry>, i: nat, d: nat, uses: seq<Reg>)
    ensures ReachedUses(entries, i, d, uses) > 0 <==> exists r :: r in uses && Reaches(entries, d, i, r)
  {
    if uses != [] {
      var rest, last := uses[..|uses| - 1], uses[|uses| - 1];
      ReachedUsesPositive(entries, i, d, rest);
      assert uses == rest + [last];
      if exists r :: r in uses && Reaches(entries, d, i, r) {
        var r :| r in uses && Reaches(entries, d, i, r);
        if r != last {
          assert r in rest;
        }
      }
    }
  }

  /** How often `DataPairs(index, defs)` holds `e`, given how often `defs` lists each node. */
  function PairCount(index: u32, m: multiset<nat>, e: Triple): nat {
    if e.1 == DataDependency && e.0.0 == index then m[e.0.1]
    else if e.1 == DataDependent && e.0.1 == index then m[e.0.0]
    else 0
  }

  /** Each listing of a definition gives one dependency and one dependent edge. */
  lemma {:induction false} DataPairsCount(index: u32, defs: seq<nat>)
    requires forall k :: 0 <= k < |defs| ==> defs[k] < U32_LIMIT
    ensures forall e :: multiset(DataPairs(index, defs))[e] == PairCount(index, multiset(defs), e)
  {
    if defs != [] {
      var rest, d := defs[..|defs| - 1], defs[|defs| - 1];
      assert defs == rest + [d];
      DataPairsCount(index, rest);
    }
  }

  /** A list without repeats lists each of its elements once. */
  lemma {:induction false} DistinctCount(s: seq<nat>)
    requires NoDups(s)
    ensures forall y :: multiset(s)[y] == if y in s then 1 else 0
  {
    if s != [] {
      var s', x := s[..|s| - 1], s[|s| - 1];
      assert s == s' + [x];
      assert NoDups(s');
      forall j | 0 <= j < |s'|
        ensures s'[j] != x
      {
        assert s'[j] == s[j];
      }
      DistinctCount(s');
    }
  }

  /**
   * With a state listing each reaching definition of node `t` once, `collect_edges` records
   * every edge as often as `UseCount` says.
   */
  lemma {:induction false} CollectedCount(entries: seq<Entry>, t: u32, uses: seq<Reg>, st: State)
    requires t < |entries| && Bounded(st)
    requires forall r, d :: d in Get(st, r) <==> Reaches(entries, d, t, r)
    requires forall r :: NoDups(Get(st, r))
    ensures forall e :: multiset(Collected(t, uses, st))[e] == UseCount(entries, t, uses, e)
  {
    if uses != [] {
      var rest, r := uses[..|uses| - 1], uses[|uses| - 1];
      CollectedCount(entries, t, rest, st);
      forall e
        ensures multiset(Collected(t, uses, st))[e] == UseCount(entries, t, uses, e)
      {
        PairsReached(entries, t, r, st, e);
        UseCountSnoc(entries, t, uses, e);
        assert multiset(Collected(t, uses, st))[e]
            == multiset(Collected(t, rest, st))[e] + multiset(DataPairs(t, Get(st, r)))[e];
      }
    }
  }

  /** The pairs for one used register `r` hold `e` once when `e`'s other end defines `r` for `t`. */
  lemma PairsReached(entries: seq<Entry>, t: u32, r: Reg, st: State, e: Triple)
    requires Bounded(st) && NoDups(Get(st, r))
    requires forall d :: d in Get(st, r) <==> Reaches(entries, d, t, r)
    ensures multiset(DataPairs(t, Get(st, r)))[e] == UseCount(entries, t, [r], e)
  {
    var defs := Get(st, r);
    DataPairsCount(t, defs);
    DistinctCount(defs);
    assert [r][..0] == [];
    var m: multiset<nat> := multiset(defs);
    forall d: nat
      ensures ReachedUses(entries, t, d, [r]) == m[d]
    {
      assert ReachedUses(entries, t, d, [r]) == if Reaches(entries, d, t, r) then 1 else 0;
    }
  }

  /** Counting over one more used register adds that register's count. */
  lemma UseCountSnoc(entries: seq<Entry>, t: nat, uses: seq<Reg>, e: Triple)
    requires uses != []
    ensures UseCount(entries, t, uses, e) == UseCount(entries, t, uses[..|uses| - 1], e) + UseCount(entries, t, [uses[|uses| - 1]], e)
  {
    var last := uses[|uses| - 1];
    assert [last][..0] == [];
    forall d: nat
      ensures ReachedUses(entries, t, d, uses) == ReachedUses(entries, t, d, uses[..|uses| - 1]) + ReachedUses(entries, t, d, [last])
    {
      assert ReachedUses(entries, t, d, [last]) == if Reaches(entries, d, t, last) then 1 else 0;
    }
  }

  /**
   * The edges recorded by the nodes below `t`: the data edges whose user is below `t`, each as
   * often as `DataEdgeCount` says.
   */
  ghost predicate WalkedBelow(entries: seq<Entry>, added: seq<Triple>, t: nat) {
    RecordedBelow(entries, added, t) && CountedBelow(entries, added, t)
  }

  ghost predicate RecordedBelow(entries: seq<Entry>, added: seq<Triple>, t: nat) {
    forall e :: e in added <==> DataEdge(entries, e) && UserOf(e) < t
  }

  ghost predicate CountedBelow(entries: seq<Entry>, added: seq<Triple>, t: nat) {
    forall e :: multiset(added)[e] == if UserOf(e) < t then DataEdgeCount(entries, e) else 0
  }

  /** Visiting node `t` with its reaching definitions extends the recorded edges by its own. */
  lemma WalkStep(entries: seq<Entry>, added: seq<Triple>, st: State, t: u32)
    requires t < |entries| < U32_LIMIT && StateIs(entries, st, t, t, false)
    requires WalkedBelow(entries, added, t)
    ensures Bounded(st) && WalkedBelow(entries, added + Collected(t, entries[t].feature.uses, st), t + 1)
  {
    StateBounded(entries, st, t);
    RecordedStep(entries, added, st, t);
    CountedStep(entries, added, st, t);
  }

  lemma RecordedStep(entries: seq<Entry>, added: seq<Triple>, st: State, t: u32)
    requires t < |entries| < U32_LIMIT && Bounded(st)
    requires forall r, d :: d in Get(st, r) <==> Reaches(entries, d, t, r)
    requires RecordedBelow(entries, added, t)
    ensures RecordedBelow(entries, added + Collected(t, entries[t].feature.uses, st), t + 1)
  {
    CollectedAreDataEdges(entries, st, t);
  }

  lemma CountedStep(entries: seq<Entry>, added: seq<Triple>, st: State, t: u32)
    requires t < |entries| < U32_LIMIT && Bounded(st)
    requires forall r, d :: d in Get(st, r) <==> Reaches(entries, d, t, r)
    requires forall r :: NoDups(Get(st, r))
    requires CountedBelow(entries, added, t)
    ensures CountedBelow(entries, added + Collected(t, entries[t].feature.uses, st), t + 1)
  {
    CollectedCount(entries, t, entries[t].feature.uses, st);
  }

  /** Before any node is visited, no edge is recorded. */
  lemma WalkedNone(entries: seq<Entry>)
    ensures WalkedBelow(entries, [], 0)
  {
  }

  /** Once every node is visited, the recorded edges are the data edges, counted by `DataEdgeCount`. */
  lemma WalkedAll(entries: seq<Entry>, added: seq<Triple>)
    requires WalkedBelow(entries, added, |entries|)
    ensures forall e :: e in added <==> DataEdge(entries, e)
    ensures forall e :: multiset(added)[e] == DataEdgeCount(entries, e)
  {
  }

  /**
   * `walk_data_dep`: the graph gains exactly the data edges, visiting the nodes in the order
   * `toposort` gives.
   */
  method WalkDataDep(graph: Graph, entries: seq<Entry>)
    requires graph.Valid() && NoOverflow(entries) && |entries| < I32_MAX
    modifies graph
    ensures graph.Valid()
    ensures |graph.Triples()| >= |old(graph.Triples())| && graph.Triples()[..|old(graph.Triples())|] == old(graph.Triples())
    ensures forall e :: e in graph.Triples()[|old(graph.Triples())|..] <==> DataEdge(entries, e)
    ensures forall e :: multiset(graph.Triples()[|old(graph.Triples())|..])[e] == DataEdgeCount(entries, e)
  {
    var order := Toposort(entries);
    var states: seq<State> := seq(|entries|, _ => map[]);
    ghost var added: seq<Triple> := [];
    WalkedNone(entries);
    for t := 0 to |order|
      invariant graph.Valid() && graph.Triples() == old(graph.Triples()) + added
      invariant StatesFrom(entries, states, t)
      invariant WalkedBelow(entries, added, t)
    {
      var index := order[t];
      assert index == t;
      var state := states[index];
      states := VisitNode(graph, entries, states, index);
      WalkStep(entries, added, state, t);
      added := added + Collected(t, entries[t].feature.uses, state);
    }
    assert graph.Triples()[|old(graph.Triples())|..] == added;
    WalkedAll(entries, added);
  }
}
