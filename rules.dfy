/**
  The color changing rules: one timestep of zombie spread. The next state is
  computed from a snapshot of the current one, every flag being read from the
  graph before the step and written to a copy of it.
 */
module ColorRules {
  import opened Graphs

  /** The rule names `update_color` recognises; any other name selects no branch. */
  datatype Rule = TargetSetSelection | Stochastic | Deterministic | Unrecognised

  function RuleNamed(name: string): Rule {
    if name == "target_set_selection" then TargetSetSelection
    else if name == "stochastic" then Stochastic
    else if name == "deterministic" then Deterministic
    else Unrecognised
  }

  /** One Bernoulli(p) trial decided by the sample `u`: it succeeds when `u` falls below `p`. */
  predicate Bernoulli(p: real, u: Unit) {
    u < p
  }

  /**
    `np.random.binomial(1, p)` on the sample `u`: rejects a probability outside [0, 1]
    with a ValueError, and otherwise is the Bernoulli(p) trial.
   */
  function Binomial(p: real, u: Unit): (r: Result<bool>)
    ensures r.Err? <==> p < 0.0 || p > 1.0
    ensures r.Err? ==> r.error == ValueError
    ensures r.Ok? && p == 0.0 ==> !r.value
    ensures r.Ok? && p == 1.0 ==> r.value
  {
    if 0.0 <= p <= 1.0 then Ok(Bernoulli(p, u)) else Err(ValueError)
  }

  /** The stochastic rule's infection probability `infected / (degree + 1)`. */
  function Probability(infected: nat, degree: nat): (p: real)
    requires infected <= degree
    ensures 0.0 <= p < 1.0
    ensures p == 0.0 <==> infected == 0
  {
    infected as real / (degree + 1) as real
  }

  /**
    Whether a node is promoted to zombie by `rule`, given how many of its neighbours
    are zombies (`infected`), how many neighbours it has (`length`), its degree and the
    sample `u` the stochastic rule draws for it. An unrecognised rule promotes nobody.
   */
  function Promotes(rule: Rule, infected: nat, length: nat, degree: nat, u: Unit): bool
    requires infected <= length <= degree
  {
    match rule
    case TargetSetSelection => infected >= 2
    case Stochastic => Bernoulli(Probability(infected, degree), u)
    case Deterministic => 3 * infected > length
    case Unrecognised => false
  }

  /** `Promotes` for node `v` of `t` under the flags `z`. */
  function Catches(t: Topology, z: State, rule: Rule, v: Node, u: Unit): bool
    requires Covers(t, z) && v in t.adj
  {
    Promotes(rule, InfectedAmong(t.adj[v], z), |t.adj[v]|, t.Degree(v), u)
  }

  /** The deterministic rule divides by the neighbour count, which fails on a node without neighbours. */
  predicate HasIsolatedNode(t: Topology) {
    exists v :: v in t.adj && t.adj[v] == []
  }

  /** Number of samples one step of `rule` draws: one per node for the stochastic rule. */
  function DrawsPerStep(t: Topology, rule: Rule): nat {
    if rule == Stochastic then |t.nodes| else 0
  }

  /**
    The flags after the sweep of `update_color` has visited the first `k` nodes: a copy of
    `z` in which every visited node the rule promotes is set. Promotion is decided on `z`
    alone; the stochastic rule uses sample `rng(cursor + i)` for the i-th node.
   */
  function Sweep(t: Topology, z: State, rule: Rule, rng: Rng, cursor: nat, k: nat): State
    requires Covers(t, z) && k <= |t.nodes|
    decreases k
  {
    if k == 0 then z
    else
      var v := t.nodes[k - 1];
      var before := Sweep(t, z, rule, rng, cursor, k - 1);
      if Catches(t, z, rule, v, rng(cursor + k - 1)) then before[v := true] else before
  }

  /** The sweep sets flags only: every node keeps exactly one flag. */
  lemma {:induction false} SweepKeys(t: Topology, z: State, rule: Rule, rng: Rng, cursor: nat, k: nat)
    requires Covers(t, z) && k <= |t.nodes|
    ensures Sweep(t, z, rule, rng, cursor, k).Keys == z.Keys
    decreases k
  {
    if k > 0 {
      SweepKeys(t, z, rule, rng, cursor, k - 1);
    }
  }

  /** Visiting the k-th node adds its promotion, if any, to the sweep so far. */
  lemma SweepNext(t: Topology, z: State, rule: Rule, rng: Rng, cursor: nat, k: nat)
    requires Covers(t, z) && k < |t.nodes|
    ensures Sweep(t, z, rule, rng, cursor, k + 1)
            == var before := Sweep(t, z, rule, rng, cursor, k);
               if Catches(t, z, rule, t.nodes[k], rng(cursor + k)) then before[t.nodes[k] := true] else before
  {
  }

  /** One timestep of `rule`: the completed sweep, or the error the deterministic rule raises. */
  function Step(t: Topology, z: State, rule: Rule, rng: Rng, cursor: nat): Result<State>
    requires Covers(t, z)
  {
    if rule == Deterministic && HasIsolatedNode(t) then Err(ZeroDivisionError)
    else Ok(Sweep(t, z, rule, rng, cursor, |t.nodes|))
  }

  /** A successful step gives a flag to exactly the nodes of the graph again. */
  lemma StepKeys(t: Topology, z: State, rule: Rule, rng: Rng, cursor: nat)
    requires Covers(t, z)
    ensures Step(t, z, rule, rng, cursor).Ok? ==> Covers(t, Step(t, z, rule, rng, cursor).value)
  {
    SweepKeys(t, z, rule, rng, cursor, |t.nodes|);
  }

  /**
    After visiting `k` nodes, the sweep holds for the i-th node its old flag if it is not
    yet visited, and otherwise its old flag or its promotion.
   */
  lemma {:induction false} SweepAt(t: Topology, z: State, rule: Rule, rng: Rng, cursor: nat, k: nat, i: nat)
    requires Covers(t, z) && k <= |t.nodes| && i < |t.nodes|
    ensures t.nodes[i] in Sweep(t, z, rule, rng, cursor, k)
    ensures Sweep(t, z, rule, rng, cursor, k)[t.nodes[i]]
            == if i < k then z[t.nodes[i]] || Catches(t, z, rule, t.nodes[i], rng(cursor + i)) else z[t.nodes[i]]
  {
    SweepKeys(t, z, rule, rng, cursor, k);
    if k > 0 {
      SweepAt(t, z, rule, rng, cursor, k - 1, i);
    }
  }

  /** The value of a successful step at the i-th node. */
  lemma StepAt(t: Topology, z: State, rule: Rule, rng: Rng, cursor: nat, i: nat)
    requires Covers(t, z) && i < |t.nodes|
    requires Step(t, z, rule, rng, cursor).Ok?
    ensures t.nodes[i] in Step(t, z, rule, rng, cursor).value
    ensures Step(t, z, rule, rng, cursor).value[t.nodes[i]]
            == (z[t.nodes[i]] || Catches(t, z, rule, t.nodes[i], rng(cursor + i)))
  {
    SweepAt(t, z, rule, rng, cursor, |t.nodes|, i);
  }

  /** Every node is some node of the iteration order. */
  lemma IndexOf(t: Topology, v: Node) returns (i: nat)
    requires t.WellFormed() && v in t.adj
    ensures i < |t.nodes| && t.nodes[i] == v
  {
    assert t.Listed(v);
    i :| 0 <= i < |t.nodes| && t.nodes[i] == v;
  }

  /** A graph none of whose listed nodes lacks neighbours has no isolated node. */
  lemma NoIsolatedNode(t: Topology)
    requires t.WellFormed()
    requires forall j :: 0 <= j < |t.nodes| ==> t.adj[t.nodes[j]] != []
    ensures !HasIsolatedNode(t)
  {
    if HasIsolatedNode(t) {
      var v :| v in t.adj && t.adj[v] == [];
      var j := IndexOf(t, v);
    }
  }

  /** Infection is never cleared: every zombie of the snapshot is a zombie after a step, under every rule. */
  lemma StepMonotone(t: Topology, z: State, rule: Rule, rng: Rng, cursor: nat)
    requires Covers(t, z)
    ensures Step(t, z, rule, rng, cursor).Ok? ==>
              && Covers(t, Step(t, z, rule, rng, cursor).value)
              && forall v :: v in z && z[v] ==> Step(t, z, rule, rng, cursor).value[v]
  {
    StepKeys(t, z, rule, rng, cursor);
    if Step(t, z, rule, rng, cursor).Ok? {
      forall v | v in z && z[v]
        ensures Step(t, z, rule, rng, cursor).value[v]
      {
        var i := IndexOf(t, v);
        StepAt(t, z, rule, rng, cursor, i);
      }
    }
  }

  /** target_set_selection: a node is a zombie afterwards iff it was one or at least 2 of its neighbours were. */
  lemma TargetSetSelectionRule(t: Topology, z: State, rng: Rng, cursor: nat, v: Node)
    requires Covers(t, z) && v in z
    ensures Step(t, z, TargetSetSelection, rng, cursor).Ok?
    ensures v in Step(t, z, TargetSetSelection, rng, cursor).value
    ensures Step(t, z, TargetSetSelection, rng, cursor).value[v]
            <==> z[v] || InfectedAmong(t.adj[v], z) >= 2
  {
    var i := IndexOf(t, v);
    StepAt(t, z, TargetSetSelection, rng, cursor, i);
  }

  /**
    A single zombie never reaches the threshold of target_set_selection: no node has two
    zombie neighbours, so a state with at most one zombie is left as it is.
   */
  lemma LoneZombieStaysAlone(t: Topology, z: State, rng: Rng, cursor: nat)
    requires Covers(t, z) && AtMostOneZombie(z)
    ensures Step(t, z, TargetSetSelection, rng, cursor) == Ok(z)
  {
    StepKeys(t, z, TargetSetSelection, rng, cursor);
    var r := Step(t, z, TargetSetSelection, rng, cursor).value;
    forall v | v in z
      ensures r[v] == z[v]
    {
      InfectedAmongAtMostOne(t.adj[v], z);
      TargetSetSelectionRule(t, z, rng, cursor, v);
    }
    assert r == z;
  }

  /**
    deterministic: the step fails exactly when some node has no neighbour; otherwise a node
    is a zombie afterwards iff it was one or more than a third of its neighbours were.
   */
  lemma DeterministicRule(t: Topology, z: State, rng: Rng, cursor: nat, v: Node)
    requires Covers(t, z) && v in z
    ensures Step(t, z, Deterministic, rng, cursor).Err? <==> exists w :: w in t.adj && t.adj[w] == []
    ensures Step(t, z, Deterministic, rng, cursor).Ok? ==>
              && v in Step(t, z, Deterministic, rng, cursor).value
              && (Step(t, z, Deterministic, rng, cursor).value[v] <==> z[v] || 3 * InfectedAmong(t.adj[v], z) > |t.adj[v]|)
  {
    if exists w :: w in t.adj && t.adj[w] == [] {
      var w :| w in t.adj && t.adj[w] == [];
      var j := IndexOf(t, w);
    }
    if Step(t, z, Deterministic, rng, cursor).Ok? {
      var i := IndexOf(t, v);
      StepAt(t, z, Deterministic, rng, cursor, i);
    }
  }

  /**
    stochastic: the i-th node is a zombie afterwards iff it was one or its draw falls below
    k/(degree+1), a probability in [0, 1) that is 0 when none of its neighbours is a zombie;
    so a node without zombie neighbours keeps its flag, whatever it draws.
   */
  lemma StochasticRule(t: Topology, z: State, rng: Rng, cursor: nat, i: nat)
    requires Covers(t, z) && i < |t.nodes|
    ensures Step(t, z, Stochastic, rng, cursor).Ok?
    ensures var v := t.nodes[i];
            var k := InfectedAmong(t.adj[v], z);
            && k <= t.Degree(v)
            && 0.0 <= Probability(k, t.Degree(v)) < 1.0
            && v in Step(t, z, Stochastic, rng, cursor).value
            && (Step(t, z, Stochastic, rng, cursor).value[v]
                <==> z[v] || rng(cursor + i) < Probability(k, t.Degree(v)))
            && (k == 0 ==> Step(t, z, Stochastic, rng, cursor).value[v] == z[v])
  {
    StepAt(t, z, Stochastic, rng, cursor, i);
  }

  /** An unrecognised rule name selects no branch: the step returns the snapshot unchanged. */
  lemma UnrecognisedRuleKeepsState(t: Topology, z: State, rule: Rule, rng: Rng, cursor: nat)
    requires Covers(t, z)
    requires rule == Unrecognised
    ensures Step(t, z, rule, rng, cursor) == Ok(z)
  {
    StepKeys(t, z, rule, rng, cursor);
    var r := Step(t, z, rule, rng, cursor).value;
    forall v | v in z
      ensures r[v] == z[v]
    {
      var i := IndexOf(t, v);
      StepAt(t, z, rule, rng, cursor, i);
    }
    assert r == z;
  }

  /**
    Simultaneous update: except for the stochastic rule's draws, the step does not depend on
    the order in which nodes are visited. Two node orders of the same graph give the same state.
   */
  lemma StepIgnoresVisitOrder(t: Topology, t': Topology, z: State, rule: Rule, rng: Rng, cursor: nat, rng': Rng, cursor': nat)
    requires Covers(t, z) && Covers(t', z)
    requires t'.adj == t.adj
    requires rule != Stochastic
    ensures Step(t, z, rule, rng, cursor) == Step(t', z, rule, rng', cursor')
  {
    if Step(t, z, rule, rng, cursor).Ok? {
      StepKeys(t, z, rule, rng, cursor);
      StepKeys(t', z, rule, rng', cursor');
      var r, r' := Step(t, z, rule, rng, cursor).value, Step(t', z, rule, rng', cursor').value;
      forall v | v in z
        ensures r[v] == r'[v]
      {
        var i := IndexOf(t, v);
        var j := IndexOf(t', v);
        StepAt(t, z, rule, rng, cursor, i);
        StepAt(t', z, rule, rng', cursor', j);
      }
      assert r == r';
    }
  }

  /** Two adjacencies that list the same neighbours for every node, each in its own order. */
  ghost predicate SameNeighbours(t: Topology, t': Topology) {
    && t'.nodes == t.nodes
    && t'.adj.Keys == t.adj.Keys
    && forall v :: v in t.adj ==> multiset(t'.adj[v]) == multiset(t.adj[v])
  }

  /** A node's promotion does not depend on the order of its neighbour list. */
  lemma CatchesIgnoresNeighbourOrder(t: Topology, t': Topology, z: State, rule: Rule, v: Node, u: Unit)
    requires Covers(t, z) && Covers(t', z) && SameNeighbours(t, t') && v in t.adj
    ensures Catches(t, z, rule, v, u) == Catches(t', z, rule, v, u)
  {
    var a, b := t.adj[v], t'.adj[v];
    InfectedAmongPermutation(a, b, z);
    assert |a| == |multiset(a)| == |multiset(b)| == |b|;
    assert v in a <==> v in multiset(a);
    assert v in b <==> v in multiset(b);
  }

  /**
    Neighbour order does not matter: a step on two adjacencies that list the same neighbours
    in different orders gives the same result, error included, under every rule.
   */
  lemma StepIgnoresNeighbourOrder(t: Topology, t': Topology, z: State, rule: Rule, rng: Rng, cursor: nat)
    requires Covers(t, z) && Covers(t', z) && SameNeighbours(t, t')
    ensures Step(t, z, rule, rng, cursor) == Step(t', z, rule, rng, cursor)
  {
    assert HasIsolatedNode(t) <==> HasIsolatedNode(t') by {
      forall v | v in t.adj
        ensures t.adj[v] == [] <==> t'.adj[v] == []
      {
        assert |t.adj[v]| == |multiset(t.adj[v])| == |multiset(t'.adj[v])| == |t'.adj[v]|;
      }
    }
    if Step(t, z, rule, rng, cursor).Ok? {
      StepKeys(t, z, rule, rng, cursor);
      StepKeys(t', z, rule, rng, cursor);
      var r, r' := Step(t, z, rule, rng, cursor).value, Step(t', z, rule, rng, cursor).value;
      forall v | v in z
        ensures r[v] == r'[v]
      {
        var i := IndexOf(t, v);
        StepAt(t, z, rule, rng, cursor, i);
        StepAt(t', z, rule, rng, cursor, i);
        CatchesIgnoresNeighbourOrder(t, t', z, rule, v, rng(cursor + i));
      }
      assert r == r';
    }
  }

  /**
    Counts the zombie neighbours of `node` in `g`, also counting in `length` every
    neighbour visited (the deterministic rule's denominator).
   */
  method CountInfectedNeighbors(g: Graph, node: Node) returns (infected: nat, length: nat)
    requires g.Valid() && g.Initialized() && node in g.adj
    ensures infected == InfectedAmong(g.adj[node], g.zombie)
    ensures length == |g.adj[node]|
  {
    var nbrs := g.adj[node];
    infected, length := 0, 0;
    while length < |nbrs|
      invariant length <= |nbrs|
      invariant infected == InfectedAmong(nbrs[..length], g.zombie)
    {
      var neighbor := nbrs[length];
      assert nbrs[..length + 1][..length] == nbrs[..length];
      if g.zombie[neighbor] {
        infected := infected + 1;
      }
      length := length + 1;
    }
    assert nbrs[..length] == nbrs;
  }

  /**
    One iteration of `update_color`'s sweep: counts the zombie neighbours of the i-th node
    of `g` and, when the rule promotes it, sets its flag in the copy `nextG`. Reports
    instead a node the deterministic rule cannot divide by.
   */
  method VisitNode(g: Graph, nextG: Graph, rule: Rule, rng: Rng, cursor: nat, i: nat) returns (isolated: bool)
    requires g.Valid() && g.Initialized() && i < |g.nodes| && nextG != g
    requires nextG.zombie == Sweep(g.Shape(), g.zombie, rule, rng, cursor, i)
    modifies nextG
    ensures isolated <==> rule == Deterministic && g.adj[g.nodes[i]] == []
    ensures nextG.nodes == old(nextG.nodes) && nextG.adj == old(nextG.adj) && nextG.time == old(nextG.time)
    ensures !isolated ==> nextG.zombie == Sweep(g.Shape(), g.zombie, rule, rng, cursor, i + 1)
  {
    var node := g.nodes[i];
    var infected, length := CountInfectedNeighbors(g, node);
    if rule == Deterministic && length == 0 {
      return true;
    }
    var t := g.Shape();
    var promote := Promotes(rule, infected, length, t.Degree(node), rng(cursor + i));
    assert promote == Catches(t, g.zombie, rule, node, rng(cursor + i));
    SweepNext(t, g.zombie, rule, rng, cursor, i);
    SweepKeys(t, g.zombie, rule, rng, cursor, i);
    if promote {
      nextG.SetZombie(node);
    }
    isolated := false;
  }

  /**
    The sweep of `update_color`: visits the nodes of `g` in order, promoting in `nextG`
    (a copy of `g`) every node the rule infects. Stops at the first node the
    deterministic rule cannot divide by.
   */
  method SweepInto(g: Graph, nextG: Graph, rule: Rule, rng: Rng, cursor: nat) returns (isolated: bool)
    requires g.Valid() && g.Initialized() && nextG != g && nextG.zombie == g.zombie
    modifies nextG
    ensures nextG.nodes == old(nextG.nodes) && nextG.adj == old(nextG.adj) && nextG.time == old(nextG.time)
    ensures isolated <==> rule == Deterministic && HasIsolatedNode(g.Shape())
    ensures !isolated ==> nextG.zombie == Sweep(g.Shape(), g.zombie, rule, rng, cursor, |g.nodes|)
  {
    ghost var t := g.Shape();
    var i := 0;
    while i < |g.nodes|
      invariant i <= |g.nodes|
      invariant nextG.nodes == old(nextG.nodes) && nextG.adj == old(nextG.adj) && nextG.time == old(nextG.time)
      invariant nextG.zombie == Sweep(t, g.zombie, rule, rng, cursor, i)
      invariant rule == Deterministic ==> forall j :: 0 <= j < i ==> t.adj[t.nodes[j]] != []
    {
      isolated := VisitNode(g, nextG, rule, rng, cursor, i);
      if isolated {
        return;
      }
      i := i + 1;
    }
    if rule == Deterministic {
      NoIsolatedNode(t);
    }
    isolated := false;
  }

  /**
    `update_color`: copies `g`, then visits its nodes in order and promotes in the copy
    every node the rule infects, reading flags only from `g`. The stochastic rule draws
    `rng(cursor)`, `rng(cursor + 1)`, ... one per node; the deterministic rule raises
    on the first node without neighbours. `time` is not used.
   */
  method UpdateColor(g: Graph, time: int, name: string, rng: Rng, cursor: nat) returns (r: Result<Graph>)
    requires g.Valid() && g.Initialized()
    ensures r.Err? <==> Step(g.Shape(), g.zombie, RuleNamed(name), rng, cursor).Err?
    ensures r.Err? ==> r.error == ZeroDivisionError
    ensures r.Ok? ==> && Step(g.Shape(), g.zombie, RuleNamed(name), rng, cursor).Ok?
                      && fresh(r.value) && r.value.Valid() && r.value.Initialized()
                      && r.value.nodes == g.nodes && r.value.adj == g.adj && r.value.time == g.time
                      && r.value.zombie == Step(g.Shape(), g.zombie, RuleNamed(name), rng, cursor).value
  {
    var nextG := g.Copy();
    var isolated := SweepInto(g, nextG, RuleNamed(name), rng, cursor);
    if isolated {
      return Err(ZeroDivisionError);
    }
    StepKeys(g.Shape(), g.zombie, RuleNamed(name), rng, cursor);
    r := Ok(nextG);
  }
}
