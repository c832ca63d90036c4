/**
  The city graph of the zombie simulation: an undirected graph whose nodes
  carry two attributes, a `zombie` flag and a `time` marker. The structure
  (nodes and adjacency) is a value; the attributes live in a `Graph` object
  that the simulation updates in place.
 */
module Graphs {

  /** Nodes are labelled by integers, as the graph generators used with the simulation do. */
  type Node = int

  /** One sample of the random-number generator, uniform in [0, 1). */
  type Unit = r: real | 0.0 <= r < 1.0

  /** The generator's stream of samples: `rng(i)` is the i-th draw made in a run. */
  type Rng = nat -> Unit

  /** Infection flags: `true` for a zombie (flag 1), `false` for a human (flag 0). */
  type State = map<Node, bool>

  datatype Option<T> = None | Some(value: T)

  /** The exceptions the simulation can raise. */
  datatype Error =
    | ValueError        // a Bernoulli probability outside [0, 1]
    | ZeroDivisionError // the deterministic rule on a node without neighbours
    | EmptyAnimation    // the ValueError of unpacking an empty frame list into a first frame and the rest

  datatype Result<T> = Ok(value: T) | Err(error: Error)

  datatype Outcome = Pass | Fail(error: Error)

  /** Node list in iteration order and the neighbour list of every node. */
  datatype Topology = Topology(nodes: seq<Node>, adj: map<Node, seq<Node>>) {

    /** An undirected simple-adjacency graph: distinct nodes, one neighbour list per node, symmetric edges. */
    ghost predicate WellFormed() {
      && (forall i, j :: 0 <= i < j < |nodes| ==> nodes[i] != nodes[j])
      && (forall i :: 0 <= i < |nodes| ==> nodes[i] in adj)
      && (forall v {:trigger Listed(v)} :: v in adj ==> Listed(v))
      && (forall v, i :: v in adj && 0 <= i < |adj[v]| ==> adj[v][i] in adj)
      && (forall v, w {:trigger w in adj[v], v in adj[w]} :: v in adj && w in adj[v] ==> v in adj[w])
      && (forall v, i, j :: v in adj && 0 <= i < j < |adj[v]| ==> adj[v][i] != adj[v][j])
    }

    /** `v` occurs in the iteration order. */
    predicate Listed(v: Node) {
      v in nodes
    }

    /** The library's degree: the number of neighbours, a self-loop counting twice. */
    function Degree(v: Node): (d: nat)
      requires v in adj
      ensures |adj[v]| <= d <= |adj[v]| + 1
      ensures d == |adj[v]| <==> v !in adj[v]
    {
      |adj[v]| + if v in adj[v] then 1 else 0
    }
  }

  /** `z` gives a flag to exactly the nodes of `t`. */
  ghost predicate Covers(t: Topology, z: State) {
    t.WellFormed() && z.Keys == t.adj.Keys
  }

  /** Number of nodes of `nbrs` that are zombies under `z`. */
  function InfectedAmong(nbrs: seq<Node>, z: State): (k: nat)
    requires forall w :: w in nbrs ==> w in z
    ensures k <= |nbrs|
  {
    if nbrs == [] then 0
    else
      var last := nbrs[|nbrs| - 1];
      assert last in nbrs;
      InfectedAmong(nbrs[..|nbrs| - 1], z) + if z[last] then 1 else 0
  }

  /** No zombie among `nbrs` exactly when the count is 0; all are zombies exactly when it is `|nbrs|`. */
  lemma {:induction false} InfectedAmongExtremes(nbrs: seq<Node>, z: State)
    requires forall w :: w in nbrs ==> w in z
    ensures InfectedAmong(nbrs, z) == 0 <==> forall w :: w in nbrs ==> !z[w]
    ensures InfectedAmong(nbrs, z) == |nbrs| <==> forall w :: w in nbrs ==> z[w]
  {
    if nbrs != [] {
      var front, last := nbrs[..|nbrs| - 1], nbrs[|nbrs| - 1];
      assert forall w :: w in nbrs <==> w in front || w == last;
      InfectedAmongExtremes(front, z);
    }
  }

  /** Counting over a concatenation adds the two counts. */
  lemma {:induction false} InfectedAmongConcat(a: seq<Node>, b: seq<Node>, z: State)
    requires forall w :: w in a + b ==> w in z
    ensures forall w :: w in a ==> w in z
    ensures forall w :: w in b ==> w in z
    ensures InfectedAmong(a + b, z) == InfectedAmong(a, z) + InfectedAmong(b, z)
    decreases |b|
  {
    assert forall w :: w in a ==> w in a + b;
    assert forall w :: w in b ==> w in a + b;
    if b == [] {
      assert a + b == a;
    } else {
      var front := b[..|b| - 1];
      assert (a + b)[..|a + b| - 1] == a + front;
      assert (a + b)[|a + b| - 1] == b[|b| - 1];
      assert forall w :: w in a + front ==> w in a + b;
      InfectedAmongConcat(a, front, z);
    }
  }

  /** Removing the j-th element of a sequence removes one occurrence of it from its multiset. */
  lemma MultisetRemoveAt(b: seq<Node>, j: nat)
    requires j < |b|
    ensures multiset(b[..j] + b[j + 1..]) == multiset(b) - multiset{b[j]}
  {
    assert b == b[..j] + [b[j]] + b[j + 1..];
  }

  /** Removing the j-th neighbour takes its flag out of the count. */
  lemma InfectedAmongRemoveAt(b: seq<Node>, j: nat, z: State)
    requires j < |b| && forall w :: w in b ==> w in z
    ensures forall w :: w in b[..j] + b[j + 1..] ==> w in z
    ensures InfectedAmong(b, z) == InfectedAmong(b[..j] + b[j + 1..], z) + if z[b[j]] then 1 else 0
  {
    var last := b[j];
    assert b == b[..j] + [last] + b[j + 1..];
    InfectedAmongConcat(b[..j] + [last], b[j + 1..], z);
    InfectedAmongConcat(b[..j], [last], z);
    InfectedAmongConcat(b[..j], b[j + 1..], z);
    assert [last][..0] == [];
  }

  /** The count depends only on which neighbours there are, not on their order. */
  lemma {:induction false} InfectedAmongPermutation(a: seq<Node>, b: seq<Node>, z: State)
    requires multiset(a) == multiset(b)
    requires forall w :: w in a ==> w in z
    ensures forall w :: w in b ==> w in z
    ensures InfectedAmong(a, z) == InfectedAmong(b, z)
    decreases |a|
  {
    assert forall w :: w in b ==> w in multiset(b);
    if a != [] {
      var i := |a| - 1;
      var last := a[i];
      assert last in multiset(b);
      var j :| 0 <= j < |b| && b[j] == last;
      var front, rest := a[..i] + a[i + 1..], b[..j] + b[j + 1..];
      assert front == a[..i];
      MultisetRemoveAt(a, i);
      MultisetRemoveAt(b, j);
      assert forall w :: w in front ==> w in a;
      InfectedAmongPermutation(front, rest, z);
      InfectedAmongRemoveAt(b, j, z);
    }
  }

  /** At most one node of `z` is a zombie. */
  ghost predicate AtMostOneZombie(z: State) {
    forall v, w :: v in z && w in z && z[v] && z[w] ==> v == w
  }

  /** Among distinct nodes, a state with at most one zombie has at most one zombie. */
  lemma {:induction false} InfectedAmongAtMostOne(nbrs: seq<Node>, z: State)
    requires forall w :: w in nbrs ==> w in z
    requires forall i, j :: 0 <= i < j < |nbrs| ==> nbrs[i] != nbrs[j]
    requires AtMostOneZombie(z)
    ensures InfectedAmong(nbrs, z) <= 1
  {
    if nbrs != [] {
      var front, last := nbrs[..|nbrs| - 1], nbrs[|nbrs| - 1];
      assert forall w :: w in front ==> w in nbrs;
      InfectedAmongAtMostOne(front, z);
      if z[last] {
        forall w | w in front
          ensures !z[w]
        {
          var i :| 0 <= i < |front| && front[i] == w;
          assert nbrs[i] != nbrs[|nbrs| - 1];
        }
        InfectedAmongExtremes(front, z);
      }
    }
  }

  /**
    The simulated city: node list, adjacency, and the two node attributes the
    simulation uses, each as a map from node to value. Before initialisation a node
    may lack an attribute.
   */
  class Graph {
    var nodes: seq<Node>
    var adj: map<Node, seq<Node>>
    var zombie: State
    var time: map<Node, Option<nat>>

    function Shape(): Topology
      reads this
    {
      Topology(nodes, adj)
    }

    ghost predicate Valid()
      reads this
    {
      Shape().WellFormed() && zombie.Keys <= adj.Keys && time.Keys <= adj.Keys
    }

    /** Every node carries both attributes. */
    predicate Initialized()
      reads this
    {
      zombie.Keys == adj.Keys && time.Keys == adj.Keys
    }

    /** A graph as a generator hands it over: structure only, no attributes. */
    constructor (nodes: seq<Node>, adj: map<Node, seq<Node>>)
      requires Topology(nodes, adj).WellFormed()
      ensures Valid()
      ensures this.nodes == nodes && this.adj == adj && zombie == map[] && time == map[]
    {
      this.nodes := nodes;
      this.adj := adj;
      zombie := map[];
      time := map[];
    }

    /** An independent copy: same structure, same attribute values. */
    method Copy() returns (h: Graph)
      requires Valid()
      ensures fresh(h) && h.Valid()
      ensures h.nodes == nodes && h.adj == adj && h.zombie == zombie && h.time == time
    {
      h := new Graph(nodes, adj);
      h.zombie := zombie;
      h.time := time;
    }

    /** Sets the infection flag of `v` to 1, leaving every other value as it was. */
    method SetZombie(v: Node)
      requires v in zombie
      modifies this
      ensures nodes == old(nodes) && adj == old(adj) && time == old(time)
      ensures zombie == old(zombie)[v := true]
    {
      zombie := zombie[v := true];
    }
  }
}
