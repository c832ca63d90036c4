/**
  Small cities on which the rules can be followed by hand: a path, a star, a graph
  with a node nobody is connected to, and the names a run gives its pictures.
 */
module Scenarios {
  import opened Graphs
  import opened ColorRules
  import opened Frames
  import opened Spread

  /** The path 0 - 1 - 2. */
  function Path(): Topology {
    Topology([0, 1, 2], map[0 := [1], 1 := [0, 2], 2 := [1]])
  }

  lemma PathWellFormed()
    ensures Path().WellFormed()
  {
    var t := Path();
    forall v | v in t.adj
      ensures t.Listed(v) && forall w :: w in t.adj[v] ==> w in t.adj && v in t.adj[w]
      ensures forall i :: 0 <= i < |t.adj[v]| ==> t.adj[v][i] in t.adj
      ensures forall i, j :: 0 <= i < j < |t.adj[v]| ==> t.adj[v][i] != t.adj[v][j]
    {
      assert v == 0 || v == 1 || v == 2;
    }
  }

  /**
    target_set_selection on the path with both ends infected: the middle node has two
    zombie neighbours and turns, so after one day the whole path is infected.
   */
  lemma PathTargetSetSelection(rng: Rng, cursor: nat)
    ensures Covers(Path(), map[0 := true, 1 := false, 2 := true])
    ensures Step(Path(), map[0 := true, 1 := false, 2 := true], TargetSetSelection, rng, cursor)
            == Ok(map[0 := true, 1 := true, 2 := true])
  {
    PathWellFormed();
    var t, z := Path(), map[0 := true, 1 := false, 2 := true];
    var all := map[0 := true, 1 := true, 2 := true];
    assert InfectedAmong(t.adj[1], z) == 2;
    StepKeys(t, z, TargetSetSelection, rng, cursor);
    var r := Step(t, z, TargetSetSelection, rng, cursor).value;
    StepAt(t, z, TargetSetSelection, rng, cursor, 0);
    StepAt(t, z, TargetSetSelection, rng, cursor, 1);
    StepAt(t, z, TargetSetSelection, rng, cursor, 2);
    assert r.Keys == all.Keys;
    assert r == all;
  }

  /** With only one end infected the middle node sees one zombie: target_set_selection changes nothing. */
  lemma PathOneZombieStable(rng: Rng, cursor: nat, days: nat)
    ensures Covers(Path(), map[0 := true, 1 := false, 2 := false])
    ensures Simulate(Path(), map[0 := true, 1 := false, 2 := false], TargetSetSelection, rng, cursor, days)
            == Ok(map[0 := true, 1 := false, 2 := false])
  {
    PathWellFormed();
    var t, z := Path(), map[0 := true, 1 := false, 2 := false];
    StepKeys(t, z, TargetSetSelection, rng, cursor);
    var r := Step(t, z, TargetSetSelection, rng, cursor).value;
    assert InfectedAmong(t.adj[0], z) == 0;
    assert InfectedAmong(t.adj[1], z) == 1;
    assert InfectedAmong(t.adj[2], z) == 0;
    StepAt(t, z, TargetSetSelection, rng, cursor, 0);
    StepAt(t, z, TargetSetSelection, rng, cursor, 1);
    StepAt(t, z, TargetSetSelection, rng, cursor, 2);
    assert r.Keys == z.Keys;
    assert r == z;
    SimulateStable(t, z, TargetSetSelection, rng, cursor, days);
  }

  /** The cycle 0 - 1 - 2 - 3 - 4 - 0. */
  function Cycle(): Topology {
    Topology([0, 1, 2, 3, 4], map[0 := [1, 4], 1 := [0, 2], 2 := [1, 3], 3 := [2, 4], 4 := [3, 0]])
  }

  lemma CycleWellFormed()
    ensures Cycle().WellFormed()
  {
    var t := Cycle();
    forall v | v in t.adj
      ensures t.Listed(v) && forall w :: w in t.adj[v] ==> w in t.adj && v in t.adj[w]
      ensures forall i :: 0 <= i < |t.adj[v]| ==> t.adj[v][i] in t.adj
      ensures forall i, j :: 0 <= i < j < |t.adj[v]| ==> t.adj[v][i] != t.adj[v][j]
    {
      assert v == 0 || v == 1 || v == 2 || v == 3 || v == 4;
    }
  }

  /** On the five-cycle with node 0 infected, three days of target_set_selection infect nobody else. */
  lemma CycleOneZombieThreeDays(rng: Rng, cursor: nat)
    ensures Covers(Cycle(), map[0 := true, 1 := false, 2 := false, 3 := false, 4 := false])
    ensures Simulate(Cycle(), map[0 := true, 1 := false, 2 := false, 3 := false, 4 := false], TargetSetSelection, rng, cursor, 3)
            == Ok(map[0 := true, 1 := false, 2 := false, 3 := false, 4 := false])
  {
    CycleWellFormed();
    LoneZombieRun(Cycle(), map[0 := true, 1 := false, 2 := false, 3 := false, 4 := false], rng, cursor, 3);
  }

  /** The star with centre 0 and leaves 1, 2 and 3. */
  function Star(): Topology {
    Topology([0, 1, 2, 3], map[0 := [1, 2, 3], 1 := [0], 2 := [0], 3 := [0]])
  }

  lemma StarWellFormed()
    ensures Star().WellFormed()
  {
    var t := Star();
    forall v | v in t.adj
      ensures t.Listed(v) && forall w :: w in t.adj[v] ==> w in t.adj && v in t.adj[w]
      ensures forall i :: 0 <= i < |t.adj[v]| ==> t.adj[v][i] in t.adj
      ensures forall i, j :: 0 <= i < j < |t.adj[v]| ==> t.adj[v][i] != t.adj[v][j]
    {
      assert v == 0 || v == 1 || v == 2 || v == 3;
    }
  }

  /** Every node of the star has a neighbour, so the deterministic rule can be applied to it. */
  lemma StarHasNoIsolatedNode()
    ensures Star().WellFormed() && !HasIsolatedNode(Star())
  {
    StarWellFormed();
    NoIsolatedNode(Star());
  }

  /**
    deterministic at the centre of the star: a single zombie leaf out of three is not more
    than a third of the neighbours, so the centre stays human.
   */
  lemma StarOneZombieLeaf(rng: Rng, cursor: nat)
    ensures Covers(Star(), map[0 := false, 1 := true, 2 := false, 3 := false])
    ensures var r := Step(Star(), map[0 := false, 1 := true, 2 := false, 3 := false], Deterministic, rng, cursor);
            r.Ok? && 0 in r.value && !r.value[0]
  {
    var z := map[0 := false, 1 := true, 2 := false, 3 := false];
    StarHasNoIsolatedNode();
    assert InfectedAmong(Star().adj[0], z) == 1;
    StepAt(Star(), z, Deterministic, rng, cursor, 0);
  }

  /** Two zombie leaves out of three are more than a third: the centre of the star turns. */
  lemma StarTwoZombieLeaves(rng: Rng, cursor: nat)
    ensures Covers(Star(), map[0 := false, 1 := true, 2 := true, 3 := false])
    ensures var r := Step(Star(), map[0 := false, 1 := true, 2 := true, 3 := false], Deterministic, rng, cursor);
            r.Ok? && 0 in r.value && r.value[0]
  {
    var z := map[0 := false, 1 := true, 2 := true, 3 := false];
    StarHasNoIsolatedNode();
    assert InfectedAmong(Star().adj[0], z) == 2;
    StepAt(Star(), z, Deterministic, rng, cursor, 0);
  }

  /** The path with a fourth node 3 that has no neighbour. */
  function PathAndLoner(): Topology {
    Topology([0, 1, 2, 3], map[0 := [1], 1 := [0, 2], 2 := [1], 3 := []])
  }

  lemma PathAndLonerWellFormed()
    ensures PathAndLoner().WellFormed()
  {
    var t := PathAndLoner();
    forall v | v in t.adj
      ensures t.Listed(v) && forall w :: w in t.adj[v] ==> w in t.adj && v in t.adj[w]
      ensures forall i :: 0 <= i < |t.adj[v]| ==> t.adj[v][i] in t.adj
      ensures forall i, j :: 0 <= i < j < |t.adj[v]| ==> t.adj[v][i] != t.adj[v][j]
    {
      assert v == 0 || v == 1 || v == 2 || v == 3;
    }
  }

  /** The deterministic rule divides by zero at the lone node: the run fails on its first day. */
  lemma LonerBreaksDeterministic(z: State, rng: Rng, cursor: nat, days: nat)
    requires z.Keys == PathAndLoner().adj.Keys && days > 0
    ensures Covers(PathAndLoner(), z)
    ensures Simulate(PathAndLoner(), z, Deterministic, rng, cursor, days) == Err(ZeroDivisionError)
  {
    PathAndLonerWellFormed();
    var t := PathAndLoner();
    assert 3 in t.adj && t.adj[3] == [];
    SimulateFails(t, z, Deterministic, rng, cursor, days);
  }

  /** The pictures of a two-day static stochastic run, in the order they are saved. */
  lemma StaticRunFrames()
    ensures DirLoc("stochastic", false, true) == "stochastic/static"
    ensures SavedFrames("stochastic/static", 2, false)
            == ["stochastic/static/zombies-0.png", "stochastic/static/zombies-1.png"]
  {
    assert NatToString(0) == "0" && NatToString(1) == "1";
    assert FrameLoc("stochastic/static", 0, false) == "stochastic/static/zombies-0.png";
    assert FrameLoc("stochastic/static", 1, false) == "stochastic/static/zombies-1.png";
  }

  /** A dynamic run saves each day twice, the second picture marked "-edges". */
  lemma DynamicRunFrames()
    ensures DirLoc("deterministic", true, true) == "deterministic/dynamic"
    ensures SavedFrames("deterministic/dynamic", 1, true)
            == ["deterministic/dynamic/zombies-0.png", "deterministic/dynamic/zombies-0-edges.png"]
  {
    assert NatToString(0) == "0";
    assert FrameLoc("deterministic/dynamic", 0, false) == "deterministic/dynamic/zombies-0.png";
    assert FrameLoc("deterministic/dynamic", 0, true) == "deterministic/dynamic/zombies-0-edges.png";
  }
}
