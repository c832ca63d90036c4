/**
  The simulation driver: seeds the first zombies, then runs the chosen color
  changing rule day after day, saving a picture of the city each day and, at the
  end, an animation of the saved pictures.
 */
module Spread {
  import opened Graphs
  import opened ColorRules
  import opened Frames

  /** The probability with which `zombie_spread` makes each node an initial zombie. */
  const InitialZombieRate: real := 0.3

  /** A map with an entry for every listed node, and for nodes of the graph only, has exactly the graph's nodes as keys. */
  lemma ListedKeys<V>(t: Topology, m: map<Node, V>)
    requires t.WellFormed() && m.Keys <= t.adj.Keys
    requires forall j :: 0 <= j < |t.nodes| ==> t.nodes[j] in m
    ensures m.Keys == t.adj.Keys
  {
    forall v | v in t.adj
      ensures v in m
    {
      var j := IndexOf(t, v);
    }
  }

  /**
    `initialize`: visits the nodes in order and gives each a zombie flag drawn with
    probability `p` and an unset infection time. A probability outside [0, 1] is
    rejected at the first node, before anything is written.
   */
  method Initialize(g: Graph, p: real, rng: Rng, cursor: nat) returns (o: Outcome)
    requires g.Valid()
    modifies g
    ensures g.nodes == old(g.nodes) && g.adj == old(g.adj)
    ensures o.Fail? <==> g.nodes != [] && (p < 0.0 || p > 1.0)
    ensures o.Fail? ==> o.error == ValueError && g.zombie == old(g.zombie) && g.time == old(g.time)
    ensures o.Pass? ==> && g.Valid() && g.Initialized()
                        && (forall i :: 0 <= i < |g.nodes| ==> g.zombie[g.nodes[i]] == Bernoulli(p, rng(cursor + i)))
                        && (forall i :: 0 <= i < |g.nodes| ==> g.time[g.nodes[i]] == None)
  {
    var i := 0;
    while i < |g.nodes|
      invariant i <= |g.nodes|
      invariant g.nodes == old(g.nodes) && g.adj == old(g.adj) && g.Valid()
      invariant forall j :: 0 <= j < i ==> g.nodes[j] in g.zombie && g.zombie[g.nodes[j]] == Bernoulli(p, rng(cursor + j))
      invariant forall j :: 0 <= j < i ==> g.nodes[j] in g.time && g.time[g.nodes[j]] == None
      invariant i == 0 ==> g.zombie == old(g.zombie) && g.time == old(g.time)
      invariant i > 0 ==> 0.0 <= p <= 1.0
    {
      var v := g.nodes[i];
      var zombie := Binomial(p, rng(cursor + i));
      if zombie.Err? {
        return Fail(zombie.error);
      }
      g.zombie := g.zombie[v := zombie.value];
      g.time := g.time[v := None];
      i := i + 1;
    }
    ListedKeys(g.Shape(), g.zombie);
    ListedKeys(g.Shape(), g.time);
    o := Pass;
  }

  /**
    The flags after `days` timesteps of `rule` from `z`: the first step draws from
    `rng(cursor)` on, each later step after the draws of the one before, and the first
    failing step ends the run.
   */
  function Simulate(t: Topology, z: State, rule: Rule, rng: Rng, cursor: nat, days: nat): (r: Result<State>)
    requires Covers(t, z)
    decreases days
  {
    if days == 0 then Ok(z)
    else
      match Step(t, z, rule, rng, cursor)
      case Err(e) => Err(e)
      case Ok(y) =>
        StepKeys(t, z, rule, rng, cursor);
        Simulate(t, y, rule, rng, cursor + DrawsPerStep(t, rule), days - 1)
  }

  /** A run fails exactly when it is a deterministic run of at least one day on a graph with an isolated node. */
  lemma {:induction false} SimulateFails(t: Topology, z: State, rule: Rule, rng: Rng, cursor: nat, days: nat)
    requires Covers(t, z)
    ensures Simulate(t, z, rule, rng, cursor, days).Err?
            <==> days > 0 && rule == Deterministic && HasIsolatedNode(t)
    ensures Simulate(t, z, rule, rng, cursor, days).Err? ==>
              Simulate(t, z, rule, rng, cursor, days).error == ZeroDivisionError
    decreases days
  {
    if days > 0 && Step(t, z, rule, rng, cursor).Ok? {
      StepKeys(t, z, rule, rng, cursor);
      SimulateFails(t, Step(t, z, rule, rng, cursor).value, rule, rng, cursor + DrawsPerStep(t, rule), days - 1);
    }
  }

  /** Nobody is ever cured: every initial zombie is still a zombie after any number of days. */
  lemma {:induction false} SimulateMonotone(t: Topology, z: State, rule: Rule, rng: Rng, cursor: nat, days: nat)
    requires Covers(t, z)
    ensures Simulate(t, z, rule, rng, cursor, days).Ok? ==>
              forall v :: v in z && z[v] ==> v in Simulate(t, z, rule, rng, cursor, days).value && Simulate(t, z, rule, rng, cursor, days).value[v]
    decreases days
  {
    if days > 0 && Step(t, z, rule, rng, cursor).Ok? {
      StepMonotone(t, z, rule, rng, cursor);
      var y := Step(t, z, rule, rng, cursor).value;
      SimulateMonotone(t, y, rule, rng, cursor + DrawsPerStep(t, rule), days - 1);
    }
  }

  /** Under an unrecognised rule name the city never changes. */
  lemma {:induction false} SimulateUnrecognised(t: Topology, z: State, rule: Rule, rng: Rng, cursor: nat, days: nat)
    requires Covers(t, z) && rule == Unrecognised
    ensures Simulate(t, z, rule, rng, cursor, days) == Ok(z)
    decreases days
  {
    if days > 0 {
      UnrecognisedRuleKeepsState(t, z, rule, rng, cursor);
      SimulateUnrecognised(t, z, rule, rng, cursor + DrawsPerStep(t, rule), days - 1);
    }
  }

  /** Under a rule that draws nothing, a state that one step leaves unchanged stays unchanged for any number of days. */
  lemma {:induction false} SimulateStable(t: Topology, z: State, rule: Rule, rng: Rng, cursor: nat, days: nat)
    requires Covers(t, z) && rule != Stochastic
    requires Step(t, z, rule, rng, cursor) == Ok(z)
    ensures Simulate(t, z, rule, rng, cursor, days) == Ok(z)
    decreases days
  {
    if days > 0 {
      StepIgnoresVisitOrder(t, t, z, rule, rng, cursor, rng, cursor + DrawsPerStep(t, rule));
      SimulateStable(t, z, rule, rng, cursor + DrawsPerStep(t, rule), days - 1);
    }
  }

  /** Under target_set_selection a city with at most one zombie keeps exactly that zombie (or none) forever. */
  lemma LoneZombieRun(t: Topology, z: State, rng: Rng, cursor: nat, days: nat)
    requires Covers(t, z) && AtMostOneZombie(z)
    ensures Simulate(t, z, TargetSetSelection, rng, cursor, days) == Ok(z)
  {
    LoneZombieStaysAlone(t, z, rng, cursor);
    SimulateStable(t, z, TargetSetSelection, rng, cursor, days);
  }

  /** The directory of a run: the rule name, refined by the kind of run when images are saved. */
  function DirLoc(rule: string, updateGraph: bool, saveImages: bool): string {
    if !saveImages then rule
    else if updateGraph then rule + "/dynamic"
    else rule + "/static"
  }

  /** `animate`: the GIF of the saved frames in the run's directory; it needs a first frame to start from. */
  function Animate(imglist: seq<string>, saveloc: string): (r: Result<Animation>)
    ensures r.Err? <==> imglist == []
    ensures r.Err? ==> r.error == EmptyAnimation
    ensures r.Ok? ==> r.value.location == saveloc + "/zombies.gif" && r.value.frames == imglist
  {
    if imglist == [] then Err(EmptyAnimation)
    else Ok(Animation(saveloc + "/zombies.gif", [imglist[0]] + imglist[1..]))
  }

  /** `update_edges`, whose edge removal is not written yet: an independent copy of the city. */
  method UpdateEdges(g: Graph, p: real) returns (h: Graph)
    requires g.Valid()
    ensures fresh(h) && h.Valid()
    ensures h.nodes == g.nodes && h.adj == g.adj && h.zombie == g.zombie && h.time == g.time
  {
    h := g.Copy();
  }

  /** What a run leaves behind: the final city, the saved frames in order, and the animation if one was made. */
  datatype Run = Run(city: Graph, frames: seq<string>, animation: Option<Animation>)

  /** The number of days `range(timesteps)` counts. */
  function Days(timesteps: int): nat {
    if timesteps > 0 then timesteps else 0
  }

  /**
    The pictures of day `day`: the city, and on a dynamic run the city once more after the
    edge update. The saved frames of the days before are followed by those of this day.
   */
  method SaveDay(imglist: ImageList, dirloc: string, day: nat, updateGraph: bool, saveImages: bool, showImages: bool)
    requires imglist.paths == if saveImages then SavedFrames(dirloc, day, updateGraph) else []
    modifies imglist
    ensures imglist.paths == if saveImages then SavedFrames(dirloc, day + 1, updateGraph) else []
  {
    var stem := dirloc + "/zombies-" + NatToString(day);
    imglist.DrawAndSave(stem, saveImages, showImages);
    if updateGraph {
      imglist.DrawAndSave(stem + "-edges", saveImages, showImages);
    }
  }

  /**
    One day of the run: the city the rule computes from `city`, which leaves `days - 1`
    days of the run to go, or the error that ends the run; also where the next day starts drawing.
   */
  method NextCity(city: Graph, t: Topology, day: nat, rule: string, rl: Rule, rng: Rng, draw: nat, days: nat,
                  ghost outcome: Result<State>) returns (r: Result<Graph>, next: nat)
    requires city.Valid() && city.Initialized() && city.Shape() == t && rl == RuleNamed(rule) && days > 0
    requires outcome == Simulate(t, city.zombie, rl, rng, draw, days)
    ensures r.Err? ==> outcome == Err(r.error)
    ensures r.Ok? ==> && fresh(r.value) && r.value.Valid() && r.value.Initialized()
                      && r.value.nodes == city.nodes && r.value.adj == city.adj && r.value.time == city.time
                      && outcome == Simulate(t, r.value.zombie, rl, rng, next, days - 1)
    ensures next == draw + DrawsPerStep(t, rl)
  {
    SimulateFirstDay(t, city.zombie, rl, rng, draw, days);
    r := UpdateColor(city, day, rule, rng, draw);
    next := draw + DrawsPerStep(t, rl);
  }

  /**
    The day loop of `zombie_spread`: for every day from 0, saves the day's picture (and
    its second picture on a dynamic run) under `dirloc`, then replaces the city by the one
    the rule computes. The days draw their samples from `rng(start)` on.
   */
  method RunDays(g: Graph, timesteps: int, rule: string, dirloc: string, updateGraph: bool, saveImages: bool,
                 showImages: bool, imglist: ImageList, rng: Rng, start: nat) returns (r: Result<Graph>)
    requires g.Valid() && g.Initialized() && imglist.paths == []
    modifies imglist
    ensures var outcome := Simulate(g.Shape(), g.zombie, RuleNamed(rule), rng, start, Days(timesteps));
            && (r.Err? <==> outcome.Err?)
            && (r.Err? ==> r.error == outcome.error)
            && (r.Ok? ==> && outcome.Ok?
                          && r.value.Valid() && r.value.Initialized()
                          && r.value.nodes == g.nodes && r.value.adj == g.adj
                          && r.value.zombie == outcome.value && r.value.time == g.time
                          && (Days(timesteps) == 0 ==> r.value == g)
                          && (Days(timesteps) > 0 ==> fresh(r.value))
                          && imglist.paths == if saveImages then SavedFrames(dirloc, Days(timesteps), updateGraph) else [])
  {
    var t, rl := g.Shape(), RuleNamed(rule);
    ghost var outcome := Simulate(t, g.zombie, rl, rng, start, Days(timesteps));
    var draw: nat := start;
    var city := g;
    var day, left := 0, Days(timesteps);
    while left > 0
      invariant day + left == Days(timesteps)
      invariant city.Valid() && city.Initialized() && city.nodes == g.nodes && city.adj == g.adj && city.time == g.time
      invariant outcome == Simulate(t, city.zombie, rl, rng, draw, left)
      invariant day == 0 ==> city == g
      invariant day > 0 ==> fresh(city)
      invariant imglist.paths == if saveImages then SavedFrames(dirloc, day, updateGraph) else []
    {
      SaveDay(imglist, dirloc, day, updateGraph, saveImages, showImages);
      var next, nextDraw := NextCity(city, t, day, rule, rl, rng, draw, left, outcome);
      if next.Err? {
        return Err(next.error);
      }
      city, draw := next.value, nextDraw;
      day, left := day + 1, left - 1;
    }
    r := Ok(city);
  }

  /**
    `zombie_spread`: seeds zombies in `g` itself with probability 0.3, then for every day
    saves a picture (two on a dynamic run), applies the rule to get the next city, and
    finally animates the saved pictures if asked to. The seeding draws the first
    |nodes| samples from `rng(cursor)` on; the days draw the samples after them.
   */
  method ZombieSpread(g: Graph, timesteps: int, rule: string, updateGraph: bool, saveImages: bool,
                      showImages: bool, animImages: bool, rng: Rng, cursor: nat) returns (r: Result<Run>)
    requires g.Valid()
    modifies g
    ensures g.nodes == old(g.nodes) && g.adj == old(g.adj)
    ensures g.Valid() && g.Initialized()
    ensures forall i :: 0 <= i < |g.nodes| ==> g.zombie[g.nodes[i]] == Bernoulli(InitialZombieRate, rng(cursor + i))
    ensures forall i :: 0 <= i < |g.nodes| ==> g.time[g.nodes[i]] == None
    ensures var outcome := Simulate(g.Shape(), g.zombie, RuleNamed(rule), rng, cursor + |g.nodes|, Days(timesteps));
            var dirloc := DirLoc(rule, updateGraph, saveImages);
            && (r.Err? <==> outcome.Err? || (Days(timesteps) == 0 && saveImages && animImages))
            && (r.Err? ==> r.error == if outcome.Err? then outcome.error else EmptyAnimation)
            && (r.Ok? ==> && outcome.Ok?
                          && r.value.city.Valid() && r.value.city.Initialized()
                          && r.value.city.nodes == g.nodes && r.value.city.adj == g.adj
                          && r.value.city.zombie == outcome.value && r.value.city.time == g.time
                          && (Days(timesteps) == 0 ==> r.value.city == g)
                          && (Days(timesteps) > 0 ==> fresh(r.value.city))
                          && r.value.frames == (if saveImages then SavedFrames(dirloc, Days(timesteps), updateGraph) else [])
                          && r.value.animation == if saveImages && animImages
                                                  then Some(Animation(dirloc + "/zombies.gif", r.value.frames))
                                                  else None)
  {
    var dirloc := rule;
    var imglist := new ImageList();
    if saveImages {
      if updateGraph {
        dirloc := dirloc + "/dynamic";
      } else {
        dirloc := dirloc + "/static";
      }
    }
    assert dirloc == DirLoc(rule, updateGraph, saveImages);
    var seeded := Initialize(g, InitialZombieRate, rng, cursor);
    var city := RunDays(g, timesteps, rule, dirloc, updateGraph, saveImages, showImages, imglist, rng, cursor + |g.nodes|);
    if city.Err? {
      return Err(city.error);
    }
    var animation := None;
    if animImages && saveImages {
      FramesLength(dirloc, Days(timesteps), updateGraph);
      var gif := Animate(imglist.paths, dirloc);
      if gif.Err? {
        return Err(gif.error);
      }
      animation := Some(gif.value);
    }
    r := Ok(Run(city.value, imglist.paths, animation));
  }

  /** A run of at least one day is its first step followed by a run of the remaining days. */
  lemma SimulateFirstDay(t: Topology, z: State, rule: Rule, rng: Rng, cursor: nat, days: nat)
    requires Covers(t, z) && days > 0
    ensures Step(t, z, rule, rng, cursor).Err? ==>
              Simulate(t, z, rule, rng, cursor, days) == Err(Step(t, z, rule, rng, cursor).error)
    ensures Step(t, z, rule, rng, cursor).Ok? ==>
              && Covers(t, Step(t, z, rule, rng, cursor).value)
              && Simulate(t, z, rule, rng, cursor, days)
                 == Simulate(t, Step(t, z, rule, rng, cursor).value, rule, rng, cursor + DrawsPerStep(t, rule), days - 1)
  {
    StepKeys(t, z, rule, rng, cursor);
  }
}
