/** When agents are born and die, and as what: the phases of a tick against descriptions that do not mention them. */
module Births {
  import opened Words
  import opened Random
  import opened Biology
  import opened Torus
  import opened Life
  import opened Mutation

  // ---- Births ----

  /** An agent reproduces when it is alive and has the energy that its genome asks for. */
  predicate Fertile(a: Agent) {
    a.alive && a.energy >= Decode(a.genome).reproductionThreshold
  }

  function Parents(agents: seq<Agent>): seq<Agent> {
    if agents == [] then []
    else (if Fertile(agents[0]) then [agents[0]] else []) + Parents(agents[1..])
  }

  /** One of the four neighbouring cells, around the edges. */
  predicate Beside(p: Position, q: Position, width: nat, height: nat)
    requires width > 0 && height > 0
  {
    || q == Position(p.x % width, (p.y - 1) % height)
    || q == Position((p.x + 1) % width, p.y % height)
    || q == Position(p.x % width, (p.y + 1) % height)
    || q == Position((p.x - 1) % width, p.y % height)
  }

  /** The genome is the parent's with each bit flipped or not by a draw of its own from r on. */
  ghost predicate Inherits(child: Genome, parent: Genome, r: Rng, rate: real) {
    forall k :: 0 <= k < 8 * GENOME_LENGTH ==>
      GenomeBit(child, k) == if Flips(r, rate, k) then !GenomeBit(parent, k) else GenomeBit(parent, k)
  }

  /** Half of the parent's energy, a mutated copy of its genome, next to it, one generation on. */
  ghost predicate IsBirthOf(b: Birth, a: Agent, land: ValidLand, rate: real) {
    && b.parent == a.id && b.generation == a.generation + 1 && b.energy == a.energy / 2
    && Beside(a.pos, b.pos, land.width, land.height)
    && exists r :: Inherits(b.genome, a.genome, r, rate)
  }

  lemma StepIsBeside(p: Position, d: Direction, land: ValidLand)
    ensures Beside(p, Step(p, d, land), land.width, land.height)
  {
  }

  lemma BirthIs(a: Agent, land: ValidLand, rng: Rng, rate: real)
    ensures var (a', birth, _) := Reproduce(a, land, rng, rate);
            && (birth.Some? <==> Fertile(a))
            && (birth.Some? ==> IsBirthOf(birth.value, a, land, rate))
            && a' == a.(energy := if Fertile(a) then a.energy - a.energy / 2 else a.energy)
  {
    hide Mutate, Step, Decode, GenomeBit, Beside, Flips;
    if Fertile(a) {
      var (dir, rng1) := UniformInt(rng, 0, 3);
      StepIsBeside(a.pos, DirectionOf(dir), land);
      var child := Mutate(a.genome, rng1, rate).0;
      forall k | 0 <= k < 8 * GENOME_LENGTH
        ensures GenomeBit(child, k) == if Flips(rng1, rate, k) then !GenomeBit(a.genome, k) else GenomeBit(a.genome, k)
      {
        MutateExactly(a.genome, rng1, rate, 0, k);
      }
      assert Inherits(child, a.genome, rng1, rate);
    }
  }

  /** The births are, in order, those of exactly the fertile agents, and these pay for them; nobody else changes. */
  lemma {:induction false} BirthsExactly(agents: seq<Agent>, land: ValidLand, rng: Rng, rate: real)
    ensures var r := ReproduceAll(agents, land, rng, rate);
            && |r.births| == |Parents(agents)|
            && (forall k :: 0 <= k < |r.births| ==> IsBirthOf(r.births[k], Parents(agents)[k], land, rate))
            && forall i :: 0 <= i < |agents| ==>
                 r.agents[i] == agents[i].(energy := if Fertile(agents[i]) then agents[i].energy - agents[i].energy / 2
                                                     else agents[i].energy)
    decreases agents
  {
    hide Reproduce, IsBirthOf, Fertile;
    if agents != [] {
      var (a, birth, rng1) := Reproduce(agents[0], land, rng, rate);
      BirthIs(agents[0], land, rng, rate);
      BirthsExactly(agents[1..], land, rng1, rate);
    }
  }

  // ---- Deaths ----

  function Dead(agents: seq<Agent>): seq<Agent> {
    if agents == [] then []
    else (if agents[0].alive then [] else [agents[0]]) + Dead(agents[1..])
  }

  /** Exactly the dead are logged, in order, as dehydrated when they have no water left and as starved otherwise. */
  lemma {:induction false} DeathsExactly(agents: seq<Agent>, tick: nat)
    ensures var events, dead := DeathEvents(agents, tick), Dead(agents);
            && |events| == |dead|
            && forall k :: 0 <= k < |dead| ==>
                 events[k] == Died(tick, dead[k].id, if dead[k].hydration > 0 then Starvation else Dehydration)
  {
    if agents != [] {
      DeathsExactly(agents[1..], tick);
      var events, dead := DeathEvents(agents, tick), Dead(agents);
      if agents[0].alive {
        assert events == DeathEvents(agents[1..], tick) && dead == Dead(agents[1..]);
      } else {
        assert events[1..] == DeathEvents(agents[1..], tick) && dead[1..] == Dead(agents[1..]);
        forall k | 0 < k < |dead|
          ensures events[k] == Died(tick, dead[k].id, if dead[k].hydration > 0 then Starvation else Dehydration)
        {
          assert events[k] == events[1..][k - 1] && dead[k] == dead[1..][k - 1];
        }
      }
    }
  }

  // ---- The log and the population of a tick ----

  lemma {:induction false} BirthEventsAre(births: seq<Birth>, nextId: nat, tick: nat)
    ensures var events := BirthEvents(births, nextId, tick);
            && |events| == |births|
            && forall k :: 0 <= k < |births| ==>
                 events[k] == Born(tick, nextId + k, births[k].parent, births[k].generation, births[k].genome)
  {
    if births != [] {
      BirthEventsAre(births[1..], nextId + 1, tick);
    }
  }

  /** A newborn as it joins the world. */
  ghost predicate Newborn(c: Agent, parent: Agent, id: nat, w: World) {
    && c.alive && c.id == id && c.parent == Some(parent.id) && c.generation == parent.generation + 1
    && c.energy == parent.energy / 2 && c.hydration == w.cfg.startingHydration && c.facing == North
    && Beside(parent.pos, c.pos, w.land.width, w.land.height)
    && exists r :: Inherits(c.genome, parent.genome, r, w.cfg.mutationRate)
  }

  /** After the birth phase the agents are those before it, and behind them one newborn for each fertile one. */
  lemma NewbornsExactly(w: World)
    ensures var w', parents, n := AfterBirths(w), Parents(w.agents), |w.agents|;
            && |w'.agents| == n + |parents| && w'.nextId == w.nextId + |parents|
            && (forall i :: 0 <= i < n ==> w'.agents[i].(energy := w.agents[i].energy) == w.agents[i])
            && forall k :: 0 <= k < |parents| ==> Newborn(w'.agents[n + k], parents[k], w.nextId + k, w)
  {
    hide ReproduceAll, Fertile, Beside, Inherits;
    BirthsExactly(w.agents, w.land, w.rng, w.cfg.mutationRate);
    var births := ReproduceAll(w.agents, w.land, w.rng, w.cfg.mutationRate).births;
    var parents := Parents(w.agents);
    var w' := AfterBirths(w);
    forall k | 0 <= k < |parents|
      ensures Newborn(w'.agents[|w.agents| + k], parents[k], w.nextId + k, w)
    {
      assert IsBirthOf(births[k], parents[k], w.land, w.cfg.mutationRate);
      assert w'.agents[|w.agents| + k] == Child(births[k], w.nextId + k, w.cfg.startingHydration);
    }
  }

  /** Agents of whom at most the energy has changed, and live ones behind them, have the same dead. */
  lemma {:induction false} DeadStay(before: seq<Agent>, after: seq<Agent>)
    requires |before| <= |after| && forall i :: |before| <= i < |after| ==> after[i].alive
    requires forall i :: 0 <= i < |before| ==> after[i].(energy := before[i].energy) == before[i]
    ensures |Dead(after)| == |Dead(before)|
    ensures forall k :: 0 <= k < |Dead(before)| ==>
              Dead(after)[k].id == Dead(before)[k].id && Dead(after)[k].hydration == Dead(before)[k].hydration
    decreases after
  {
    if after != [] {
      if before == [] {
        DeadStay([], after[1..]);
      } else {
        DeadStay(before[1..], after[1..]);
        var a, b := Dead(after[1..]), Dead(before[1..]);
        if !before[0].alive {
          assert Dead(after) == [after[0]] + a && Dead(before) == [before[0]] + b;
        } else {
          assert Dead(after) == a && Dead(before) == b;
        }
      }
    }
  }

  ghost predicate BirthLogged(e: Event, parent: Agent, id: nat, tick: nat) {
    e.Born? && e.tick == tick && e.id == id && e.parent == parent.id && e.generation == parent.generation + 1
  }

  lemma BirthsLogged(s: World)
    ensures var parents := Parents(s.agents);
            && AfterBirths(s).log[..|s.log|] == s.log && |AfterBirths(s).log| == |s.log| + |parents|
            && forall k :: 0 <= k < |parents| ==>
                 BirthLogged(AfterBirths(s).log[|s.log| + k], parents[k], s.nextId + k, s.tick)
  {
    hide ReproduceAll, BirthEvents, Fertile, Inherits, Beside;
    BirthsExactly(s.agents, s.land, s.rng, s.cfg.mutationRate);
    var births := ReproduceAll(s.agents, s.land, s.rng, s.cfg.mutationRate).births;
    BirthEventsAre(births, s.nextId, s.tick);
    forall k | 0 <= k < |births|
      ensures BirthLogged(AfterBirths(s).log[|s.log| + k], Parents(s.agents)[k], s.nextId + k, s.tick)
    {
      assert IsBirthOf(births[k], Parents(s.agents)[k], s.land, s.cfg.mutationRate);
      assert AfterBirths(s).log[|s.log| + k] == BirthEvents(births, s.nextId, s.tick)[k];
    }
  }

  /**
   What a tick appends to the log: a birth for each agent that is fertile after the steps, with the next ids, and then
   a death for each that did not survive them; nothing else.
   */
  lemma EventsOfTheTick(w: World)
    ensures var s, log, n := AfterSteps(w), Tick(w).log, |w.log|;
            var parents, dead := Parents(s.agents), Dead(s.agents);
            && |log| == n + |parents| + |dead| && log[..n] == w.log && Tick(w).nextId == w.nextId + |parents|
            && (forall k :: 0 <= k < |parents| ==> BirthLogged(log[n + k], parents[k], w.nextId + k, w.tick))
            && forall k :: 0 <= k < |dead| ==>
                 log[n + |parents| + k] ==
                 Died(w.tick, dead[k].id, if dead[k].hydration > 0 then Starvation else Dehydration)
  {
    hide StepAgents, AfterBirths, Respawn, DeathEvents, Survivors, BirthLogged, Newborn;
    var s := AfterSteps(w);
    var b := AfterBirths(s);
    BirthsLogged(s);
    NewbornsExactly(s);
    NewbornsLive(s);
    DeadStay(s.agents, b.agents);
    DeathsExactly(b.agents, w.tick);
    assert Tick(w).log == b.log + DeathEvents(b.agents, w.tick);
  }

  lemma NewbornsLive(s: World)
    ensures forall i :: |s.agents| <= i < |AfterBirths(s).agents| ==> AfterBirths(s).agents[i].alive
    ensures AfterBirths(s).tick == s.tick
  {
    hide ReproduceAll, BirthEvents;
  }
}
