/** Regrowth cell by cell: what can grow where, and how likely. */
module Regrowth {
  import opened Words
  import opened Random
  import opened Biology
  import opened Torus
  import opened Life

  /** The chances of food, water and minerals on an empty cell at a tick. */
  function Chances(t: Terrain, rate: real, season: real): (real, real, real) {
    match t
    case Plain => (rate * season, rate * season * 0.5 * 0.5, rate * 0.1 * 0.3)
    case Forest => (rate * season * 3.0, rate * season * 0.5, rate * 0.1 * 0.5)
    case Water => (rate * season * 0.2, rate * season * 0.5 * 5.0, rate * 0.1 * 0.1)
    case Rock => (rate * season * 0.3, rate * season * 0.5 * 0.1, rate * 0.1 * 3.0)
  }

  /** A cell that holds something stays; an empty one gets one unit if its chance comes up at some draw. */
  ghost predicate Regrown(before: nat, after: nat, chance: real, rng: Rng) {
    if before != 0 then after == before
    else exists k: nat :: after == if Chance(rng.(used := k), chance).0 then 1 else 0
  }

  lemma ChancesAre(t: Terrain, cfg: Config, tick: nat)
    ensures var season := SeasonFactor(tick, cfg.yearLength);
            var (food, water, mineral) := Chances(t, cfg.foodSpawnRate, season);
            && FoodChance(t, FoodRate(cfg, tick)) == food && WaterChance(t, FoodRate(cfg, tick)) == water
            && MineralChance(t, MineralRate(cfg)) == mineral
  {
    hide SeasonFactor;
    var r := cfg.foodSpawnRate * SeasonFactor(tick, cfg.yearLength);
    assert r * 1.0 == r && r * 0.5 * 1.0 == r * 0.5;
  }

  lemma CellRegrown(cell: nat, rng: Rng, chance: real)
    ensures var (cell', rng') := GrowCell(cell, rng, chance);
            Regrown(cell, cell', chance, rng) && rng'.(used := rng.used) == rng
  {
    if cell == 0 {
      assert rng.(used := rng.used) == rng;
    }
  }

  ghost predicate CellsRegrown(before: ValidLand, after: ValidLand, i: nat, foodRate: real, mineralRate: real, rng: Rng)
    requires |after.terrain| == |before.terrain| && i < |before.terrain|
  {
    var t := before.terrain[i];
    && Regrown(before.food[i], after.food[i], FoodChance(t, foodRate), rng)
    && Regrown(before.water[i], after.water[i], WaterChance(t, foodRate), rng)
    && Regrown(before.mineral[i], after.mineral[i], MineralChance(t, mineralRate), rng)
  }

  lemma RegrownElsewhere(before: nat, after: nat, chance: real, rng: Rng, used: nat)
    requires Regrown(before, after, chance, rng.(used := used))
    ensures Regrown(before, after, chance, rng)
  {
    if before == 0 {
      var k: nat :| after == if Chance(rng.(used := used).(used := k), chance).0 then 1 else 0;
      assert rng.(used := used).(used := k) == rng.(used := k);
    }
  }

  lemma CellAt(land: ValidLand, i: nat, rng: Rng, foodRate: real, mineralRate: real)
    requires i < |land.terrain|
    ensures var g := GrowAt(land, i, rng, foodRate, mineralRate);
            && g.rng.(used := rng.used) == rng && g.land.terrain == land.terrain
            && g.land.width == land.width && g.land.height == land.height
            && CellsRegrown(land, g.land, i, foodRate, mineralRate, rng)
            && forall j :: 0 <= j < |land.terrain| && j != i ==>
                 && g.land.food[j] == land.food[j] && g.land.water[j] == land.water[j]
                 && g.land.mineral[j] == land.mineral[j]
  {
    hide Regrown, GrowCell, FoodChance, WaterChance, MineralChance;
    var t := land.terrain[i];
    var (food, rng1) := GrowCell(land.food[i], rng, FoodChance(t, foodRate));
    CellRegrown(land.food[i], rng, FoodChance(t, foodRate));
    var (water, rng2) := GrowCell(land.water[i], rng1, WaterChance(t, foodRate));
    CellRegrown(land.water[i], rng1, WaterChance(t, foodRate));
    assert rng1 == rng.(used := rng1.used) && rng2 == rng.(used := rng2.used);
    RegrownElsewhere(land.water[i], water, WaterChance(t, foodRate), rng, rng1.used);
    var (mineral, rng3) := GrowCell(land.mineral[i], rng2, MineralChance(t, mineralRate));
    CellRegrown(land.mineral[i], rng2, MineralChance(t, mineralRate));
    RegrownElsewhere(land.mineral[i], mineral, MineralChance(t, mineralRate), rng, rng2.used);
  }

  lemma {:induction false} GrownFrom(land: ValidLand, i: nat, rng: Rng, foodRate: real, mineralRate: real)
    requires i <= |land.terrain|
    ensures var g := GrowFrom(land, i, rng, foodRate, mineralRate);
            && g.rng.(used := rng.used) == rng && g.land.terrain == land.terrain
            && g.land.width == land.width && g.land.height == land.height
            && forall j :: 0 <= j < |land.terrain| ==>
                 if j < i then g.land.food[j] == land.food[j] && g.land.water[j] == land.water[j]
                               && g.land.mineral[j] == land.mineral[j]
                 else CellsRegrown(land, g.land, j, foodRate, mineralRate, rng)
    decreases |land.terrain| - i
  {
    hide GrowAt, Regrown, FoodChance, WaterChance, MineralChance;
    if i < |land.terrain| {
      var g := GrowAt(land, i, rng, foodRate, mineralRate);
      CellAt(land, i, rng, foodRate, mineralRate);
      GrownFrom(g.land, i + 1, g.rng, foodRate, mineralRate);
      var r := GrowFrom(g.land, i + 1, g.rng, foodRate, mineralRate);
      assert g.rng == rng.(used := g.rng.used);
      forall j | i < j < |land.terrain|
        ensures CellsRegrown(land, r.land, j, foodRate, mineralRate, rng)
      {
        var t := land.terrain[j];
        RegrownElsewhere(land.food[j], r.land.food[j], FoodChance(t, foodRate), rng, g.rng.used);
        RegrownElsewhere(land.water[j], r.land.water[j], WaterChance(t, foodRate), rng, g.rng.used);
        RegrownElsewhere(land.mineral[j], r.land.mineral[j], MineralChance(t, mineralRate), rng, g.rng.used);
      }
    }
  }

  /**
   Regrowth of a tick: every cell that holds something keeps it, and every empty one gets one unit with the chance of
   its terrain, the spawn rate and, for food and water, the season; terrain stays.
   */
  lemma RespawnExactly(land: ValidLand, rng: Rng, cfg: Config, tick: nat, i: nat)
    requires i < |land.terrain|
    ensures var g := Respawn(land, rng, cfg, tick);
            var season := SeasonFactor(tick, cfg.yearLength);
            var (food, water, mineral) := Chances(land.terrain[i], cfg.foodSpawnRate, season);
            && g.land.terrain == land.terrain
            && Regrown(land.food[i], g.land.food[i], food, rng)
            && Regrown(land.water[i], g.land.water[i], water, rng)
            && Regrown(land.mineral[i], g.land.mineral[i], mineral, rng)
  {
    hide GrowFrom, Regrown, Chances, FoodChance, WaterChance, MineralChance, FoodRate, MineralRate;
    GrownFrom(land, 0, rng, FoodRate(cfg, tick), MineralRate(cfg));
    ChancesAre(land.terrain[i], cfg, tick);
    assert CellsRegrown(land, Respawn(land, rng, cfg, tick).land, i, FoodRate(cfg, tick), MineralRate(cfg), rng);
  }

  /** In a tick cells grow once, in the season of that tick, out of what the steps of the agents left. */
  lemma GrowthOfTheTick(w: World, i: nat)
    requires i < |AfterSteps(w).land.terrain|
    ensures Tick(w).land.terrain == AfterSteps(w).land.terrain
    ensures var before, after := AfterSteps(w).land, Tick(w).land;
            var (food, water, mineral) :=
              Chances(before.terrain[i], w.cfg.foodSpawnRate, SeasonFactor(w.tick, w.cfg.yearLength));
            exists rng ::
              && Regrown(before.food[i], after.food[i], food, rng)
              && Regrown(before.water[i], after.water[i], water, rng)
              && Regrown(before.mineral[i], after.mineral[i], mineral, rng)
  {
    hide StepAgents, ReproduceAll, Respawn, Regrown, Chances, SeasonFactor, DeathEvents, BirthEvents;
    var b := AfterBirths(AfterSteps(w));
    RespawnExactly(b.land, b.rng, b.cfg, b.tick, i);
  }
}
