/**
 The family history of a run: the log of births and deaths, replayed by an automaton that knows who lives.
 Replaying the log of any run accepts every event and ends with exactly the agents of the world.
 */
module Lineage {
  import opened Words
  import opened Random
  import opened Biology
  import opened Torus
  import opened Life
  import opened LifeProperties

  /** Who lives, with their generations, and the next id to give out. */
  datatype Registry = Registry(living: map<nat, nat>, next: nat)

  /** A birth takes the next id and a living parent one generation up; a death takes a living agent. */
  function Admit(r: Registry, e: Event): Option<Registry> {
    match e
    case Born(_, id, parent, generation, _) =>
      if id == r.next && parent in r.living && generation == r.living[parent] + 1 then
        Some(Registry(r.living[id := generation], r.next + 1))
      else None
    case Died(_, id, _) =>
      if id in r.living then Some(Registry(r.living - {id}, r.next)) else None
  }

  function Replay(r: Registry, log: seq<Event>): Option<Registry>
    decreases log
  {
    if log == [] then Some(r)
    else
      var next := Admit(r, log[0]);
      if next.None? then None else Replay(next.value, log[1..])
  }

  lemma {:induction false} ReplayConcat(r: Registry, a: seq<Event>, b: seq<Event>)
    requires Replay(r, a).Some?
    ensures Replay(r, a + b) == Replay(Replay(r, a).value, b)
    decreases a
  {
    hide Admit;
    if a == [] {
      assert a + b == b;
    } else {
      assert (a + b)[1..] == a[1..] + b;
      ReplayConcat(Admit(r, a[0]).value, a[1..], b);
    }
  }

  // ---- What an accepted log means ----

  ghost predicate Sound(r: Registry) {
    forall id :: id in r.living ==> id < r.next
  }

  /** Once dead or never born, an id with its number given out stays out of the log. */
  lemma {:induction false} GoneForever(r: Registry, log: seq<Event>, id: nat, k: nat)
    requires Replay(r, log).Some? && id !in r.living && id < r.next && k < |log|
    ensures log[k].id != id && (log[k].Born? ==> log[k].parent != id)
    decreases log
  {
    if k > 0 {
      GoneForever(Admit(r, log[0]).value, log[1..], id, k - 1);
    }
  }

  lemma {:induction false} ReplaySound(r: Registry, log: seq<Event>)
    requires Sound(r) && Replay(r, log).Some?
    ensures Sound(Replay(r, log).value) && Replay(r, log).value.next >= r.next
    decreases log
  {
    if log != [] {
      ReplaySound(Admit(r, log[0]).value, log[1..]);
    }
  }

  lemma {:induction false} ReplayPrefix(r: Registry, log: seq<Event>, k: nat)
    requires Replay(r, log).Some? && k <= |log|
    ensures Replay(r, log[..k]).Some? && Replay(Replay(r, log[..k]).value, log[k..]).Some?
    decreases log
  {
    hide Admit;
    if k == 0 {
      assert log[..0] == [] && log[0..] == log;
    } else {
      assert log[1..][..k - 1] == log[..k][1..] && log[1..][k - 1..] == log[k..];
      ReplayPrefix(Admit(r, log[0]).value, log[1..], k - 1);
    }
  }

  /**
   In an accepted log no agent dies twice, gives birth after its death or is born again after it, no id is given twice,
   later births have larger ids, and every parent is older than its child.
   */
  lemma HistoryIsOrderly(r: Registry, log: seq<Event>, i: nat, j: nat)
    requires Sound(r) && Replay(r, log).Some? && i < j < |log|
    ensures log[i].Died? ==> log[j].id != log[i].id && (log[j].Born? ==> log[j].parent != log[i].id)
    ensures log[i].Born? && log[j].Born? ==> log[i].id < log[j].id
    ensures log[j].Born? ==> log[j].parent < log[j].id
    ensures log[i].Born? ==> log[i].parent < log[i].id
  {
    hide Replay;
    ReplayPrefix(r, log, i);
    ReplaySound(r, log[..i]);
    var at := Replay(r, log[..i]).value;
    FirstEvent(at, log[i..]);
    var after := Admit(at, log[i]).value;
    assert log[i..][1..] == log[i + 1..];
    ReplayPrefix(after, log[i + 1..], j - i - 1);
    ReplaySound(after, log[i + 1..][..j - i - 1]);
    var later := Replay(after, log[i + 1..][..j - i - 1]).value;
    FirstEvent(later, log[i + 1..][j - i - 1..]);
    if log[i].Died? {
      GoneForever(after, log[i + 1..], log[i].id, j - i - 1);
    }
  }

  lemma FirstEvent(r: Registry, log: seq<Event>)
    requires log != [] && Replay(r, log).Some? && Sound(r)
    ensures Admit(r, log[0]).Some? && Sound(Admit(r, log[0]).value)
    ensures Replay(Admit(r, log[0]).value, log[1..]).Some?
    ensures log[0].Born? ==> log[0].parent < log[0].id == r.next
  {
  }

  // ---- The registry of a world ----

  function Roster(agents: seq<Agent>): map<nat, nat> {
    if agents == [] then map[] else Roster(agents[1..])[agents[0].id := agents[0].generation]
  }

  function RegistryOf(w: World): Registry {
    Registry(Roster(w.agents), w.nextId)
  }

  /** Ids increase strictly along the vector and lie below the next one. */
  ghost predicate InOrder(agents: seq<Agent>, next: nat) {
    && (forall i, j :: 0 <= i < j < |agents| ==> agents[i].id < agents[j].id)
    && (forall i :: 0 <= i < |agents| ==> agents[i].id < next)
  }

  lemma {:induction false} RosterHas(agents: seq<Agent>, next: nat)
    requires InOrder(agents, next)
    ensures forall i :: 0 <= i < |agents| ==>
              agents[i].id in Roster(agents) && Roster(agents)[agents[i].id] == agents[i].generation
    ensures forall id :: id in Roster(agents) ==> id < next && (agents == [] || agents[0].id <= id)
  {
    if agents != [] {
      RosterHas(agents[1..], next);
    }
  }

  lemma {:induction false} RosterSize(agents: seq<Agent>, next: nat)
    requires InOrder(agents, next)
    ensures |Roster(agents)| == |agents|
  {
    if agents != [] {
      RosterHas(agents[1..], next);
      RosterSize(agents[1..], next);
      assert agents[0].id !in Roster(agents[1..]) by {
        if |agents| > 1 {
          assert agents[0].id < agents[1].id;
        }
      }
      assert Roster(agents).Keys == Roster(agents[1..]).Keys + {agents[0].id};
    }
  }

  lemma {:induction false} RosterAppend(agents: seq<Agent>, a: Agent)
    requires InOrder(agents, a.id)
    ensures Roster(agents + [a]) == Roster(agents)[a.id := a.generation]
  {
    if agents == [] {
      assert agents + [a] == [a];
      assert [a][1..] == [];
    } else {
      assert (agents + [a])[1..] == agents[1..] + [a];
      RosterAppend(agents[1..], a);
    }
  }

  lemma RosterFirst(a: Agent, rest: seq<Agent>)
    ensures Roster([a] + rest) == Roster(rest)[a.id := a.generation]
  {
    assert ([a] + rest)[1..] == rest;
  }

  lemma RemoveOther(m: map<nat, nat>, id: nat, generation: nat, gone: nat)
    requires id != gone
    ensures m[id := generation] - {gone} == (m - {gone})[id := generation]
  {
  }

  lemma RemoveFirst(m: map<nat, nat>, id: nat, generation: nat)
    requires id !in m
    ensures m[id := generation] - {id} == m
  {
  }

  lemma HeadFresh(a: Agent, rest: seq<Agent>, next: nat)
    requires InOrder([a] + rest, next)
    ensures a.id !in Roster(rest) && InOrder(rest, next)
  {
    var all := [a] + rest;
    InOrderRest(all, next);
    assert all[1..] == rest;
    RosterHas(rest, next);
    if rest != [] {
      assert all[0].id < all[1].id;
    }
  }

  lemma HeadDiffers(before: seq<Agent>, a: Agent, rest: seq<Agent>, next: nat)
    requires InOrder(before + [a] + rest, next) && before != []
    ensures before[0].id != a.id && InOrder(before[1..] + [a] + rest, next)
    ensures before + [a] + rest == [before[0]] + (before[1..] + [a] + rest)
    ensures before + rest == [before[0]] + (before[1..] + rest)
  {
    var all := before + [a] + rest;
    InOrderRest(all, next);
    assert all[1..] == before[1..] + [a] + rest;
    assert all[0] == before[0] && all[|before|] == a;
  }

  lemma {:induction false} RosterRemove(before: seq<Agent>, a: Agent, rest: seq<Agent>, next: nat)
    requires InOrder(before + [a] + rest, next)
    ensures Roster(before + [a] + rest) - {a.id} == Roster(before + rest)
  {
    hide Roster, InOrder;
    if before == [] {
      assert before + [a] + rest == [a] + rest && before + rest == rest;
      HeadFresh(a, rest, next);
      RosterFirst(a, rest);
      RemoveFirst(Roster(rest), a.id, a.generation);
    } else {
      var b, more := before[0], before[1..];
      HeadDiffers(before, a, rest, next);
      RosterFirst(b, more + [a] + rest);
      RosterFirst(b, more + rest);
      RosterRemove(more, a, rest, next);
      RemoveOther(Roster(more + [a] + rest), b.id, b.generation, a.id);
    }
  }

  lemma InOrderRest(agents: seq<Agent>, next: nat)
    requires InOrder(agents, next) && agents != []
    ensures InOrder(agents[1..], next)
  {
  }

  // ---- Stepping, births, growth, deaths ----

  /** Every birth has a living parent among the agents, one generation up. */
  ghost predicate ParentsAmong(births: seq<Birth>, agents: seq<Agent>) {
    forall k :: 0 <= k < |births| ==> HasParent(births[k], agents)
  }

  ghost predicate HasParent(b: Birth, agents: seq<Agent>) {
    exists i :: 0 <= i < |agents| &&
      agents[i].alive && agents[i].id == b.parent && agents[i].generation + 1 == b.generation
  }

  lemma HasParentMore(b: Birth, agents: seq<Agent>)
    requires agents != [] && HasParent(b, agents[1..])
    ensures HasParent(b, agents)
  {
    var rest := agents[1..];
    var i :| 0 <= i < |rest| && rest[i].alive && rest[i].id == b.parent && rest[i].generation + 1 == b.generation;
    assert agents[i + 1] == rest[i];
  }

  lemma {:induction false} BirthsHaveParents(agents: seq<Agent>, land: ValidLand, rng: Rng, rate: real)
    ensures ParentsAmong(ReproduceAll(agents, land, rng, rate).births, agents)
    decreases agents
  {
    hide Reproduce;
    if agents != [] {
      OneBirthSharesEnergy(agents[0], land, rng, rate);
      var (a, birth, rng1) := Reproduce(agents[0], land, rng, rate);
      BirthsHaveParents(agents[1..], land, rng1, rate);
      var rest := ReproduceAll(agents[1..], land, rng1, rate).births;
      forall k | 0 <= k < |rest| ensures HasParent(rest[k], agents) {
        HasParentMore(rest[k], agents);
      }
      if birth.Some? {
        assert agents[0].id == birth.value.parent;
      }
    }
  }

  lemma ReplayOne(r: Registry, e: Event, rest: seq<Event>)
    requires Admit(r, e).Some?
    ensures Replay(r, [e] + rest) == Replay(Admit(r, e).value, rest)
  {
    assert ([e] + rest)[1..] == rest;
  }

  lemma OneBirth(agents: seq<Agent>, b: Birth, next: nat, hydration: int, tick: nat)
    requires InOrder(agents, next) && HasParent(b, agents)
    ensures var more := agents + [Child(b, next, hydration)];
            && InOrder(more, next + 1)
            && Admit(Registry(Roster(agents), next), Born(tick, next, b.parent, b.generation, b.genome))
               == Some(Registry(Roster(more), next + 1))
  {
    hide Roster;
    RosterHas(agents, next);
    RosterAppend(agents, Child(b, next, hydration));
  }

  lemma ParentsAmongMore(births: seq<Birth>, agents: seq<Agent>, a: Agent)
    requires ParentsAmong(births, agents) && births != []
    ensures ParentsAmong(births[1..], agents + [a])
  {
    var more := agents + [a];
    forall k | 0 <= k < |births[1..]| ensures HasParent(births[1..][k], more) {
      var b := births[k + 1];
      assert HasParent(b, agents);
      var i :| 0 <= i < |agents| &&
        agents[i].alive && agents[i].id == b.parent && agents[i].generation + 1 == b.generation;
      assert more[i] == agents[i];
    }
  }

  lemma ChildrenFirst(agents: seq<Agent>, births: seq<Birth>, next: nat, hydration: int)
    requires births != []
    ensures agents + [Child(births[0], next, hydration)] + Children(births[1..], next + 1, hydration)
            == agents + Children(births, next, hydration)
  {
  }

  lemma {:induction false} BirthsReplay(agents: seq<Agent>, births: seq<Birth>, next: nat, hydration: int, tick: nat)
    requires InOrder(agents, next) && ParentsAmong(births, agents)
    ensures var all := agents + Children(births, next, hydration);
            && InOrder(all, next + |births|)
            && Replay(Registry(Roster(agents), next), BirthEvents(births, next, tick))
               == Some(Registry(Roster(all), next + |births|))
    decreases births
  {
    hide Roster, InOrder, Replay, Admit, Child, HasParent;
    if births == [] {
      assert agents + [] == agents;
      ReplayNothing(Registry(Roster(agents), next));
    } else {
      var b := births[0];
      var c := Child(b, next, hydration);
      assert HasParent(b, agents);
      OneBirth(agents, b, next, hydration, tick);
      ParentsAmongMore(births, agents, c);
      BirthsReplay(agents + [c], births[1..], next + 1, hydration, tick);
      ChildrenFirst(agents, births, next, hydration);
      ReplayOne(Registry(Roster(agents), next), Born(tick, next, b.parent, b.generation, b.genome),
                BirthEvents(births[1..], next + 1, tick));
    }
  }

  lemma OneDeath(before: seq<Agent>, a: Agent, rest: seq<Agent>, next: nat, e: Event)
    requires InOrder(before + [a] + rest, next) && e.Died? && e.id == a.id
    ensures InOrder(before + rest, next)
    ensures Admit(Registry(Roster(before + [a] + rest), next), e) == Some(Registry(Roster(before + rest), next))
  {
    hide Roster, InOrder;
    RosterRemove(before, a, rest, next);
    RosterHas(before + [a] + rest, next);
    assert (before + [a] + rest)[|before|] == a;
    InOrderWithout(before, a, rest, next);
  }

  /** Reaping a vector whose first agent lives, or not, and its death events. */
  lemma ReapFirst(before: seq<Agent>, agents: seq<Agent>, tick: nat)
    requires agents != []
    ensures before + agents == before + [agents[0]] + agents[1..]
    ensures agents[0].alive ==> (
      && before + [agents[0]] + Survivors(agents[1..]) == before + Survivors(agents)
      && DeathEvents(agents, tick) == DeathEvents(agents[1..], tick))
    ensures !agents[0].alive ==> (
      && Survivors(agents) == Survivors(agents[1..])
      && DeathEvents(agents, tick)
         == [Died(tick, agents[0].id, if agents[0].hydration <= 0 then Dehydration else Starvation)]
           + DeathEvents(agents[1..], tick))
  {
    var kept, died := Survivors(agents[1..]), DeathEvents(agents[1..], tick);
    assert Survivors(agents) == (if agents[0].alive then [agents[0]] else []) + kept;
    hide Survivors, DeathEvents;
    Front(before, agents[0], agents[1..]);
    Front(before, agents[0], kept);
    assert agents == [agents[0]] + agents[1..];
    assert [] + kept == kept && [] + died == died;
  }

  lemma Front(before: seq<Agent>, a: Agent, rest: seq<Agent>)
    ensures before + [a] + rest == before + ([a] + rest)
  {
  }

  lemma {:induction false} DeathsReplay(before: seq<Agent>, agents: seq<Agent>, next: nat, tick: nat)
    requires InOrder(before + agents, next)
    ensures InOrder(before + Survivors(agents), next)
    ensures Replay(Registry(Roster(before + agents), next), DeathEvents(agents, tick))
            == Some(Registry(Roster(before + Survivors(agents)), next))
    decreases agents
  {
    hide Roster, InOrder, Replay, Admit;
    if agents == [] {
      ReplayNothing(Registry(Roster(before + agents), next));
    } else {
      hide Survivors, DeathEvents;
      var a, rest := agents[0], agents[1..];
      ReapFirst(before, agents, tick);
      if a.alive {
        DeathsReplay(before + [a], rest, next, tick);
      } else {
        var e := Died(tick, a.id, if a.hydration <= 0 then Dehydration else Starvation);
        OneDeath(before, a, rest, next, e);
        DeathsReplay(before, rest, next, tick);
        ReplayOne(Registry(Roster(before + agents), next), e, DeathEvents(rest, tick));
      }
    }
  }

  lemma InOrderWithout(before: seq<Agent>, a: Agent, rest: seq<Agent>, next: nat)
    requires InOrder(before + [a] + rest, next)
    ensures InOrder(before + rest, next)
  {
    var all, some := before + [a] + rest, before + rest;
    forall i, j | 0 <= i < j < |some| ensures some[i].id < some[j].id {
      assert some[i] == all[if i < |before| then i else i + 1];
      assert some[j] == all[if j < |before| then j else j + 1];
    }
    forall i | 0 <= i < |some| ensures some[i].id < next {
      assert some[i] == all[if i < |before| then i else i + 1];
    }
  }

  /** Vectors that agree on ids and generations have the same roster. */
  lemma {:induction false} SameRoster(a: seq<Agent>, b: seq<Agent>, next: nat)
    requires |a| == |b| && InOrder(a, next)
    requires forall i :: 0 <= i < |a| ==> a[i].id == b[i].id && a[i].generation == b[i].generation
    ensures InOrder(b, next) && Roster(a) == Roster(b)
  {
    if a != [] {
      SameRoster(a[1..], b[1..], next);
    }
  }

  // ---- Whole runs ----

  /** The events that a tick adds to the log. */
  function NewEvents(w: World): seq<Event> {
    var s := AfterSteps(w);
    var n := ReproduceAll(s.agents, s.land, s.rng, s.cfg.mutationRate);
    BirthEvents(n.births, w.nextId, w.tick) + DeathEvents(AfterBirths(s).agents, w.tick)
  }

  lemma StepsKeepRegistry(w: World)
    requires InOrder(w.agents, w.nextId)
    ensures var s := AfterSteps(w); InOrder(s.agents, s.nextId) && RegistryOf(s) == RegistryOf(w)
  {
    hide StepAgents, Roster;
    StepAgentsEffect(w.agents, w.land, w.rng);
    SameRoster(w.agents, AfterSteps(w).agents, w.nextId);
  }

  lemma BirthsExtendRegistry(w: World)
    requires InOrder(w.agents, w.nextId)
    ensures var b := AfterBirths(w);
            var births := ReproduceAll(w.agents, w.land, w.rng, w.cfg.mutationRate).births;
            && InOrder(b.agents, b.nextId)
            && Replay(RegistryOf(w), BirthEvents(births, w.nextId, w.tick)) == Some(RegistryOf(b))
  {
    hide ReproduceAll, Roster, Replay, BirthEvents, InOrder;
    var n := ReproduceAll(w.agents, w.land, w.rng, w.cfg.mutationRate);
    BirthsHaveParents(w.agents, w.land, w.rng, w.cfg.mutationRate);
    ReproductionKeepsIdentity(w.agents, w.land, w.rng, w.cfg.mutationRate);
    SameRoster(w.agents, n.agents, w.nextId);
    SameParents(n.births, w.agents, n.agents);
    BirthsReplay(n.agents, n.births, w.nextId, w.cfg.startingHydration, w.tick);
  }

  lemma {:induction false} ReproductionKeepsIdentity(agents: seq<Agent>, land: ValidLand, rng: Rng, rate: real)
    ensures var r := ReproduceAll(agents, land, rng, rate);
            forall i :: 0 <= i < |agents| ==> r.agents[i] == agents[i].(energy := r.agents[i].energy)
    decreases agents
  {
    hide Reproduce;
    if agents != [] {
      OneBirthSharesEnergy(agents[0], land, rng, rate);
      var (a, birth, rng1) := Reproduce(agents[0], land, rng, rate);
      ReproductionKeepsIdentity(agents[1..], land, rng1, rate);
    }
  }

  lemma SameParents(births: seq<Birth>, a: seq<Agent>, b: seq<Agent>)
    requires ParentsAmong(births, a) && |a| == |b|
    requires forall i :: 0 <= i < |a| ==>
               a[i].alive == b[i].alive && a[i].id == b[i].id && a[i].generation == b[i].generation
    ensures ParentsAmong(births, b)
  {
    forall k | 0 <= k < |births| ensures HasParent(births[k], b) {
      assert HasParent(births[k], a);
      var i :| 0 <= i < |a| && a[i].alive && a[i].id == births[k].parent && a[i].generation + 1 == births[k].generation;
      assert b[i].id == births[k].parent;
    }
  }

  /** The log of one tick, replayed from the agents before it, is accepted and gives the agents after it. */
  lemma TickHistory(w: World)
    requires InOrder(w.agents, w.nextId)
    ensures var w' := Tick(w);
            && InOrder(w'.agents, w'.nextId)
            && w'.log == w.log + NewEvents(w)
            && Replay(RegistryOf(w), NewEvents(w)) == Some(RegistryOf(w'))
  {
    hide Roster, Replay, InOrder, AfterSteps, ReproduceAll, Respawn, Survivors, DeathEvents, BirthEvents;
    var s := AfterSteps(w);
    StepsKeepRegistry(w);
    BirthsExtendRegistry(s);
    var b := AfterBirths(s);
    var births := ReproduceAll(s.agents, s.land, s.rng, s.cfg.mutationRate).births;
    var born, died := BirthEvents(births, w.nextId, w.tick), DeathEvents(b.agents, w.tick);
    StepsKeepTime(w);
    assert [] + b.agents == b.agents && [] + Survivors(b.agents) == Survivors(b.agents);
    DeathsReplay([], b.agents, b.nextId, w.tick);
    ReplayConcat(RegistryOf(w), born, died);
    Regroup(w.log, born, died);
  }

  lemma StepsKeepTime(w: World)
    ensures var s := AfterSteps(w); s.tick == w.tick && s.nextId == w.nextId && s.log == w.log && s.cfg == w.cfg
  {
  }

  lemma Regroup(a: seq<Event>, b: seq<Event>, c: seq<Event>)
    ensures a + b + c == a + (b + c)
  {
  }

  function RunEvents(w: World, n: nat): seq<Event>
    decreases n
  {
    if n == 0 then [] else RunEvents(w, n - 1) + NewEvents(Ticks(w, n - 1))
  }

  /**
   Lineage over whole runs: the log that any number of ticks adds is accepted, event by event, by the automaton
   started on the first world's agents, and leaves it with exactly the last world's agents; ids stay in order.
   */
  lemma {:induction false} RunHistory(w: World, n: nat)
    requires InOrder(w.agents, w.nextId)
    ensures var w' := Ticks(w, n);
            && InOrder(w'.agents, w'.nextId)
            && w'.log == w.log + RunEvents(w, n)
            && Replay(RegistryOf(w), RunEvents(w, n)) == Some(RegistryOf(w'))
    decreases n
  {
    hide Roster, Replay, InOrder, Tick, NewEvents;
    if n == 0 {
      ReplayNothing(RegistryOf(w));
      assert w.log + [] == w.log;
    } else {
      RunHistory(w, n - 1);
      var v := Ticks(w, n - 1);
      TickHistory(v);
      ReplayConcat(RegistryOf(w), RunEvents(w, n - 1), NewEvents(v));
      Regroup(w.log, RunEvents(w, n - 1), NewEvents(v));
    }
  }

  lemma ReplayNothing(r: Registry)
    ensures Replay(r, []) == Some(r)
  {
  }

  function Count(log: seq<Event>, births: bool): nat {
    if log == [] then 0 else (if log[0].Born? == births then 1 else 0) + Count(log[1..], births)
  }

  lemma {:induction false} ReplayCounts(r: Registry, log: seq<Event>)
    requires Sound(r) && Replay(r, log).Some?
    ensures |Replay(r, log).value.living| == |r.living| + Count(log, true) - Count(log, false)
    ensures Replay(r, log).value.next == r.next + Count(log, true)
    decreases log
  {
    if log != [] {
      var r' := Admit(r, log[0]).value;
      if log[0].Born? {
        assert r'.living.Keys == r.living.Keys + {log[0].id};
      } else {
        assert r'.living.Keys == r.living.Keys - {log[0].id};
      }
      ReplayCounts(r', log[1..]);
    }
  }

  /** Population after any run: the initial one, plus the births, minus the deaths of its log. */
  lemma Population(w: World, n: nat)
    requires InOrder(w.agents, w.nextId)
    ensures var w' := Ticks(w, n);
            && |w'.agents| == |w.agents| + Count(RunEvents(w, n), true) - Count(RunEvents(w, n), false)
            && w'.nextId == w.nextId + Count(RunEvents(w, n), true)
  {
    hide Replay, RunEvents, Ticks, Count, Roster;
    RunHistory(w, n);
    RosterHas(w.agents, w.nextId);
    ReplayCounts(RegistryOf(w), RunEvents(w, n));
    RosterSize(w.agents, w.nextId);
    RosterSize(Ticks(w, n).agents, Ticks(w, n).nextId);
  }

  /** The events of a run, taken two by two, are those of an orderly history. */
  lemma RunIsOrderly(w: World, n: nat, i: nat, j: nat)
    requires InOrder(w.agents, w.nextId) && i < j < |RunEvents(w, n)|
    ensures var log := RunEvents(w, n);
            && (log[i].Died? ==> log[j].id != log[i].id && (log[j].Born? ==> log[j].parent != log[i].id))
            && (log[i].Born? && log[j].Born? ==> log[i].id < log[j].id)
            && (log[j].Born? ==> log[j].parent < log[j].id)
  {
    hide Replay, RunEvents, Ticks, Roster;
    RunHistory(w, n);
    RosterHas(w.agents, w.nextId);
    HistoryIsOrderly(RegistryOf(w), RunEvents(w, n), i, j);
  }
}
