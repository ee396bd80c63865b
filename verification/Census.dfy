/** The caches of a tick: how many live agents stand on each cell, and at which index an id is. */
module Census {
  import opened Words
  import opened Random
  import opened Biology
  import opened Torus
  import opened Life
  import opened LifeProperties
  import opened Lineage

  /** The live agents on a cell, counted one by one. */
  function Headcount(agents: seq<Agent>, p: Position, width: nat, height: nat): nat
    requires width > 0 && height > 0
  {
    if agents == [] then 0
    else
      (if agents[0].alive && Index(agents[0].pos, width, height) == Index(p, width, height) then 1 else 0)
      + Headcount(agents[1..], p, width, height)
  }

  function Living(agents: seq<Agent>): nat {
    if agents == [] then 0 else (if agents[0].alive then 1 else 0) + Living(agents[1..])
  }

  /** Counts as the rebuild leaves them: one more for each live agent, on its cell. */
  function Counted(counts: seq<nat>, agents: seq<Agent>, width: nat, height: nat): (r: seq<nat>)
    requires width > 0 && height > 0 && |counts| == Area(width, height)
    ensures |r| == |counts|
    decreases agents
  {
    if agents == [] then counts
    else
      var i := Index(agents[0].pos, width, height);
      Counted(if agents[0].alive then counts[i := counts[i] + 1] else counts, agents[1..], width, height)
  }

  function Zeros(n: nat): (r: seq<nat>)
    ensures |r| == n && forall i :: 0 <= i < n ==> r[i] == 0
  {
    seq(n, _ => 0)
  }

  /** Each position reads what a direct count of the live agents on its cell gives. */
  lemma {:induction false} CountsAgree(counts: seq<nat>, agents: seq<Agent>, p: Position, width: nat, height: nat)
    requires width > 0 && height > 0 && |counts| == Area(width, height)
    ensures Counted(counts, agents, width, height)[Index(p, width, height)]
         == counts[Index(p, width, height)] + Headcount(agents, p, width, height)
    decreases agents
  {
    hide Index;
    if agents != [] {
      var i := Index(agents[0].pos, width, height);
      CountsAgree(if agents[0].alive then counts[i := counts[i] + 1] else counts, agents[1..], p, width, height);
    }
  }

  /** The counts of all cells together are the live population. */
  lemma {:induction false} CountsSum(counts: seq<nat>, agents: seq<Agent>, width: nat, height: nat)
    requires width > 0 && height > 0 && |counts| == Area(width, height)
    ensures Sum(Counted(counts, agents, width, height)) == Sum(counts) + Living(agents)
    decreases agents
  {
    hide Index, Sum;
    if agents != [] {
      var i := Index(agents[0].pos, width, height);
      SumUpdate(counts, i, counts[i] + 1);
      CountsSum(if agents[0].alive then counts[i := counts[i] + 1] else counts, agents[1..], width, height);
    }
  }

  lemma {:induction false} SumOfZeros(cells: seq<nat>)
    requires AllZero(cells)
    ensures Sum(cells) == 0
  {
    if cells != [] {
      SumOfZeros(cells[1..]);
    }
  }

  /** After a rebuild: every count is the headcount of its cell, and together they are the live population. */
  lemma RebuiltCounts(agents: seq<Agent>, p: Position, width: nat, height: nat)
    requires width > 0 && height > 0
    ensures var counts := Counted(Zeros(Area(width, height)), agents, width, height);
            counts[Index(p, width, height)] == Headcount(agents, p, width, height) && Sum(counts) == Living(agents)
  {
    hide Index, Sum, Counted, Headcount, Living;
    CountsAgree(Zeros(Area(width, height)), agents, p, width, height);
    CountsSum(Zeros(Area(width, height)), agents, width, height);
    SumOfZeros(Zeros(Area(width, height)));
  }

  // ---- Looking agents up by id ----

  /** The index map of the first n agents; a repeated id would keep its last place. */
  function IndexOf(agents: seq<Agent>, n: nat): map<nat, nat>
    requires n <= |agents|
  {
    if n == 0 then map[] else IndexOf(agents, n - 1)[agents[n - 1].id := n - 1]
  }

  /** Looks up ids correctly in a vector: ids of its first n agents to their places, and no other id. */
  ghost predicate Finds(index: map<nat, nat>, agents: seq<Agent>, n: nat)
    requires n <= |agents|
  {
    && (forall i :: 0 <= i < n ==> agents[i].id in index && index[agents[i].id] == i)
    && (forall id :: id in index ==> index[id] < n && agents[index[id]].id == id)
  }

  lemma {:induction false} IndexFinds(agents: seq<Agent>, next: nat, n: nat)
    requires InOrder(agents, next) && n <= |agents|
    ensures Finds(IndexOf(agents, n), agents, n)
    decreases n
  {
    if n > 0 {
      IndexFinds(agents, next, n - 1);
    }
  }

  lemma FindsKept(index: map<nat, nat>, before: seq<Agent>, after: seq<Agent>)
    requires Finds(index, before, |before|) && |before| <= |after|
    requires forall i :: 0 <= i < |before| ==> after[i].id == before[i].id
    ensures Finds(index, after, |before|)
  {
  }

  /**
   The index map built at the start of a tick finds the same agents after stepping and after reproduction:
   no id moves, and the children, which come behind, have ids that it does not know.
   */
  lemma IndexSurvivesTheTick(w: World)
    requires InOrder(w.agents, w.nextId)
    ensures var index := IndexOf(w.agents, |w.agents|);
            var stepped, born := AfterSteps(w), AfterBirths(AfterSteps(w));
            && |stepped.agents| == |w.agents| && Finds(index, stepped.agents, |w.agents|)
            && |born.agents| >= |w.agents| && Finds(index, born.agents, |w.agents|)
            && forall k :: |w.agents| <= k < |born.agents| ==> born.agents[k].id !in index
  {
    hide IndexOf, Finds, StepAgents, ReproduceAll, InOrder;
    var stepped, born := AfterSteps(w), AfterBirths(AfterSteps(w));
    IndexFinds(w.agents, w.nextId, |w.agents|);
    StepAgentsEffect(w.agents, w.land, w.rng);
    FindsKept(IndexOf(w.agents, |w.agents|), w.agents, stepped.agents);
    ReproductionKeepsIdentity(stepped.agents, stepped.land, stepped.rng, stepped.cfg.mutationRate);
    FindsKept(IndexOf(w.agents, |w.agents|), w.agents, born.agents);
    StepsKeepRegistry(w);
    BirthsExtendRegistry(stepped);
    ChildrenUnknown(IndexOf(w.agents, |w.agents|), w, born.agents, born.nextId);
  }

  lemma ChildrenUnknown(index: map<nat, nat>, w: World, after: seq<Agent>, next: nat)
    requires Finds(index, w.agents, |w.agents|) && |w.agents| <= |after| && InOrder(after, next)
    requires forall i :: 0 <= i < |w.agents| ==> after[i].id == w.agents[i].id
    ensures forall k :: |w.agents| <= k < |after| ==> after[k].id !in index
  {
    forall k | |w.agents| <= k < |after| ensures after[k].id !in index {
      assert forall i :: 0 <= i < |w.agents| ==> w.agents[i].id < after[k].id;
    }
  }

  function DeadAmong(agents: seq<Agent>): nat {
    if agents == [] then 0 else (if agents[0].alive then 0 else 1) + DeadAmong(agents[1..])
  }

  /**
   Reaping moves each survivor down by the number of dead before it, so its index goes stale exactly when there are
   some.
   */
  lemma {:induction false} ReapShifts(agents: seq<Agent>, i: nat)
    requires i < |agents| && agents[i].alive
    ensures DeadAmong(agents[..i]) <= i
    ensures var k := i - DeadAmong(agents[..i]); k < |Survivors(agents)| && Survivors(agents)[k] == agents[i]
  {
    if i > 0 {
      ReapShifts(agents[1..], i - 1);
      assert agents[..i][1..] == agents[1..][..i - 1];
    }
  }
}
