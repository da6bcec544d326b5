/** What is cleared from a chat whose context is full, and how much that frees (context/src/compaction.rs). */
module Compaction {
  import opened Wrappers
  import opened Numbers
  import opened Sorting

  datatype StepCost = StepCost(tokens: nat, placeholderTokens: nat, clearable: bool)

  datatype TurnCost = TurnCost(blockTokens: nat, steps: seq<StepCost>)

  datatype Input = Input(turns: seq<TurnCost>, clearAtLeast: nat, need: nat, recentTurnsMin: nat, keepRecentSteps: nat)

  datatype Plan = Plan(blocks: seq<nat>, results: seq<(nat, nat)>, freedTokens: nat)

  /** Something that can go: the hint block of a turn, or the result of a step of a turn. */
  datatype Item = Block(turn: nat) | StepResult(turn: nat, step: nat)

  function Target(input: Input): nat { Max(input.clearAtLeast, input.need) }

  predicate Exists(turns: seq<TurnCost>, item: Item) {
    && item.turn < |turns|
    && (item.StepResult? ==> item.step < |turns[item.turn].steps|)
  }

  function StepFrees(step: StepCost): nat {
    if step.clearable then SaturatingSub(step.tokens, step.placeholderTokens) else 0
  }

  /** The tokens that clearing the item gives back. */
  function Frees(turns: seq<TurnCost>, item: Item): nat
    requires Exists(turns, item)
  {
    match item
    case Block(t) => turns[t].blockTokens
    case StepResult(t, s) => StepFrees(turns[t].steps[s])
  }

  predicate AllExist(turns: seq<TurnCost>, items: seq<Item>) { forall i | i in items :: Exists(turns, i) }

  function Total(turns: seq<TurnCost>, items: seq<Item>): nat
    requires AllExist(turns, items)
  {
    if items == [] then 0 else
      assert items[|items| - 1] in items;
      Total(turns, items[..|items| - 1]) + Frees(turns, items[|items| - 1])
  }

  /** The items that give back something. */
  function Worth(turns: seq<TurnCost>, items: seq<Item>): (r: seq<Item>)
    requires AllExist(turns, items)
    ensures forall i :: i in r <==> i in items && Frees(turns, i) > 0
  {
    if items == [] then [] else
      var front, last := items[..|items| - 1], items[|items| - 1];
      assert items == front + [last];
      Worth(turns, front) + (if Frees(turns, last) > 0 then [last] else [])
  }

  // ----- what may go, and in which order -----

  function Blocks(n: nat): (r: seq<Item>)
    ensures |r| == n && forall i | 0 <= i < n :: r[i] == Block(i)
  {
    seq(n, i requires 0 <= i < n => Block(i))
  }

  function ResultsOf(turn: nat, n: nat): (r: seq<Item>)
    ensures |r| == n && forall i | 0 <= i < n :: r[i] == StepResult(turn, i)
  {
    seq(n, i requires 0 <= i < n => StepResult(turn, i))
  }

  function AllResults(turns: seq<TurnCost>): seq<Item> {
    if turns == [] then [] else
      AllResults(turns[..|turns| - 1]) + ResultsOf(|turns| - 1, |turns[|turns| - 1].steps|)
  }

  /** The turns whose hints may go: all but the newest. */
  function OldTurns(input: Input): nat { SaturatingSub(|input.turns|, input.recentTurnsMin) }

  function OldResults(input: Input): seq<Item> {
    var all := AllResults(input.turns);
    all[..SaturatingSub(|all|, input.keepRecentSteps)]
  }

  function InReach(input: Input): seq<Item> { Blocks(OldTurns(input)) + OldResults(input) }

  /** How many steps come after the step, in its turn and in later ones. */
  function StepsAfter(turns: seq<TurnCost>, item: Item): nat
    requires Exists(turns, item) && item.StepResult?
  {
    |turns[item.turn].steps| - 1 - item.step + StepCount(turns[item.turn + 1..])
  }

  function StepCount(turns: seq<TurnCost>): nat { if turns == [] then 0 else |turns[0].steps| + StepCount(turns[1..]) }

  predicate Before(a: Item, b: Item) {
    if a.Block? then b.StepResult? || a.turn < b.turn
    else b.StepResult? && (a.turn < b.turn || (a.turn == b.turn && a.step < b.step))
  }

  /** Oldest first, hints before results; so no item comes twice. */
  predicate Ordered(items: seq<Item>) { forall i, j | 0 <= i < j < |items| :: Before(items[i], items[j]) }

  lemma LastComesLast(items: seq<Item>)
    requires items != [] && Ordered(items)
    ensures var front, last := items[..|items| - 1], items[|items| - 1];
      && Ordered(front) && last !in front
      && (forall i | i in front :: Before(i, last))
      && (forall i :: i in items <==> i in front || i == last)
  {
    var front, last := items[..|items| - 1], items[|items| - 1];
    assert items == front + [last];
    forall i | i in front ensures Before(i, last) {
      var k :| 0 <= k < |front| && front[k] == i;
      assert Before(items[k], items[|items| - 1]);
    }
  }

  lemma OrderedPlus(items: seq<Item>, last: Item)
    requires Ordered(items) && forall i | i in items :: Before(i, last)
    ensures Ordered(items + [last])
  {
    forall i | 0 <= i < |items| ensures Before(items[i], last) { assert items[i] in items; }
  }

  lemma {:induction false} CountSnoc(turns: seq<TurnCost>)
    requires turns != []
    ensures StepCount(turns) == StepCount(turns[..|turns| - 1]) + |turns[|turns| - 1].steps|
  {
    if |turns| > 1 {
      CountSnoc(turns[1..]);
      assert turns[1..][..|turns| - 2] == turns[..|turns| - 1][1..];
    } else {
      assert turns[1..] == [];
    }
  }

  lemma {:induction false} ResultsAre(turns: seq<TurnCost>)
    ensures var all := AllResults(turns);
      && |all| == StepCount(turns) && Ordered(all)
      && (forall i :: i in all <==> i.StepResult? && Exists(turns, i))
      && (forall k | 0 <= k < |all| ::
            Exists(turns, all[k]) && all[k].StepResult? && StepsAfter(turns, all[k]) == |all| - 1 - k)
  {
    if turns != [] {
      var n := |turns| - 1;
      var front, last := turns[..n], turns[n];
      ResultsAre(front);
      CountSnoc(turns);
      var older, newest, all := AllResults(front), ResultsOf(n, |last.steps|), AllResults(turns);
      assert all == older + newest;
      forall k | 0 <= k < |all|
        ensures Exists(turns, all[k]) && all[k].StepResult? && StepsAfter(turns, all[k]) == |all| - 1 - k
      {
        if k < |older| {
          var t := older[k].turn;
          assert turns[t] == front[t];
          CountSnoc(turns[t + 1..]);
          assert turns[t + 1..][..n - t - 1] == front[t + 1..];
        } else {
          assert turns[n + 1..] == [];
        }
      }
      forall i ensures i in all <==> i.StepResult? && Exists(turns, i) {
        if i.StepResult? && Exists(turns, i) {
          if i.turn == n { assert newest[i.step] == i; } else { assert Exists(front, i) && i in older; }
        }
      }
    }
  }

  /**
   What is in reach: the hints of the turns outside the newest, and the results with enough steps after
   them; each once, oldest first, hints first.
   */
  lemma InReachIs(input: Input)
    ensures var reach := InReach(input);
      && AllExist(input.turns, reach) && Ordered(reach)
      && (forall i :: i in reach <==>
            && Exists(input.turns, i)
            && (if i.Block? then i.turn + input.recentTurnsMin < |input.turns|
                else StepsAfter(input.turns, i) >= input.keepRecentSteps))
  {
    var all, reach, turns := AllResults(input.turns), InReach(input), input.turns;
    ResultsAre(turns);
    forall i ensures i in reach <==> Exists(turns, i) && InReachItem(input, i) {
      if Exists(turns, i) && InReachItem(input, i) {
        if i.Block? {
          assert Blocks(OldTurns(input))[i.turn] == i;
        } else {
          assert i in all;
          var k :| 0 <= k < |all| && all[k] == i;
          assert OldResults(input)[k] == i;
        }
      }
      if i in OldResults(input) {
        var k :| 0 <= k < |OldResults(input)| && OldResults(input)[k] == i;
        assert all[k] == i;
      }
    }
  }

  predicate InReachItem(input: Input, i: Item)
    requires Exists(input.turns, i)
  {
    if i.Block? then i.turn + input.recentTurnsMin < |input.turns|
    else StepsAfter(input.turns, i) >= input.keepRecentSteps
  }

  // ----- clearing -----

  function Clear(turns: seq<TurnCost>, item: Item): (r: seq<TurnCost>)
    requires Exists(turns, item)
    ensures |r| == |turns| && forall t | 0 <= t < |r| :: |r[t].steps| == |turns[t].steps|
  {
    var turn := turns[item.turn];
    match item
    case Block(t) => turns[t := turn.(blockTokens := 0)]
    case StepResult(t, s) =>
      var placeholder := turn.steps[s].placeholderTokens;
      turns[t := turn.(steps := turn.steps[s := StepCost(placeholder, placeholder, false)])]
  }

  function ClearAll(turns: seq<TurnCost>, items: seq<Item>): (r: seq<TurnCost>)
    requires AllExist(turns, items)
    ensures |r| == |turns| && forall t | 0 <= t < |r| :: |r[t].steps| == |turns[t].steps|
  {
    if items == [] then turns else
      assert items[|items| - 1] in items;
      Clear(ClearAll(turns, items[..|items| - 1]), items[|items| - 1])
  }

  function StepTokens(steps: seq<StepCost>): nat {
    if steps == [] then 0 else steps[0].tokens + StepTokens(steps[1..])
  }

  function Tokens(turns: seq<TurnCost>): nat {
    if turns == [] then 0 else turns[0].blockTokens + StepTokens(turns[0].steps) + Tokens(turns[1..])
  }

  lemma {:induction false} StepChanged(steps: seq<StepCost>, s: nat, step: StepCost)
    requires s < |steps|
    ensures StepTokens(steps[s := step]) == StepTokens(steps) - steps[s].tokens + step.tokens
  {
    if s > 0 {
      StepChanged(steps[1..], s - 1, step);
      assert steps[s := step][1..] == steps[1..][s - 1 := step];
    } else {
      assert steps[0 := step][1..] == steps[1..];
    }
  }

  lemma {:induction false} TurnChanged(turns: seq<TurnCost>, t: nat, turn: TurnCost)
    requires t < |turns|
    ensures Tokens(turns[t := turn]) ==
      Tokens(turns) - turns[t].blockTokens - StepTokens(turns[t].steps) + turn.blockTokens + StepTokens(turn.steps)
  {
    if t > 0 {
      TurnChanged(turns[1..], t - 1, turn);
      assert turns[t := turn][1..] == turns[1..][t - 1 := turn];
    } else {
      assert turns[0 := turn][1..] == turns[1..];
    }
  }

  /** Clearing an item that gives something back gives back just that, and spares the others. */
  lemma ClearFrees(turns: seq<TurnCost>, item: Item)
    requires Exists(turns, item) && Frees(turns, item) > 0
    ensures Tokens(Clear(turns, item)) == Tokens(turns) - Frees(turns, item)
    ensures forall i | Exists(turns, i) :: Frees(Clear(turns, item), i) == if i == item then 0 else Frees(turns, i)
  {
    TurnChanged(turns, item.turn, Clear(turns, item)[item.turn]);
    if item.StepResult? {
      var steps := turns[item.turn].steps;
      StepChanged(steps, item.step, Clear(turns, item)[item.turn].steps[item.step]);
    }
  }

  lemma {:induction false} ClearAllFrees(turns: seq<TurnCost>, items: seq<Item>)
    requires AllExist(turns, items) && Ordered(items) && forall i | i in items :: Frees(turns, i) > 0
    ensures Tokens(ClearAll(turns, items)) == Tokens(turns) - Total(turns, items)
    ensures forall i | Exists(turns, i) :: Frees(ClearAll(turns, items), i) == if i in items then 0 else Frees(turns, i)
  {
    if items != [] {
      LastComesLast(items);
      var front, last := items[..|items| - 1], items[|items| - 1];
      ClearAllFrees(turns, front);
      ClearFrees(ClearAll(turns, front), last);
    }
  }

  // ----- the plan -----

  /** What a plan clears, in its order. */
  function Cleared(plan: Plan): seq<Item> {
    seq(|plan.blocks|, i requires 0 <= i < |plan.blocks| => Block(plan.blocks[i])) +
    seq(|plan.results|, i requires 0 <= i < |plan.results| => StepResult(plan.results[i].0, plan.results[i].1))
  }

  /** Everything a compaction of the input may clear, in order. */
  function Candidates(input: Input): seq<Item> {
    InReachIs(input);
    Worth(input.turns, InReach(input))
  }

  /**
   All that can be asked of a compaction: what is cleared is the shortest front part of the candidates that
   will do.
   */
  ghost predicate Compacts(input: Input, plan: Plan) {
    && Cleared(plan) <= Candidates(input)
    && AllExist(input.turns, Cleared(plan))
    && plan.freedTokens == Total(input.turns, Cleared(plan))
    && (plan.freedTokens >= Target(input) || Cleared(plan) == Candidates(input))
    && forall k: nat | k < |Cleared(plan)| :: Total(input.turns, Cleared(plan)[..k]) < Target(input)
  }

  lemma {:induction false} WorthOrdered(turns: seq<TurnCost>, items: seq<Item>)
    requires AllExist(turns, items) && Ordered(items)
    ensures Ordered(Worth(turns, items))
  {
    if items != [] {
      LastComesLast(items);
      WorthOrdered(turns, items[..|items| - 1]);
      OrderedPlus(Worth(turns, items[..|items| - 1]), items[|items| - 1]);
    }
  }

  lemma {:induction false} WorthFront(turns: seq<TurnCost>, items: seq<Item>, k: nat)
    requires AllExist(turns, items) && k <= |items|
    ensures Worth(turns, items[..k]) <= Worth(turns, items)
  {
    if k < |items| {
      WorthFront(turns, items[..|items| - 1], k);
      assert items[..|items| - 1][..k] == items[..k];
    } else {
      assert items[..k] == items;
    }
  }

  lemma {:induction false} TotalGrows(turns: seq<TurnCost>, items: seq<Item>, k: nat)
    requires AllExist(turns, items) && k <= |items|
    ensures Total(turns, items[..k]) <= Total(turns, items)
    ensures k < |items| && (forall i | i in items :: Frees(turns, i) > 0) ==>
      Total(turns, items[..k]) < Total(turns, items)
  {
    if k < |items| {
      var front := items[..|items| - 1];
      TotalGrows(turns, front, k);
      assert front[..k] == items[..k];
      assert items[|items| - 1] in items;
    } else {
      assert items[..k] == items;
    }
  }

  lemma CandidatesAre(input: Input)
    ensures var all := Candidates(input);
      && AllExist(input.turns, all) && Ordered(all)
      && (forall i :: i in all <==> Exists(input.turns, i) && Frees(input.turns, i) > 0 && InReachItem(input, i))
  {
    InReachIs(input);
    WorthOrdered(input.turns, InReach(input));
  }

  lemma NotBoth(i: Item, j: Item)
    requires Before(i, j)
    ensures !Before(j, i)
  {
  }

  /** A front part of an ordered list holds every item before one of its own. */
  lemma FrontOf(all: seq<Item>, some: seq<Item>)
    requires Ordered(all) && some <= all
    ensures Ordered(some) && (forall i | i in some :: i in all)
    ensures forall i, j | i in all && j in some && Before(i, j) :: i in some
  {
    forall i, j | i in all && j in some && Before(i, j) ensures i in some {
      var a :| 0 <= a < |all| && all[a] == i;
      var b :| 0 <= b < |some| && some[b] == j;
      NotBoth(i, j);
      assert a <= b;
      assert some[a] == i;
    }
  }

  /** A hint outside the newest turns, or a clearable result above its placeholder's cost with enough after it. */
  ghost predicate MayGo(input: Input, i: Item) {
    && i.turn < |input.turns|
    && var turn := input.turns[i.turn];
       match i
       case Block(t) => t + input.recentTurnsMin < |input.turns| && turn.blockTokens > 0
       case StepResult(_, s) =>
         && s < |turn.steps| && turn.steps[s].clearable && turn.steps[s].tokens > turn.steps[s].placeholderTokens
         && StepsAfter(input.turns, i) >= input.keepRecentSteps
  }

  lemma MayGoIs(input: Input, i: Item)
    ensures MayGo(input, i) <==>
            Exists(input.turns, i) && Frees(input.turns, i) > 0 && InReachItem(input, i)
  {
    hide StepsAfter;
  }

  /**
   A compaction exists just when all it may clear frees `clearAtLeast`. It frees what it says; it meets
   `need` whenever that can be done, and less of it would miss the target; the newest hints and
   results are left, and the older go first, hints before results.
   */
  lemma CompactionMeans(input: Input, plan: Plan)
    requires Compacts(input, plan)
    ensures Tokens(ClearAll(input.turns, Cleared(plan))) == Tokens(input.turns) - plan.freedTokens
    ensures AllExist(input.turns, Candidates(input))
    ensures var most := Total(input.turns, Candidates(input));
      && (plan.freedTokens >= input.clearAtLeast <==> most >= input.clearAtLeast)
      && (plan.freedTokens >= input.need <==> most >= input.need)
    ensures forall k: nat | k < |Cleared(plan)| ::
      var less := Total(input.turns, Cleared(plan)[..k]); less < input.clearAtLeast || less < input.need
    ensures Ordered(Cleared(plan))
    ensures forall i | i in Cleared(plan) :: i in Candidates(input)
    ensures forall i :: i in Candidates(input) <==> MayGo(input, i)
    ensures forall i, j | i in Candidates(input) && j in Cleared(plan) && Before(i, j) :: i in Cleared(plan)
  {
    CandidatesAre(input);
    forall i ensures i in Candidates(input) <==> MayGo(input, i) { MayGoIs(input, i); }
    FrontOf(Candidates(input), Cleared(plan));
    ClearAllFrees(input.turns, Cleared(plan));
    TargetMet(input, plan);
    hide Candidates, Cleared, MayGo, InReachItem, Frees, Target, Total, Tokens, Ordered;
  }

  lemma TargetMet(input: Input, plan: Plan)
    requires Compacts(input, plan) && AllExist(input.turns, Candidates(input))
    ensures var most := Total(input.turns, Candidates(input));
      && (plan.freedTokens >= input.clearAtLeast <==> most >= input.clearAtLeast)
      && (plan.freedTokens >= input.need <==> most >= input.need)
    ensures forall k: nat | k < |Cleared(plan)| ::
      var less := Total(input.turns, Cleared(plan)[..k]); less < input.clearAtLeast || less < input.need
  {
    hide Candidates, Cleared, Total;
    assert Cleared(plan) == Candidates(input)[..|Cleared(plan)|];
    TotalGrows(input.turns, Candidates(input), |Cleared(plan)|);
  }

  /** There is one such plan. */
  lemma CompactionUnique(input: Input, p: Plan, q: Plan)
    requires Compacts(input, p) && Compacts(input, q)
    ensures p == q
  {
    hide Candidates, Cleared, Total, Target;
    var a, b := Cleared(p), Cleared(q);
    var m := if |a| <= |b| then |a| else |b|;
    assert a[..m] == Candidates(input)[..m] == b[..m];
    assert a[..|a|] == a && b[..|b|] == b;
    assert |a| == |b|;
    SameCleared(p, q);
  }

  lemma ClearedIs(plan: Plan)
    ensures var c, m := Cleared(plan), |plan.blocks|;
      && |c| == m + |plan.results|
      && (forall i | 0 <= i < |c| :: c[i].Block? <==> i < m)
      && (forall i | 0 <= i < m :: c[i] == Block(plan.blocks[i]))
      && (forall i | 0 <= i < |plan.results| :: c[m + i] == StepResult(plan.results[i].0, plan.results[i].1))
  {
  }

  lemma SameCleared(p: Plan, q: Plan)
    requires Cleared(p) == Cleared(q)
    ensures p.blocks == q.blocks && p.results == q.results
  {
    var c, m, n := Cleared(p), |p.blocks|, |q.blocks|;
    ClearedIs(p);
    ClearedIs(q);
    var k := if m < n then m else n;
    assert k < |c| ==> (c[k].Block? <==> k < m);
    assert m == n;
    forall i | 0 <= i < m ensures p.blocks[i] == q.blocks[i] { assert c[i] == Block(q.blocks[i]); }
    forall i | 0 <= i < |p.results| ensures p.results[i] == q.results[i] {
      assert c[m + i] == StepResult(q.results[i].0, q.results[i].1);
    }
  }

  /** After a compaction the next one may clear just what this one left: nothing is cleared twice. */
  lemma CompactingAgain(input: Input, plan: Plan)
    requires Compacts(input, plan)
    ensures Candidates(input.(turns := ClearAll(input.turns, Cleared(plan)))) == Candidates(input)[|Cleared(plan)|..]
  {
    var cleared := Cleared(plan);
    var next := input.(turns := ClearAll(input.turns, cleared));
    CandidatesAre(input);
    CandidatesAre(next);
    FrontOf(Candidates(input), cleared);
    ClearAllFrees(input.turns, cleared);
    SameReach(input, next.turns);
    InReachIs(input);
    RestOf(Candidates(input), cleared);
    assert forall i :: i in Candidates(next) <==> i in Candidates(input) && i !in cleared;
    OrderedUnique(Candidates(next), Candidates(input)[|cleared|..]);
  }

  lemma {:induction false} SameResults(turns: seq<TurnCost>, after: seq<TurnCost>)
    requires |after| == |turns| && forall t | 0 <= t < |turns| :: |after[t].steps| == |turns[t].steps|
    ensures AllResults(after) == AllResults(turns)
  {
    if turns != [] { SameResults(turns[..|turns| - 1], after[..|turns| - 1]); }
  }

  lemma SameReach(input: Input, after: seq<TurnCost>)
    requires |after| == |input.turns| && forall t | 0 <= t < |after| :: |after[t].steps| == |input.turns[t].steps|
    ensures InReach(input.(turns := after)) == InReach(input)
  {
    SameResults(input.turns, after);
  }

  lemma OrderedUnique(a: seq<Item>, b: seq<Item>)
    requires Ordered(a) && Ordered(b) && forall i :: i in a <==> i in b
    ensures a == b
  {
    assert StrictOrder(Before) && Ascending(Before, a) && Ascending(Before, b);
    AscendingUnique(Before, a, b);
  }

  /** The part of an ordered list after a front part of it: what is not in that. */
  lemma RestOf(all: seq<Item>, some: seq<Item>)
    requires Ordered(all) && some <= all
    ensures var rest := all[|some|..];
      Ordered(rest) && forall i :: i in rest <==> i in all && i !in some
  {
    var rest := all[|some|..];
    assert all == some + rest;
    forall i | i in rest ensures i !in some {
      var k :| 0 <= k < |rest| && rest[k] == i;
      forall j | 0 <= j < |some| ensures some[j] != i { assert Before(all[j], all[|some| + k]); }
    }
  }

  // ----- the code -----

  method FlattenSteps(turns: seq<TurnCost>) returns (steps: seq<Item>)
    ensures steps == AllResults(turns)
  {
    steps := [];
    for t := 0 to |turns|
      invariant steps == AllResults(turns[..t])
    {
      assert turns[..t + 1][..t] == turns[..t];
      ghost var earlier := steps;
      for s := 0 to |turns[t].steps|
        invariant steps == earlier + ResultsOf(t, |turns[t].steps|)[..s]
      {
        steps := steps + [StepResult(t, s)];
      }
    }
    assert turns[..|turns|] == turns;
  }

  /** The plan so far, with the first `k` items in reach considered, or as many as were needed. */
  ghost predicate Considered(input: Input, plan: Plan, k: nat) {
    && k <= |InReach(input)|
    && AllExist(input.turns, InReach(input)) && AllExist(input.turns, Cleared(plan))
    && Cleared(plan) == Worth(input.turns, InReach(input)[..k])
    && plan.freedTokens == Total(input.turns, Cleared(plan))
    && forall j: nat | j < |Cleared(plan)| :: Total(input.turns, Cleared(plan)[..j]) < Target(input)
  }

  lemma WorthPush(turns: seq<TurnCost>, items: seq<Item>, k: nat)
    requires k < |items| && AllExist(turns, items)
    ensures AllExist(turns, items[..k]) && AllExist(turns, items[..k + 1])
    ensures Worth(turns, items[..k + 1]) ==
            Worth(turns, items[..k]) + (if Frees(turns, items[k]) > 0 then [items[k]] else [])
  {
    hide Frees, Exists;
    assert items[..k + 1][..k] == items[..k];
  }

  lemma TotalPush(turns: seq<TurnCost>, items: seq<Item>, item: Item)
    requires AllExist(turns, items) && Exists(turns, item)
    ensures AllExist(turns, items + [item]) && Total(turns, items + [item]) == Total(turns, items) + Frees(turns, item)
  {
    hide Frees, Exists;
    assert (items + [item])[..|items|] == items;
  }

  lemma ConsiderOne(input: Input, plan: Plan, k: nat, next: Plan)
    requires Considered(input, plan, k) && k < |InReach(input)| && plan.freedTokens < Target(input)
    requires var item := InReach(input)[k];
      Exists(input.turns, item) &&
      if Frees(input.turns, item) > 0
      then Cleared(next) == Cleared(plan) + [item] && next.freedTokens == plan.freedTokens + Frees(input.turns, item)
      else next == plan
    ensures Considered(input, next, k + 1)
  {
    hide InReach, Frees, Target, Exists, AllExist, Cleared, Worth, Total;
    var reach, item := InReach(input), InReach(input)[k];
    WorthPush(input.turns, reach, k);
    if Frees(input.turns, item) > 0 {
      TotalPush(input.turns, Cleared(plan), item);
      FrontsBelow(input, Cleared(plan), item);
    }
  }

  /** With one item more, all front parts still miss the target. */
  lemma FrontsBelow(input: Input, cleared: seq<Item>, item: Item)
    requires AllExist(input.turns, cleared) && AllExist(input.turns, cleared + [item])
    requires Total(input.turns, cleared) < Target(input)
    requires forall j: nat | j < |cleared| :: Total(input.turns, cleared[..j]) < Target(input)
    ensures forall j: nat | j < |cleared + [item]| :: Total(input.turns, (cleared + [item])[..j]) < Target(input)
  {
    hide Total, Target;
    forall j: nat | j < |cleared + [item]| ensures Total(input.turns, (cleared + [item])[..j]) < Target(input) {
      assert (cleared + [item])[..j] == cleared[..j];
      if j == |cleared| { assert cleared[..j] == cleared; }
    }
  }

  lemma ConsideredEnough(input: Input, plan: Plan, k: nat)
    requires Considered(input, plan, k) && (k == |InReach(input)| || plan.freedTokens >= Target(input))
    ensures Compacts(input, plan)
  {
    var reach := InReach(input);
    WorthFront(input.turns, reach, k);
    if k == |reach| { assert reach[..k] == reach; }
  }

  lemma NothingConsidered(input: Input)
    ensures Considered(input, Plan([], [], 0), 0)
  {
    InReachIs(input);
    assert InReach(input)[..0] == [];
  }

  function TakeBlock(input: Input, plan: Plan, index: nat): Plan
    requires index < |input.turns|
  {
    Plan(plan.blocks + [index], plan.results, plan.freedTokens + input.turns[index].blockTokens)
  }

  lemma ConsiderBlock(input: Input, plan: Plan, index: nat)
    requires index < OldTurns(input) && plan.results == []
    requires Considered(input, plan, index) && plan.freedTokens < Target(input)
    ensures var next := if input.turns[index].blockTokens > 0 then TakeBlock(input, plan, index) else plan;
      Considered(input, next, index + 1)
  {
    var next := if input.turns[index].blockTokens > 0 then TakeBlock(input, plan, index) else plan;
    assert InReach(input)[index] == Block(index);
    if input.turns[index].blockTokens > 0 { assert Cleared(next) == Cleared(plan) + [Block(index)]; }
    ConsiderOne(input, plan, index, next);
  }

  /** Hints of old turns go until enough is freed. */
  method ClearBlocks(input: Input, target: nat) returns (plan: Plan, ghost seen: nat)
    requires target == Target(input)
    ensures plan.freedTokens < target ==> seen == OldTurns(input)
    ensures Considered(input, plan, seen)
  {
    hide Considered;
    NothingConsidered(input);
    plan, seen := Plan([], [], 0), 0;
    var index := 0;
    while index < SaturatingSub(|input.turns|, input.recentTurnsMin) && plan.freedTokens < target
      invariant index == seen <= OldTurns(input) && plan.results == []
      invariant Considered(input, plan, seen)
    {
      ConsiderBlock(input, plan, index);
      if input.turns[index].blockTokens > 0 {
        plan := Plan(plan.blocks + [index], plan.results, plan.freedTokens + input.turns[index].blockTokens);
      }
      index, seen := index + 1, seen + 1;
    }
  }

  function TakeResult(plan: Plan, item: Item, step: StepCost): Plan
    requires item.StepResult? && step.tokens >= step.placeholderTokens
  {
    Plan(plan.blocks, plan.results + [(item.turn, item.step)],
         plan.freedTokens + (step.tokens - step.placeholderTokens))
  }

  lemma ResultAt(input: Input, k: nat)
    requires k < |OldResults(input)|
    ensures k < |AllResults(input.turns)| && OldTurns(input) + k < |InReach(input)|
    ensures var item := AllResults(input.turns)[k];
      item.StepResult? && Exists(input.turns, item) && InReach(input)[OldTurns(input) + k] == item
  {
    ResultsAre(input.turns);
    assert OldResults(input)[k] == AllResults(input.turns)[k];
  }

  lemma ConsiderResult(input: Input, plan: Plan, k: nat)
    requires k < |OldResults(input)|
    requires Considered(input, plan, OldTurns(input) + k) && plan.freedTokens < Target(input)
    ensures var item := AllResults(input.turns)[k];
      && item.StepResult? && Exists(input.turns, item)
      && var step := input.turns[item.turn].steps[item.step];
      Considered(input, if step.clearable && step.tokens > step.placeholderTokens then TakeResult(plan, item, step)
          else plan,
                 OldTurns(input) + k + 1)
  {
    var item := AllResults(input.turns)[k];
    ResultAt(input, k);
    hide InReach, OldResults, AllResults, Considered, Target, OldTurns, Cleared;
    var step := input.turns[item.turn].steps[item.step];
    var next := if step.clearable && step.tokens > step.placeholderTokens then TakeResult(plan, item, step) else plan;
    if step.clearable && step.tokens > step.placeholderTokens { ResultTaken(plan, item, step); }
    ConsiderOne(input, plan, OldTurns(input) + k, next);
  }

  lemma ResultTaken(plan: Plan, item: Item, step: StepCost)
    requires item.StepResult? && step.tokens >= step.placeholderTokens
    ensures Cleared(TakeResult(plan, item, step)) == Cleared(plan) + [item]
  {
  }

  /** Then the oldest results go, until enough is freed. */
  method ClearResults(input: Input, target: nat, blocks: Plan, ghost considered: nat)
      returns (plan: Plan, ghost seen: nat)
    requires target == Target(input) && Considered(input, blocks, considered)
    requires blocks.freedTokens < target ==> considered == OldTurns(input)
    ensures Considered(input, plan, seen)
    ensures plan.freedTokens < target ==> seen == |InReach(input)|
  {
    hide Considered, AllResults;
    plan, seen := blocks, considered;
    var steps := FlattenSteps(input.turns);
    var clearable, k := SaturatingSub(|steps|, input.keepRecentSteps), 0;
    while k < clearable && plan.freedTokens < target
      invariant k <= clearable && Considered(input, plan, seen)
      invariant plan.freedTokens < target ==> seen == OldTurns(input) + k
    {
      ConsiderResult(input, plan, k);
      var item := steps[k];
      var step := input.turns[item.turn].steps[item.step];
      if step.clearable && step.tokens > step.placeholderTokens {
        plan :=    Plan(plan.blocks, plan.results + [(item.turn, item.step)],
         plan.freedTokens + (step.tokens - step.placeholderTokens));
      }
      k, seen := k + 1, seen + 1;
    }
  }

  /** The compaction of the input, or none when too little can be cleared to be worth it. */
  method Compact(input: Input) returns (r: Option<Plan>)
    ensures r.Some? ==> Compacts(input, r.value)
    ensures AllExist(input.turns, Candidates(input))
    ensures r.Some? <==> Total(input.turns, Candidates(input)) >= input.clearAtLeast
  {
    var target := Max(input.clearAtLeast, input.need);
    var plan; ghost var seen;
    plan, seen := ClearBlocks(input, target);
    plan, seen := ClearResults(input, target, plan, seen);
    ConsideredEnough(input, plan, seen);
    CompactionMeans(input, plan);
    if plan.freedTokens >= input.clearAtLeast { return Some(plan); }
    r := None;
  }
}
