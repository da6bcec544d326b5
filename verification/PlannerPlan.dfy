/** The promises of a whole plan, from the segments to the kept and dropped decisions. */
module PlannerPlan {
  import opened Planner
  import opened PlannerOrder
  import opened PlannerBudget
  import opened Sorting
  import opened Folding

  // ----- tokens are conserved from segments to units -----

  function Weigh(n: nat, s: Segment, recent: seq<nat>, chosen: set<Slot>): nat {
    if s.kind != Protected && SlotOf(s, recent) in chosen then n + s.tokens else n
  }

  function Weigher(recent: seq<nat>, chosen: set<Slot>): (nat, Segment) -> nat {
    (n, s) => Weigh(n, s, recent, chosen)
  }

  /** The tokens of the segments whose unit is chosen. */
  function TokensIn(segments: seq<Segment>, recent: seq<nat>, chosen: set<Slot>): nat {
    Fold(Weigher(recent, chosen), 0, segments)
  }

  lemma ListedFirst(units: Units) returns (c: Slot)
    requires units != map[]
    ensures c in units && multiset(Listed(units)) == multiset{units[c]} + multiset(Listed(units - {c}))
  {
    c :| c in units && Listed(units) == [units[c]] + Listed(units - {c});
  }

  lemma WithoutBoth(units: Units, c: Slot, k: Slot)
    requires c in units && k in units && c != k
    ensures units - {c} - {k} == units - {k} - {c}
    ensures |units - {c}| < |units| && |units - {k}| < |units|
    ensures k in units - {c} && c in units - {k}
  {
    assert units.Keys - {c} == (units - {c}).Keys && units.Keys - {k} == (units - {k}).Keys;
  }

  lemma {:induction false} ListedSplit(units: Units, k: Slot)
    requires k in units
    ensures multiset(Listed(units)) == multiset{units[k]} + multiset(Listed(units - {k}))
    decreases |units|
  {
    var c := ListedFirst(units);
    if c != k {
      WithoutBoth(units, c, k);
      var withoutC, withoutK := units - {c}, units - {k};
      ListedSplit(withoutC, k);
      ListedSplit(withoutK, c);
    }
  }

  lemma ListedSpends(units: Units, k: Slot, chosen: set<Slot>)
    requires k in units && Keyed(units)
    ensures Spent(Listed(units), chosen) ==
            Spent(Listed(units - {k}), chosen) + (if k in chosen then units[k].tokens else 0)
  {
    ListedSplit(units, k);
    SpentPermutes(Listed(units), Listed(units - {k}) + [units[k]], chosen);
    SpentPush(Listed(units - {k}), units[k], chosen);
  }

  lemma JoinOthers(units: Units, k: Slot, s: Segment)
    ensures Join(units, k, s) - {k} == units - {k}
    ensures k !in units ==> units - {k} == units
    ensures Keyed(units) ==> Keyed(Join(units, k, s))
  {
  }

  lemma JoinSpends(units: Units, k: Slot, s: Segment, chosen: set<Slot>)
    requires Keyed(units)
    ensures Spent(Listed(Join(units, k, s)), chosen) ==
            Spent(Listed(units), chosen) + (if k in chosen then s.tokens else 0)
  {
    JoinOthers(units, k, s);
    ListedSpends(Join(units, k, s), k, chosen);
    if k in units { ListedSpends(units, k, chosen); }
  }

  /** Grouping segments into units neither loses nor invents tokens. */
  lemma {:induction false} GatherConserves(segments: seq<Segment>, recent: seq<nat>, chosen: set<Slot>)
    ensures Spent(Order(Gather(segments, recent)), chosen) == TokensIn(segments, recent, chosen)
  {
    ListedConserves(segments, recent, chosen);
    SpentPermutes(Order(Gather(segments, recent)), Listed(Gather(segments, recent)), chosen);
  }

  lemma {:induction false} ListedConserves(segments: seq<Segment>, recent: seq<nat>, chosen: set<Slot>)
    ensures Spent(Listed(Gather(segments, recent)), chosen) == TokensIn(segments, recent, chosen)
  {
    if segments != [] {
      var front := segments[..|segments| - 1];
      ListedConserves(front, recent, chosen);
      GatherKeyed(front, recent);
      var s := segments[|segments| - 1];
      if s.kind != Protected { JoinSpends(Gather(front, recent), SlotOf(s, recent), s, chosen); }
    }
  }

  // ----- the figures of a plan -----

  function Total(ds: seq<Decision>): nat {
    if ds == [] then 0 else Total(ds[..|ds| - 1]) + ds[|ds| - 1].tokens
  }

  function AllTokens(segments: seq<Segment>): nat {
    if segments == [] then 0 else AllTokens(segments[..|segments| - 1]) + segments[|segments| - 1].tokens
  }

  lemma TotalPush(ds: seq<Decision>, d: Decision)
    ensures Total(ds + [d]) == Total(ds) + d.tokens
  {
    assert (ds + [d])[..|ds|] == ds;
  }

  ghost predicate Fits(input: PlanInput) { ProtectedTokens(input.segments) <= Room(input) }

  ghost function UnitList(input: PlanInput): seq<Unit> { Order(UnitsOf(input)) }

  lemma UnitListIs(input: PlanInput)
    ensures Keyed(UnitsOf(input)) && DistinctPlaces(UnitList(input)) && Ascending(Before, UnitList(input))
    ensures forall u :: u in UnitList(input) <==> Holds(UnitsOf(input), u)
  {
    GatherKeyed(input.segments, RecentTurns(input));
    OrderIs(UnitsOf(input));
  }

  lemma {:induction false} EverySegmentHasAUnit(segments: seq<Segment>, recent: seq<nat>)
    ensures forall s | s in segments && s.kind != Protected :: SlotOf(s, recent) in Gather(segments, recent)
    ensures forall k | k in Gather(segments, recent) ::
              exists s :: s in segments && s.kind != Protected && SlotOf(s, recent) == k
  {
    if segments != [] {
      var front, last := segments[..|segments| - 1], segments[|segments| - 1];
      EverySegmentHasAUnit(front, recent);
      assert segments == front + [last];
      forall k | k in Gather(segments, recent)
        ensures exists s :: s in segments && s.kind != Protected && SlotOf(s, recent) == k
      {
        if k in Gather(front, recent) {
          var s :| s in front && s.kind != Protected && SlotOf(s, recent) == k;
          assert s in segments;
        } else {
          assert last in segments;
        }
      }
    }
  }

  lemma VerdictFor(input: PlanInput, s: Segment)
    requires Fits(input) && s in input.segments && s.kind != Protected
    ensures var k := SlotOf(s, RecentTurns(input));
      && k in UnitsOf(input) && UnitsOf(input)[k] in UnitList(input)
      && k in TallyOf(input).verdicts && WhyFor(input, s) == TallyOf(input).verdicts[k]
      && (WhyFor(input, s).Kept() <==> k in Kept(TallyOf(input)))
  {
    EverySegmentHasAUnit(input.segments, RecentTurns(input));
    UnitListIs(input);
    var k := SlotOf(s, RecentTurns(input));
    assert Holds(UnitsOf(input), UnitsOf(input)[k]);
    AdmitAccounts(UnitList(input), BudgetOf(input));
  }

  /** The kept decisions weigh what the protected segments and the kept units weigh. */
  lemma {:induction false} ReportWeighs(segments: seq<Segment>, whys: seq<Why>, recent: seq<nat>, chosen: set<Slot>)
    requires |segments| == |whys|
    requires forall i | 0 <= i < |segments| ::
               whys[i].Kept() <==> segments[i].kind == Protected || SlotOf(segments[i], recent) in chosen
    ensures Total(Report(segments, whys, true)) == ProtectedTokens(segments) + TokensIn(segments, recent, chosen)
    ensures Total(Report(segments, whys, true)) + Total(Report(segments, whys, false)) == AllTokens(segments)
  {
    if segments != [] {
      hide SlotOf;
      var n := |segments| - 1;
      ReportWeighs(segments[..n], whys[..n], recent, chosen);
      TotalPush(Report(segments[..n], whys[..n], true), Decided(segments[n], whys[n]));
      TotalPush(Report(segments[..n], whys[..n], false), Decided(segments[n], whys[n]));
      assert Report(segments[..n], whys[..n], true) + [] == Report(segments[..n], whys[..n], true);
      assert Report(segments[..n], whys[..n], false) + [] == Report(segments[..n], whys[..n], false);
    }
  }

  lemma WhysAreKept(input: PlanInput)
    requires Fits(input)
    ensures forall i | 0 <= i < |input.segments| ::
      var s := input.segments[i];
      Whys(input)[i].Kept() <==> s.kind == Protected || SlotOf(s, RecentTurns(input)) in Kept(TallyOf(input))
  {
    forall i | 0 <= i < |input.segments|
      ensures var s := input.segments[i];
        Whys(input)[i].Kept() <==> s.kind == Protected || SlotOf(s, RecentTurns(input)) in Kept(TallyOf(input))
    {
      var s := input.segments[i];
      if s.kind != Protected { VerdictFor(input, s); }
    }
  }

  /** What is kept is within the budget, to the token; the whole prompt fits when the reserves do. */
  lemma WithinBudget(input: PlanInput)
    requires PlanOf(input).Ok?
    ensures var p := PlanOf(input).value;
      && p.used <= p.available
      && Total(p.kept) == p.protected + p.used
      && Total(p.kept) + Total(p.dropped) == AllTokens(input.segments)
      && (WithReserves(p) <= p.nCtx <==> Reserved(input) <= p.nCtx)
  {
    UnitListIs(input);
    AdmitAccounts(UnitList(input), BudgetOf(input));
    WhysAreKept(input);
    ReportWeighs(input.segments, Whys(input), RecentTurns(input), Kept(TallyOf(input)));
    GatherConserves(input.segments, RecentTurns(input), Kept(TallyOf(input)));
  }

  function WithReserves(p: Plan): nat { p.protected + p.used + p.reserveAnswer + p.reserveThinking + p.margin }

  /** The plans that do not fit the context: the reserves alone exceed it, and nothing is protected. */
  lemma ExceedsContext(input: PlanInput)
    ensures PlanOf(input).Ok? && WithReserves(PlanOf(input).value) > input.nCtx <==>
      Reserved(input) > input.nCtx && ProtectedTokens(input.segments) == 0
  {
    hide TallyOf;
    if PlanOf(input).Ok? { WithinBudget(input); }
  }

  /**
   One protected segment that weighs nothing, as an empty last message does, and an answer reserve larger
   than the context: a plan comes back all the same.
   */
  lemma SmallContext(nCtx: nat, reserveAnswer: nat, thinking: bool, last: Segment, policy: Policy)
    requires reserveAnswer > nCtx && last.kind == Protected && last.tokens == 0
    ensures var plan := PlanOf(PlanInput(nCtx, reserveAnswer, thinking, [last], policy));
      plan.Ok? && plan.value.used == 0 && WithReserves(plan.value) > nCtx
  {
    var input := PlanInput(nCtx, reserveAnswer, thinking, [last], policy);
    assert [last] == [] + [last];
    FoldPush(AddProtected, 0, [], last);
    ExceedsContext(input);
    WithinBudget(input);
  }

  /** The kept segments of a capped rank stay under its cap. */
  lemma UnderCaps(input: PlanInput, rank: Rank)
    requires Fits(input) && BudgetOf(input).Cap(rank).Some?
    ensures var kept := OfRank(Kept(TallyOf(input)), rank);
      TokensIn(input.segments, RecentTurns(input), kept) <= BudgetOf(input).Cap(rank).value
  {
    UnitListIs(input);
    AdmitAccounts(UnitList(input), BudgetOf(input));
    GatherConserves(input.segments, RecentTurns(input), OfRank(Kept(TallyOf(input)), rank));
  }

  /** A dropped segment's unit would not fit into the finished plan either. */
  lemma Maximal(input: PlanInput, s: Segment)
    requires Fits(input) && s in input.segments && !WhyFor(input, s).Kept()
    ensures s.kind != Protected
    ensures var recent, t, b := RecentTurns(input), TallyOf(input), BudgetOf(input);
      var slot := SlotOf(s, recent);
      var tokens := TokensIn(input.segments, recent, {slot});
      || t.used + tokens > b.available
      || (b.Cap(slot.rank).Some? && t.InRank(slot.rank) + tokens > b.Cap(slot.rank).value)
  {
    var k := SlotOf(s, RecentTurns(input));
    VerdictFor(input, s);
    UnitListIs(input);
    var u := UnitsOf(input)[k];
    NothingMoreFits(UnitList(input), BudgetOf(input), u);
    GatherConserves(input.segments, RecentTurns(input), {k});
    ListedSpends(UnitsOf(input), k, {k});
    SpentPermutes(UnitList(input), Listed(UnitsOf(input)), {k});
  }

  ghost predicate DropsNeeded(us: seq<Unit>, kept: set<Slot>) {
    exists u :: u in us && u.rank != Last && u.Place() !in kept
  }

  lemma {:induction false} DroppedCounted(us: seq<Unit>, b: Budget)
    requires DistinctPlaces(us)
    ensures Admit(us, b).droppedNeeded <==> DropsNeeded(us, Kept(Admit(us, b)))
  {
    if us != [] {
      var front, u := us[..|us| - 1], us[|us| - 1];
      DistinctFront(us);
      DroppedCounted(front, b);
      AdmitLast(us, b);
      AdmitAccounts(front, b);
      StepDropped(Admit(front, b), front, u, b);
    }
  }

  lemma StepDropped(t: Tally, us: seq<Unit>, u: Unit, b: Budget)
    requires u.Place() !in t.verdicts && Unjudged(us, u) && t.droppedNeeded == DropsNeeded(us, Kept(t))
    ensures Consider(t, u, b).droppedNeeded <==> DropsNeeded(us + [u], Kept(Consider(t, u, b)))
  {
    var kept, kept' := Kept(t), Kept(Consider(t, u, b));
    StepKept(t, u, b);
    if DropsNeeded(us, kept) {
      var v :| v in us && v.rank != Last && v.Place() !in kept;
      assert v in us + [u] && v.Place() !in kept';
    }
    if u.rank != Last && u.Place() !in kept' { assert u in us + [u]; }
    if DropsNeeded(us + [u], kept') {
      var v :| v in us + [u] && v.rank != Last && v.Place() !in kept';
      assert v == u || (v in us && v.Place() !in kept);
    }
  }

  /**
   A plan asks for compaction exactly when it leaves out something that is not evictable, or fills the
   room there is to the policy's threshold.
   */
  lemma NeedsCompactionMeans(input: PlanInput)
    requires PlanOf(input).Ok?
    ensures var p := PlanOf(input).value;
      p.needsCompaction <==>
        || (exists s :: s in input.segments && s.kind != Evictable && !WhyFor(input, s).Kept())
        || (p.available > 0 && p.used * 100 >= p.available * input.policy.compactAtPct)
  {
    hide WhyFor, Kept, TallyOf, UnitList, UnitsOf, Report, Whys;
    UnitListIs(input);
    FittedNeeds(input);
    if u :| u in UnitList(input) && u.rank != Last && u.Place() !in Kept(TallyOf(input)) {
      var s := SegmentOf(input, u);
      assert s.kind != Evictable && !WhyFor(input, s).Kept();
    }
    if s :| s in input.segments && s.kind != Evictable && !WhyFor(input, s).Kept() {
      LeftOutUnit(input, s);
    }
  }

  lemma FittedNeeds(input: PlanInput)
    requires Fits(input)
    ensures var p := Fitted(input);
      p.needsCompaction <==>
        || DropsNeeded(UnitList(input), Kept(TallyOf(input)))
        || (p.available > 0 && p.used * 100 >= p.available * input.policy.compactAtPct)
  {
    UnitListIs(input);
    DroppedCounted(UnitList(input), BudgetOf(input));
  }

  /** A segment of the unit: it is kept exactly when the unit is. */
  lemma SegmentOf(input: PlanInput, u: Unit) returns (s: Segment)
    requires Fits(input) && u in UnitList(input)
    ensures s in input.segments && s.kind != Protected && (s.kind == Evictable <==> u.rank == Last)
    ensures WhyFor(input, s).Kept() <==> u.Place() in Kept(TallyOf(input))
  {
    hide Gather, RecentTurns, TallyOf, WhyFor, Kept, UnitList, Keyed, DistinctPlaces, GroupKey, TurnKey;
    UnitListIs(input);
    EverySegmentHasAUnit(input.segments, RecentTurns(input));
    assert Holds(UnitsOf(input), u);
    s :| s in input.segments && s.kind != Protected && SlotOf(s, RecentTurns(input)) == u.Place();
    VerdictFor(input, s);
  }

  lemma LeftOutUnit(input: PlanInput, s: Segment)
    requires Fits(input) && s in input.segments && !WhyFor(input, s).Kept() && s.kind != Evictable
    ensures DropsNeeded(UnitList(input), Kept(TallyOf(input)))
  {
    assert s.kind != Protected;
    hide RecentTurns, TallyOf, WhyFor, UnitList, UnitsOf, Keyed, DistinctPlaces, GroupKey, TurnKey;
    VerdictFor(input, s);
    UnitListIs(input);
    var u := UnitsOf(input)[SlotOf(s, RecentTurns(input))];
    assert Holds(UnitsOf(input), u);
    assert u in UnitList(input) && u.rank != Last && u.Place() !in Kept(TallyOf(input));
  }

  /** No choice of units that the budget allows beats the plan, in the order of admission. */
  lemma BestInOrder(input: PlanInput, chosen: set<Slot>, i: nat)
    requires Fits(input) && i < |UnitList(input)| && Feasible(UnitList(input), chosen, BudgetOf(input))
    requires forall j | 0 <= j < i ::
               UnitList(input)[j].Place() in chosen <==> UnitList(input)[j].Place() in Kept(TallyOf(input))
    ensures UnitList(input)[i].Place() in chosen ==> UnitList(input)[i].Place() in Kept(TallyOf(input))
  {
    UnitListIs(input);
    GreedyBest(UnitList(input), BudgetOf(input), chosen, i);
  }
}
