/** Recent turns come first, and evictable content comes last: neither is a matter of luck. */
module PlannerPriority {
  import opened Planner
  import opened PlannerOrder
  import opened PlannerBudget
  import opened PlannerPlan
  import opened Text
  import opened Sorting
  import opened Folding

  // ----- recent turns -----

  predicate IsRecent(s: Segment, recent: seq<nat>) { s.kind == History && s.turn in recent }

  /** The tokens of the history of the newest turns. */
  function RecentTokens(segments: seq<Segment>, recent: seq<nat>): nat {
    if segments == [] then 0 else
      var n := |segments| - 1;
      RecentTokens(segments[..n], recent) + (if IsRecent(segments[n], recent) then segments[n].tokens else 0)
  }

  lemma {:induction false} RecentTokensAre(segments: seq<Segment>, recent: seq<nat>, chosen: set<Slot>)
    requires forall s | s in segments && s.kind != Protected :: SlotOf(s, recent) in chosen <==> IsRecent(s, recent)
    ensures TokensIn(segments, recent, chosen) == RecentTokens(segments, recent)
  {
    if segments != [] {
      var n := |segments| - 1;
      assert segments[n] in segments;
      assert forall s | s in segments[..n] :: s in segments;
      RecentTokensAre(segments[..n], recent, chosen);
    }
  }

  ghost function RecentPlaces(input: PlanInput): set<Slot> { OfRank(UnitsOf(input).Keys, Recent) }

  lemma RecentFeasible(input: PlanInput)
    requires Fits(input) && RecentTokens(input.segments, RecentTurns(input)) <= BudgetOf(input).available
    ensures Feasible(UnitList(input), RecentPlaces(input), BudgetOf(input))
  {
    var recent, chosen, us, b := RecentTurns(input), RecentPlaces(input), UnitList(input), BudgetOf(input);
    EverySegmentHasAUnit(input.segments, recent);
    RecentTokensAre(input.segments, recent, chosen);
    GatherConserves(input.segments, recent, chosen);
    forall rank | b.Cap(rank).Some? ensures Spent(us, OfRank(chosen, rank)) == 0 {
      assert OfRank(chosen, rank) == {};
      NothingSpent(us);
    }
  }

  lemma {:induction false} NothingSpent(us: seq<Unit>)
    ensures Spent(us, {}) == 0
  {
    if us != [] { NothingSpent(us[..|us| - 1]); }
  }

  lemma {:induction false} RecentUnitsKept(input: PlanInput, i: nat)
    requires Fits(input) && Feasible(UnitList(input), RecentPlaces(input), BudgetOf(input))
    requires i < |UnitList(input)| && UnitList(input)[i].rank == Recent
    ensures UnitList(input)[i].Place() in Kept(TallyOf(input))
    decreases i
  {
    var us := UnitList(input);
    UnitListIs(input);
    forall j | 0 <= j < i
      ensures us[j].Place() in RecentPlaces(input) && us[j].Place() in Kept(TallyOf(input))
    {
      assert Before(us[j], us[i]);
      assert Holds(UnitsOf(input), us[j]);
      RecentUnitsKept(input, j);
    }
    assert Holds(UnitsOf(input), us[i]);
    BestInOrder(input, RecentPlaces(input), i);
  }

  lemma RecentSegmentKept(input: PlanInput, s: Segment)
    requires Fits(input) && Feasible(UnitList(input), RecentPlaces(input), BudgetOf(input))
    requires s in input.segments && IsRecent(s, RecentTurns(input))
    ensures WhyFor(input, s).Kept()
  {
    VerdictFor(input, s);
    var u := UnitsOf(input)[SlotOf(s, RecentTurns(input))];
    UnitListIs(input);
    assert Holds(UnitsOf(input), u);
    var i :| 0 <= i < |UnitList(input)| && UnitList(input)[i] == u;
    RecentUnitsKept(input, i);
  }

  /** When the newest turns fit together, all of them are kept. */
  lemma RecentTurnsKept(input: PlanInput)
    requires PlanOf(input).Ok?
    requires RecentTokens(input.segments, RecentTurns(input)) <= PlanOf(input).value.available
    ensures forall s | s in input.segments && IsRecent(s, RecentTurns(input)) :: WhyFor(input, s).Kept()
    ensures !PlanOf(input).value.recentShort
  {
    RecentFeasible(input);
    forall s | s in input.segments && IsRecent(s, RecentTurns(input)) ensures WhyFor(input, s).Kept() {
      RecentSegmentKept(input, s);
    }
    RecentShortMeans(input);
  }

  lemma RecentAfter(kept: set<Slot>, k: Slot)
    requires k !in kept
    ensures |OfRank(kept + {k}, Recent)| == |OfRank(kept, Recent)| + (if k.rank == Recent then 1 else 0)
  {
    assert OfRank(kept + {k}, Recent) == if k.rank == Recent then OfRank(kept, Recent) + {k} else OfRank(kept, Recent);
  }

  lemma StepRecent(t: Tally, u: Unit, b: Budget)
    requires u.Place() !in t.verdicts && t.recentKept == |OfRank(Kept(t), Recent)|
    ensures Consider(t, u, b).recentKept == |OfRank(Kept(Consider(t, u, b)), Recent)|
  {
    StepKept(t, u, b);
    if Judge(t, u, b).Kept() {
      RecentAfter(Kept(t), u.Place());
    } else {
      assert Kept(t) + {} == Kept(t);
    }
  }

  lemma {:induction false} RecentCounted(us: seq<Unit>, b: Budget)
    requires DistinctPlaces(us)
    ensures Admit(us, b).recentKept == |OfRank(Kept(Admit(us, b)), Recent)|
  {
    if us != [] {
      var front, u := us[..|us| - 1], us[|us| - 1];
      DistinctFront(us);
      RecentCounted(front, b);
      AdmitAccounts(front, b);
      StepRecent(Admit(front, b), u, b);
    }
  }

  function TurnPlaces(turns: seq<nat>): set<Slot> {
    if turns == [] then {} else TurnPlaces(turns[1..]) + {Slot(Recent, TurnKey(turns[0]))}
  }

  lemma TurnKeysDiffer(t: nat, u: nat)
    requires TurnKey(t) == TurnKey(u)
    ensures t == u
  {
    assert TurnKey(t)[5..] == Decimal(t) && TurnKey(u)[5..] == Decimal(u);
    NumberOfDecimal(t);
    NumberOfDecimal(u);
  }

  lemma {:induction false} TurnPlacesAre(turns: seq<nat>)
    requires Ascending(Newer, turns)
    ensures |TurnPlaces(turns)| == |turns|
    ensures forall k :: k in TurnPlaces(turns) <==> exists t :: t in turns && k == Slot(Recent, TurnKey(t))
  {
    if turns != [] {
      TurnPlacesAre(turns[1..]);
      var k := Slot(Recent, TurnKey(turns[0]));
      assert k !in TurnPlaces(turns[1..]) by {
        forall t | t in turns[1..] ensures Slot(Recent, TurnKey(t)) != k {
          if TurnKey(t) == TurnKey(turns[0]) { TurnKeysDiffer(t, turns[0]); }
        }
      }
      assert forall t :: t in turns <==> t == turns[0] || t in turns[1..];
    }
  }

  lemma RecentPlacesAreTurns(input: PlanInput)
    ensures RecentPlaces(input) == TurnPlaces(RecentTurns(input))
    ensures |RecentPlaces(input)| == |RecentTurns(input)|
  {
    var recent := RecentTurns(input);
    HistoryTurnsAre(input.segments);
    TurnPlacesAre(recent);
    hide TurnPlaces, RecentPlaces, RecentTurns, HistoryTurns, Ascending;
    forall k ensures k in RecentPlaces(input) <==> k in TurnPlaces(recent) { RecentPlaceIs(input, k); }
  }

  lemma RecentPlaceIs(input: PlanInput, k: Slot)
    ensures k in RecentPlaces(input) <==> exists t :: t in RecentTurns(input) && k == Slot(Recent, TurnKey(t))
  {
    var recent := RecentTurns(input);
    HistoryTurnsAre(input.segments);
    EverySegmentHasAUnit(input.segments, recent);
    hide HistoryTurns, Ascending;
    if k in RecentPlaces(input) {
      var s :| s in input.segments && s.kind != Protected && SlotOf(s, recent) == k;
      assert s.turn in recent;
    }
    if t :| t in recent && k == Slot(Recent, TurnKey(t)) {
      assert t in HistoryTurns(input.segments);
      assert HasHistory(input.segments, t);
      var s :| s in input.segments && s.kind == History && s.turn == t;
      assert SlotOf(s, recent) == k;
    }
  }

  lemma RecentKeptCount(input: PlanInput)
    requires Fits(input)
    ensures TallyOf(input).recentKept < |RecentTurns(input)| <==>
            OfRank(Kept(TallyOf(input)), Recent) != RecentPlaces(input)
  {
    var all, kept := RecentPlaces(input), OfRank(Kept(TallyOf(input)), Recent);
    UnitListIs(input);
    RecentCounted(UnitList(input), BudgetOf(input));
    AdmitAccounts(UnitList(input), BudgetOf(input));
    RecentPlacesAreTurns(input);
    forall k | k in kept ensures k in all {
      var u :| u in UnitList(input) && u.Place() == k;
      assert Holds(UnitsOf(input), u);
    }
    SubsetCount(kept, all);
  }

  /** `recent_short` says exactly that a message of the newest turns was left out. */
  lemma RecentShortMeans(input: PlanInput)
    requires PlanOf(input).Ok?
    ensures PlanOf(input).value.recentShort <==>
      exists s :: s in input.segments && IsRecent(s, RecentTurns(input)) && !WhyFor(input, s).Kept()
  {
    var recent := RecentTurns(input);
    RecentKeptCount(input);
    EverySegmentHasAUnit(input.segments, recent);
    forall k | k in OfRank(Kept(TallyOf(input)), Recent) ensures k in RecentPlaces(input) { KeptPlace(input, k); }
    forall k | k in RecentPlaces(input)
      ensures exists s ::
                && s in input.segments && IsRecent(s, recent) && SlotOf(s, recent) == k
                && (WhyFor(input, s).Kept() <==> k in Kept(TallyOf(input)))
    {
      var s :| s in input.segments && s.kind != Protected && SlotOf(s, recent) == k;
      VerdictFor(input, s);
    }
    forall s | s in input.segments && IsRecent(s, recent)
      ensures SlotOf(s, recent) in RecentPlaces(input)
      ensures WhyFor(input, s).Kept() <==> SlotOf(s, recent) in Kept(TallyOf(input))
    {
      VerdictFor(input, s);
    }
  }

  lemma KeptPlace(input: PlanInput, k: Slot)
    requires Fits(input) && k in Kept(TallyOf(input))
    ensures k in UnitsOf(input)
  {
    UnitListIs(input);
    AdmitAccounts(UnitList(input), BudgetOf(input));
    var u :| u in UnitList(input) && u.Place() == k;
    assert Holds(UnitsOf(input), u);
  }

  lemma SubsetCount<T>(a: set<T>, b: set<T>)
    requires a <= b
    ensures |a| <= |b| && (|a| == |b| <==> a == b)
  {
    assert b == a + (b - a);
  }

  // ----- evictable content -----

  /** The segments that are not evictable, in their order. */
  function Lasting(segments: seq<Segment>): (r: seq<Segment>)
  {
    if segments == [] then [] else
      var n := |segments| - 1;
      Lasting(segments[..n]) + (if segments[n].kind == Evictable then [] else [segments[n]])
  }

  function Without(input: PlanInput): PlanInput { input.(segments := Lasting(input.segments)) }

  function LastingUnits(units: Units): Units { map k | k in units && k.rank != Last :: units[k] }

  lemma {:induction false} LastingMembers(segments: seq<Segment>)
    ensures forall s :: s in Lasting(segments) <==> s in segments && s.kind != Evictable
  {
    if segments != [] {
      var n := |segments| - 1;
      LastingMembers(segments[..n]);
      assert segments == segments[..n] + [segments[n]];
    }
  }

  lemma {:induction false} LastingProtected(segments: seq<Segment>)
    ensures ProtectedTokens(Lasting(segments)) == ProtectedTokens(segments)
  {
    if segments != [] {
      var n := |segments| - 1;
      LastingProtected(segments[..n]);
      if segments[n].kind == Evictable {
        assert Lasting(segments) == Lasting(segments[..n]);
      } else {
        FoldPush(AddProtected, 0, Lasting(segments[..n]), segments[n]);
      }
    }
  }

  lemma LastingAdd(units: Units, s: Segment, recent: seq<nat>)
    ensures LastingUnits(AddSegment(units, s, recent)) ==
      if s.kind == Evictable then LastingUnits(units) else AddSegment(LastingUnits(units), s, recent)
  {
  }

  lemma {:induction false} LastingGather(segments: seq<Segment>, recent: seq<nat>)
    ensures Gather(Lasting(segments), recent) == LastingUnits(Gather(segments, recent))
  {
    if segments != [] {
      var n := |segments| - 1;
      LastingGather(segments[..n], recent);
      LastingAdd(Gather(segments[..n], recent), segments[n], recent);
      if segments[n].kind == Evictable {
        assert Lasting(segments) == Lasting(segments[..n]);
      } else {
        FoldPush(Adder(recent), map[], Lasting(segments[..n]), segments[n]);
      }
    }
  }

  lemma LastingTurns(input: PlanInput)
    ensures RecentTurns(Without(input)) == RecentTurns(input)
  {
    LastingMembers(input.segments);
    HistoryTurnsPermute(Lasting(input.segments), input.segments);
  }

  /** Where the units of the last rank begin. */
  lemma {:induction false} LastBegins(us: seq<Unit>) returns (n: nat)
    requires Ascending(Before, us)
    ensures n <= |us|
    ensures forall i | 0 <= i < |us| :: us[i].rank == Last <==> n <= i
  {
    if us == [] {
      n := 0;
    } else {
      var front := us[..|us| - 1];
      n := LastBegins(front);
      if us[|us| - 1].rank != Last {
        forall i | 0 <= i < |front| ensures us[i].rank != Last {
          assert Before(us[i], us[|us| - 1]);
        }
        n := |us|;
      }
      forall i | 0 <= i < |front| ensures us[i].rank == Last <==> n <= i {
        assert us[i] == front[i];
      }
    }
  }

  lemma LastingOrder(units: Units) returns (n: nat)
    requires Keyed(units)
    ensures n <= |Order(units)| && Order(units)[..n] == Order(LastingUnits(units))
    ensures forall i | 0 <= i < |Order(units)| :: Order(units)[i].rank == Last <==> n <= i
  {
    var us := Order(units);
    OrderIs(units);
    n := LastBegins(us);
    forall u ensures u in us[..n] <==> Holds(LastingUnits(units), u) {
      assert u in us <==> Holds(units, u);
      if u in us && u.rank != Last {
        var i :| 0 <= i < |us| && us[i] == u;
        assert us[..n][i] == u;
      }
    }
    OrderUnique(LastingUnits(units), us[..n]);
  }

  lemma {:induction false} LastRankQuiet(us: seq<Unit>, b: Budget, n: nat)
    requires n <= |us| && forall i | n <= i < |us| :: us[i].rank == Last
    ensures Admit(us, b).recentKept == Admit(us[..n], b).recentKept
    ensures Admit(us, b).droppedNeeded == Admit(us[..n], b).droppedNeeded
    decreases |us|
  {
    if n == |us| {
      assert us[..n] == us;
    } else {
      var front := us[..|us| - 1];
      LastRankQuiet(front, b, n);
      assert front[..n] == us[..n];
    }
  }

  lemma WithoutFigures(input: PlanInput)
    ensures ProtectedTokens(Without(input).segments) == ProtectedTokens(input.segments)
    ensures Room(Without(input)) == Room(input)
    ensures UnitsOf(Without(input)) == LastingUnits(UnitsOf(input))
  {
    LastingProtected(input.segments);
    LastingTurns(input);
    LastingGather(input.segments, RecentTurns(input));
  }

  /** What comes after the first `n` units does not change their verdicts. */
  lemma PrefixVerdicts(us: seq<Unit>, b: Budget, n: nat)
    requires DistinctPlaces(us) && n <= |us| && forall i | n <= i < |us| :: us[i].rank == Last
    ensures forall k: Slot | k.rank != Last && k in Admit(us, b).verdicts ::
      k in Admit(us[..n], b).verdicts && Admit(us[..n], b).verdicts[k] == Admit(us, b).verdicts[k]
  {
    AdmitAccounts(us, b);
    forall k: Slot | k.rank != Last && k in Admit(us, b).verdicts
      ensures k in Admit(us[..n], b).verdicts && Admit(us[..n], b).verdicts[k] == Admit(us, b).verdicts[k]
    {
      var u :| u in us && u.Place() == k;
      var i :| 0 <= i < |us| && us[i] == u;
      VerdictSettled(us, b, i);
      VerdictSettled(us[..n], b, i);
      assert us[..n][..i] == us[..i];
    }
  }

  lemma WithoutTally(input: PlanInput)
    requires Fits(input)
    ensures Fits(Without(input)) && BudgetOf(Without(input)) == BudgetOf(input)
    ensures TallyOf(Without(input)).recentKept == TallyOf(input).recentKept
    ensures TallyOf(Without(input)).droppedNeeded == TallyOf(input).droppedNeeded
    ensures forall k: Slot | k.rank != Last && k in TallyOf(input).verdicts ::
      k in TallyOf(Without(input)).verdicts && TallyOf(Without(input)).verdicts[k] == TallyOf(input).verdicts[k]
  {
    WithoutBudget(input);
    var n := WithoutList(input);
    var us, b := UnitList(input), BudgetOf(input);
    assert TallyOf(input) == Admit(us, b) && TallyOf(Without(input)) == Admit(us[..n], b) by {
      hide UnitList, BudgetOf, Admit, Without;
    }
    hide *;
    LastRankQuiet(us, b, n);
    PrefixVerdicts(us, b, n);
  }

  lemma WithoutBudget(input: PlanInput)
    requires Fits(input)
    ensures Fits(Without(input)) && BudgetOf(Without(input)) == BudgetOf(input)
  {
    WithoutFigures(input);
    hide UnitsOf, Room, ProtectedTokens;
  }

  lemma WithoutList(input: PlanInput) returns (n: nat)
    ensures n <= |UnitList(input)| && UnitList(Without(input)) == UnitList(input)[..n]
    ensures DistinctPlaces(UnitList(input)) && forall i | n <= i < |UnitList(input)| :: UnitList(input)[i].rank == Last
  {
    WithoutFigures(input);
    UnitListIs(input);
    hide UnitsOf, Without, LastingUnits, Order, Keyed, DistinctPlaces;
    n := LastingOrder(UnitsOf(input));
  }

  /** Leaving all evictable segments away changes no other decision. */
  lemma EvictableIgnored(input: PlanInput, s: Segment)
    requires Fits(input) && s in input.segments && s.kind != Evictable
    ensures Fits(Without(input)) && WhyFor(Without(input), s) == WhyFor(input, s)
  {
    WithoutTally(input);
    LastingTurns(input);
    if s.kind != Protected { VerdictFor(input, s); }
  }

  ghost predicate SameButEvictable(a: PlanInput, b: PlanInput) {
    && a == b.(segments := a.segments)
    && multiset(Lasting(a.segments)) == multiset(Lasting(b.segments))
  }

  /** Adding, removing or reordering evictable segments changes no decision about the others. */
  lemma EvictableIndependent(a: PlanInput, b: PlanInput)
    requires SameButEvictable(a, b)
    ensures PlanOf(a).Err? ==> PlanOf(a) == PlanOf(b)
    ensures PlanOf(a).Ok? ==>
      && PlanOf(b).Ok?
      && PlanOf(a).value.available == PlanOf(b).value.available
      && PlanOf(a).value.recentShort == PlanOf(b).value.recentShort
      && forall s | s in a.segments && s.kind != Evictable :: s in b.segments && WhyFor(a, s) == WhyFor(b, s)
  {
    WithoutFigures(a);
    WithoutFigures(b);
    SameUnits(Without(a), Without(b));
    if Fits(a) {
      EvictableTransfers(a, b);
      forall s | s in a.segments && s.kind != Evictable ensures s in b.segments && WhyFor(a, s) == WhyFor(b, s) {
        SegmentTransfers(a, b, s);
      }
    }
  }

  lemma EvictableTransfers(a: PlanInput, b: PlanInput)
    requires SameButEvictable(a, b) && Fits(a) && Fits(b)
    ensures BudgetOf(a).available == BudgetOf(b).available
    ensures (TallyOf(a).recentKept < |RecentTurns(a)|) == (TallyOf(b).recentKept < |RecentTurns(b)|)
  {
    WithoutTally(a);
    WithoutTally(b);
    LastingTurns(a);
    LastingTurns(b);
    SameTally(Without(a), Without(b));
  }

  lemma SegmentTransfers(a: PlanInput, b: PlanInput, s: Segment)
    requires SameButEvictable(a, b) && Fits(a) && Fits(b) && s in a.segments && s.kind != Evictable
    ensures s in b.segments && WhyFor(a, s) == WhyFor(b, s)
  {
    LastingMembers(a.segments);
    LastingMembers(b.segments);
    SameMembers(Lasting(a.segments), Lasting(b.segments));
    EvictableIgnored(a, s);
    EvictableIgnored(b, s);
    SameTally(Without(a), Without(b));
  }
}
