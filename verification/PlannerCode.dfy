/** The loops of `plan` (context/src/planner.rs), proved to compute `PlanOf`. */
module PlannerCode {
  import opened Wrappers
  import opened Numbers
  import opened Planner
  import opened PlannerOrder
  import opened PlannerPlan
  import opened Sorting

  /** A unit with the places of its segments in the input. */
  datatype Gathered = Gathered(unit: Unit, members: seq<nat>)

  type GatheredUnits = map<Slot, Gathered>

  ghost function Bare(units: GatheredUnits): Units { map k | k in units :: units[k].unit }

  ghost function BareList(us: seq<Gathered>): (r: seq<Unit>)
    ensures |r| == |us| && forall i | 0 <= i < |us| :: r[i] == us[i].unit
  {
    seq(|us|, i requires 0 <= i < |us| => us[i].unit)
  }

  /** `members` are the places below `n` whose segments belong to the unit of `k`. */
  ghost predicate MembersOf(members: seq<nat>, segments: seq<Segment>, n: nat, recent: seq<nat>, k: Slot)
    requires n <= |segments|
  {
    forall i :: i in members <==> 0 <= i < n && segments[i].kind != Protected && SlotOf(segments[i], recent) == k
  }

  method ProtectedSum(segments: seq<Segment>) returns (sum: nat)
    ensures sum == ProtectedTokens(segments)
  {
    sum := 0;
    for i := 0 to |segments|
      invariant sum == ProtectedTokens(segments[..i])
    {
      assert segments[..i + 1][..i] == segments[..i];
      if segments[i].kind == Protected { sum := sum + segments[i].tokens; }
    }
    assert segments[..|segments|] == segments;
  }

  /** Sorted newest first and without repeats, as each turn is seen. */
  method NewestTurns(segments: seq<Segment>, n: nat) returns (turns: seq<nat>)
    ensures turns == Take(HistoryTurns(segments), n)
  {
    turns := [];
    for i := 0 to |segments|
      invariant turns == HistoryTurns(segments[..i])
    {
      assert segments[..i + 1][..i] == segments[..i];
      turns := NoteTurn(turns, segments[i]);
    }
    assert segments[..|segments|] == segments;
    turns := Take(turns, n);
  }

  ghost predicate GatheredUpTo(units: GatheredUnits, segments: seq<Segment>, n: nat, recent: seq<nat>)
    requires n <= |segments|
  {
    && Bare(units) == Gather(segments[..n], recent)
    && forall k | k in units :: MembersOf(units[k].members, segments, n, recent, k)
  }

  method GatherUnits(segments: seq<Segment>, recent: seq<nat>) returns (units: GatheredUnits)
    ensures GatheredUpTo(units, segments, |segments|, recent)
  {
    units := map[];
    assert Bare(units) == map[];
    for index := 0 to |segments|
      invariant GatheredUpTo(units, segments, index, recent)
    {
      units := GatherOne(units, segments, index, recent);
    }
  }

  method GatherOne(before: GatheredUnits, segments: seq<Segment>, index: nat, recent: seq<nat>)
      returns (units: GatheredUnits)
    requires index < |segments| && GatheredUpTo(before, segments, index, recent)
    ensures GatheredUpTo(units, segments, index + 1, recent)
  {
    var s := segments[index];
    units := before;
    assert segments[..index + 1][..index] == segments[..index];
    if s.kind != Protected {
      var k := SlotOf(s, recent);
      if k in units {
        var u := units[k].unit;
        var joined := Unit(k.rank, MaxReal(u.score, s.score), Max(u.turn, s.turn), k.key, u.tokens + s.tokens);
        MembersPush(units[k].members, segments, index, recent, k);
        units := units[k := Gathered(joined, units[k].members + [index])];
      } else {
        NewUnit(segments, index, recent, k);
        MembersPush([], segments, index, recent, k);
        units := units[k := Gathered(Unit(k.rank, s.score, s.turn, k.key, s.tokens), [index])];
      }
      BareJoin(before, units, k, s);
    }
  }

  lemma MembersPush(members: seq<nat>, segments: seq<Segment>, n: nat, recent: seq<nat>, k: Slot)
    requires n < |segments| && MembersOf(members, segments, n, recent, k)
    requires segments[n].kind != Protected && SlotOf(segments[n], recent) == k
    ensures MembersOf(members + [n], segments, n + 1, recent, k)
  {
    forall i: nat ensures i in members + [n] <==> i in members || i == n {}
  }

  lemma BareJoin(before: GatheredUnits, after: GatheredUnits, k: Slot, s: Segment)
    requires k in after && after == before[k := after[k]]
    requires var u := if k in before then before[k].unit else Unit(k.rank, s.score, s.turn, k.key, 0);
      after[k].unit == Unit(k.rank, MaxReal(u.score, s.score), Max(u.turn, s.turn), k.key, u.tokens + s.tokens)
    ensures Bare(after) == Join(Bare(before), k, s)
  {
  }

  lemma NewUnit(segments: seq<Segment>, index: nat, recent: seq<nat>, k: Slot)
    requires index < |segments| && k !in Gather(segments[..index], recent)
    ensures MembersOf([], segments, index, recent, k)
  {
    EverySegmentHasAUnit(segments[..index], recent);
    forall i | 0 <= i < index && segments[i].kind != Protected ensures SlotOf(segments[i], recent) != k {
      assert segments[i] in segments[..index];
    }
  }

  predicate BeforeGathered(a: Gathered, b: Gathered) { Before(a.unit, b.unit) }

  /** The units of the map in admission order. */
  method SortUnits(units: GatheredUnits) returns (us: seq<Gathered>)
    requires Keyed(Bare(units))
    ensures BareList(us) == Order(Bare(units))
    ensures forall i | 0 <= i < |us| :: us[i].unit.Place() in units && units[us[i].unit.Place()] == us[i]
  {
    var rest := units.Keys;
    us := [];
    while rest != {}
      invariant rest <= units.Keys
      invariant forall g :: g in us <==> g.unit.Place() in units.Keys - rest && units[g.unit.Place()] == g
      invariant forall i, j | 0 <= i < j < |us| :: us[i].unit.Place() != us[j].unit.Place()
    {
      var k :| k in rest;
      assert Bare(units)[k].Place() == k;
      forall i | 0 <= i < |us| ensures us[i].unit.Place() != k { assert us[i] in us; }
      us := us + [units[k]];
      rest := rest - {k};
    }
    var listed := us;
    us := Sort(BeforeGathered, listed);
    SortedUnits(units, listed);
  }

  lemma SortedGathered(listed: seq<Gathered>)
    requires forall i, j | 0 <= i < j < |listed| :: listed[i].unit.Place() != listed[j].unit.Place()
    ensures var us := Sort(BeforeGathered, listed);
      Ascending(Before, BareList(us)) && forall g :: g in us <==> g in listed
  {
    var us := Sort(BeforeGathered, listed);
    BeforeIsStrict();
    forall i, j | 0 <= i < j < |listed|
      ensures BeforeGathered(listed[i], listed[j]) || BeforeGathered(listed[j], listed[i])
    {
      PlacesDecide(listed[i].unit, listed[j].unit);
    }
    SortAscending(BeforeGathered, listed);
    SameMembers(us, listed);
    forall i, j | 0 <= i < j < |us| ensures Before(BareList(us)[i], BareList(us)[j]) {
      assert BeforeGathered(us[i], us[j]);
    }
  }

  lemma SortedUnits(units: GatheredUnits, listed: seq<Gathered>)
    requires Keyed(Bare(units))
    requires forall g :: g in listed <==> g.unit.Place() in units && units[g.unit.Place()] == g
    requires forall i, j | 0 <= i < j < |listed| :: listed[i].unit.Place() != listed[j].unit.Place()
    ensures var us := Sort(BeforeGathered, listed);
      && BareList(us) == Order(Bare(units))
      && forall i | 0 <= i < |us| :: us[i].unit.Place() in units && units[us[i].unit.Place()] == us[i]
  {
    var us := Sort(BeforeGathered, listed);
    SortedGathered(listed);
    forall i | 0 <= i < |us| ensures us[i] in listed { assert us[i] in us; }
    forall u ensures u in BareList(us) <==> Holds(Bare(units), u) { BareMember(units, us, u); }
    OrderUnique(Bare(units), BareList(us));
  }

  lemma BareMember(units: GatheredUnits, us: seq<Gathered>, u: Unit)
    requires forall g :: g in us <==> g.unit.Place() in units && units[g.unit.Place()] == g
    requires Keyed(Bare(units))
    ensures u in BareList(us) <==> Holds(Bare(units), u)
  {
    if Holds(Bare(units), u) {
      var g := units[u.Place()];
      assert g.unit == u && g in us;
      var i :| 0 <= i < |us| && us[i] == g;
      assert BareList(us)[i] == u;
    }
    if u in BareList(us) {
      var i :| 0 <= i < |us| && BareList(us)[i] == u;
      assert us[i] in us;
    }
  }

  /** The outcome of a segment once the units of `verdicts` have been considered. */
  function OutcomeOf(verdicts: map<Slot, Why>, s: Segment, recent: seq<nat>): Option<Why> {
    if s.kind == Protected || SlotOf(s, recent) !in verdicts then None else Some(verdicts[SlotOf(s, recent)])
  }

  /** Greedy admission; the verdict of a unit is written to the place of each of its members. */
  method AdmitUnits(us: seq<Gathered>, b: Budget, segments: seq<Segment>, recent: seq<nat>)
    returns (used: nat, outcome: seq<Option<Why>>, recentKept: nat, droppedNeeded: bool)
    requires DistinctPlaces(BareList(us))
    requires forall i | 0 <= i < |us| :: MembersOf(us[i].members, segments, |segments|, recent, us[i].unit.Place())
    ensures var t := Admit(BareList(us), b);
      && used == t.used && recentKept == t.recentKept && droppedNeeded == t.droppedNeeded
      && |outcome| == |segments|
      && forall m | 0 <= m < |segments| :: outcome[m] == OutcomeOf(t.verdicts, segments[m], recent)
  {
    used, recentKept, droppedNeeded := 0, 0, false;
    var byRank: map<Rank, nat> := map[];
    outcome := seq(|segments|, _ => None);
    ghost var t := NOTHING_ADMITTED;
    for n := 0 to |us|
      invariant t == Admit(BareList(us)[..n], b)
      invariant t.used == used && t.byRank == byRank && t.recentKept == recentKept && t.droppedNeeded == droppedNeeded
      invariant |outcome| == |segments|
      invariant forall m | 0 <= m < |segments| :: outcome[m] == OutcomeOf(t.verdicts, segments[m], recent)
    {
      var unit := us[n].unit;
      ghost var next := Consider(t, unit, b);
      assert BareList(us)[..n + 1][..n] == BareList(us)[..n];
      assert next == Admit(BareList(us)[..n + 1], b);
      var inRank := if unit.rank in byRank then byRank[unit.rank] else 0;
      var cap := b.Cap(unit.rank);
      var why: Why;
      if cap.Some? && inRank + unit.tokens > cap.value {
        why := OverCap(unit.rank, cap.value);
      } else if used + unit.tokens > b.available {
        why := NoRoom(unit.rank, unit.tokens, SaturatingSub(b.available, used));
      } else {
        why := Admitted(unit.rank);
      }
      if why.Kept() {
        used := used + unit.tokens;
        byRank := byRank[unit.rank := inRank + unit.tokens];
        if unit.rank == Recent { recentKept := recentKept + 1; }
      } else if unit.rank != Last {
        droppedNeeded := true;
      }
      outcome := WriteMembers(outcome, us[n].members, why);
      t := next;
    }
    assert BareList(us)[..|us|] == BareList(us);
  }

  method WriteMembers(before: seq<Option<Why>>, members: seq<nat>, why: Why) returns (outcome: seq<Option<Why>>)
    requires forall m | m in members :: m < |before|
    ensures |outcome| == |before|
    ensures forall m | 0 <= m < |before| :: outcome[m] == if m in members then Some(why) else before[m]
  {
    outcome := before;
    for i := 0 to |members|
      invariant |outcome| == |before|
      invariant forall m | 0 <= m < |before| :: outcome[m] == if m in members[..i] then Some(why) else before[m]
    {
      assert members[i] in members;
      outcome := outcome[members[i] := Some(why)];
      assert members[..i + 1] == members[..i] + [members[i]];
    }
    assert members[..|members|] == members;
  }

  method Decisions(segments: seq<Segment>, outcome: seq<Option<Why>>, ghost whys: seq<Why>)
    returns (kept: seq<Decision>, dropped: seq<Decision>)
    requires |segments| == |outcome| == |whys|
    requires forall i | 0 <= i < |whys| :: whys[i] == if outcome[i].Some? then outcome[i].value else IsProtected
    ensures kept == Report(segments, whys, true) && dropped == Report(segments, whys, false)
  {
    kept, dropped := [], [];
    for i := 0 to |segments|
      invariant kept == Report(segments[..i], whys[..i], true)
      invariant dropped == Report(segments[..i], whys[..i], false)
    {
      assert segments[..i + 1][..i] == segments[..i] && whys[..i + 1][..i] == whys[..i];
      var why := if outcome[i].Some? then outcome[i].value else IsProtected;
      if why.Kept() {
        kept := kept + [Decided(segments[i], why)];
      } else {
        dropped := dropped + [Decided(segments[i], why)];
      }
    }
    assert segments[..|segments|] == segments && whys[..|whys|] == whys;
  }

  method Plan(input: PlanInput) returns (r: Result<Plan, PlanError>)
    ensures r == PlanOf(input)
  {
    var reserveThinking := if input.thinking then input.reserveAnswer else 0;
    var margin := Percent(input.nCtx, input.policy.marginPct);
    var room := SaturatingSub(input.nCtx, input.reserveAnswer + reserveThinking + margin);
    var protected := ProtectedSum(input.segments);
    if protected > room {
      return Err(ProtectedDoesNotFit(protected, room));
    }
    var plan := Fit(input, reserveThinking, margin, protected, room - protected);
    r := Ok(plan);
  }

  method Fit(input: PlanInput, reserveThinking: nat, margin: nat, protected: nat, available: nat) returns (plan: Plan)
    requires Fits(input) && reserveThinking == ReserveThinking(input) && margin == Margin(input)
    requires protected == ProtectedTokens(input.segments) && available == BudgetOf(input).available
    ensures plan == Fitted(input)
  {
    var recent := NewestTurns(input.segments, input.policy.recentTurnsMin);
    var budget := Budget(available, Percent(available, input.policy.evidenceCapPct),
                         Percent(available, input.policy.suggestionsCapPct));
    var used, kept, dropped, recentKept, droppedNeeded := Select(input, recent, budget);
    var needsCompaction := NeedsCompaction(droppedNeeded, used, available, input.policy);
    FittedIs(input);
    plan := Planner.Plan(input.nCtx, input.reserveAnswer, reserveThinking, margin, protected, available, used,
                         kept, dropped, recentKept < |recent|, needsCompaction);
  }

  method Select(input: PlanInput, recent: seq<nat>, budget: Budget)
    returns (used: nat, kept: seq<Decision>, dropped: seq<Decision>, recentKept: nat, droppedNeeded: bool)
    requires Fits(input) && recent == RecentTurns(input) && budget == BudgetOf(input)
    ensures used == TallyOf(input).used && recentKept == TallyOf(input).recentKept
    ensures droppedNeeded == TallyOf(input).droppedNeeded
    ensures kept == Report(input.segments, Whys(input), true) && dropped == Report(input.segments, Whys(input), false)
  {
    var us := UnitsInOrder(input, recent);
    assert DistinctPlaces(BareList(us)) by { UnitListIs(input); }
    var outcome: seq<Option<Why>>;
    used, outcome, recentKept, droppedNeeded := AdmitUnits(us, budget, input.segments, recent);
    OutcomeIsWhy(input, outcome);
    kept, dropped := Decisions(input.segments, outcome, Whys(input));
  }

  lemma OutcomeIsWhy(input: PlanInput, outcome: seq<Option<Why>>)
    requires Fits(input) && |outcome| == |input.segments|
    requires forall m | 0 <= m < |outcome| ::
               outcome[m] == OutcomeOf(TallyOf(input).verdicts, input.segments[m], RecentTurns(input))
    ensures forall i | 0 <= i < |outcome| ::
              Whys(input)[i] == if outcome[i].Some? then outcome[i].value else IsProtected
  {
  }

  /** The figures of the plan, named. */
  lemma FittedIs(input: PlanInput)
    requires Fits(input)
    ensures var t, available := TallyOf(input), BudgetOf(input).available;
      Fitted(input) == Planner.Plan(
        input.nCtx, input.reserveAnswer, ReserveThinking(input), Margin(input), ProtectedTokens(input.segments),
        available, t.used,
        Report(input.segments, Whys(input), true), Report(input.segments, Whys(input), false),
        t.recentKept < |RecentTurns(input)|, NeedsCompaction(t.droppedNeeded, t.used, available, input.policy))
  {
  }

  method UnitsInOrder(input: PlanInput, recent: seq<nat>) returns (us: seq<Gathered>)
    requires recent == RecentTurns(input)
    ensures BareList(us) == UnitList(input)
    ensures forall i | 0 <= i < |us| ::
              MembersOf(us[i].members, input.segments, |input.segments|, recent, us[i].unit.Place())
  {
    var units := GatherUnits(input.segments, recent);
    assert input.segments[..|input.segments|] == input.segments;
    UnitListIs(input);
    us := SortUnits(units);
  }
}
