/**
 What a plan is, said of the segments alone: which go together, which go first, and which are kept. Nothing
 here speaks of units, of the order they are sorted in, or of the running totals.
 */
module PlannerMeaning {
  import opened Wrappers
  import opened Planner
  import opened PlannerOrder
  import opened PlannerBudget
  import opened PlannerPlan
  import opened PlannerPriority
  import opened Sorting
  import opened Text

  // ----- segments that go together -----

  function GroupName(s: Segment): string { if s.group.Some? then s.group.value else s.id }

  /** History goes by its turn; the rest by its class and its group, or alone. */
  predicate Together(s: Segment, t: Segment) {
    && s.kind == t.kind && s.kind != Protected
    && if s.kind == History then s.turn == t.turn else GroupName(s) == GroupName(t)
  }

  ghost function Mates(input: PlanInput, s: Segment): set<Segment> { set x | x in input.segments && Together(s, x) }

  /** The tokens of the segments that are among the chosen. */
  function TokensOf(segments: seq<Segment>, chosen: set<Segment>): nat {
    if segments == [] then 0 else
      var n := |segments| - 1;
      TokensOf(segments[..n], chosen) + (if segments[n] in chosen then segments[n].tokens else 0)
  }

  /** What must be admitted for the segment, all together. */
  ghost function Weight(input: PlanInput, s: Segment): nat { TokensOf(input.segments, Mates(input, s)) }

  // ----- segments that go first -----

  ghost function NewerTurns(input: PlanInput, turn: nat): set<nat> {
    set s | s in input.segments && s.kind == History && s.turn > turn :: s.turn
  }

  /** History of one of the newest turns that have any. */
  ghost predicate IsNew(input: PlanInput, s: Segment) {
    s.kind == History && |NewerTurns(input, s.turn)| < input.policy.recentTurnsMin
  }

  ghost function RankFor(input: PlanInput, s: Segment): Rank
    requires s.kind != Protected
  {
    match s.kind
    case History => if IsNew(input, s) then Recent else Older
    case ToolsInUse => InUse
    case Evidence => Proof
    case Suggestions => Hints
    case Evictable => Last
  }

  /** New turns, tools in use, evidence, suggestions, older turns, what may go at any time. */
  ghost predicate RankFirst(a: Rank, b: Rank) {
    match a
    case Recent => b != Recent
    case InUse => b.Proof? || b.Hints? || b.Older? || b.Last?
    case Proof => b.Hints? || b.Older? || b.Last?
    case Hints => b.Older? || b.Last?
    case Older => b.Last?
    case Last => false
  }

  /** Some segment that goes with `a` has a higher score than all that go with `b`. */
  ghost predicate Higher(input: PlanInput, a: Segment, b: Segment) {
    exists x :: x in Mates(input, a) && forall y | y in Mates(input, b) :: x.score > y.score
  }

  ghost predicate NewerThan(input: PlanInput, a: Segment, b: Segment) {
    exists x :: x in Mates(input, a) && forall y | y in Mates(input, b) :: x.turn > y.turn
  }

  /** By rank; new turns from the newest on; the rest by the higher score, the newer turn and the group's name. */
  ghost predicate GoesFirst(input: PlanInput, a: Segment, b: Segment)
    requires a.kind != Protected && b.kind != Protected
  {
    var r := RankFor(input, a);
    if r != RankFor(input, b) then RankFirst(r, RankFor(input, b))
    else if r == Recent then a.turn > b.turn
    else if Higher(input, a, b) || Higher(input, b, a) then Higher(input, a, b)
    else if NewerThan(input, a, b) || NewerThan(input, b, a) then NewerThan(input, a, b)
    else a.kind != History && LexBefore(GroupName(a), GroupName(b))
  }

  // ----- which segments are kept -----

  /** The tokens of what must be in the prompt. */
  ghost function MustHave(input: PlanInput): nat {
    TokensOf(input.segments, set x | x in input.segments && x.kind == Protected)
  }

  /** The context without what the answer, the thinking before it and the margin take, or nothing. */
  ghost function Spare(input: PlanInput): nat {
    var taken := input.reserveAnswer + (if input.thinking then input.reserveAnswer else 0)
      + input.nCtx * input.policy.marginPct / 100;
    if taken <= input.nCtx then input.nCtx - taken else 0
  }

  /** What is available for all segments but those. */
  ghost function Available(input: PlanInput): nat {
    if MustHave(input) <= Spare(input) then Spare(input) - MustHave(input) else 0
  }

  /** Over its cap, or no room, or admitted: with what is used of all, and taken of the rank, by what goes first. */
  ghost function Rule(rank: Rank, weight: nat, cap: Option<nat>, available: nat, used: nat, taken: nat): Why
    requires used <= available
  {
    if cap.Some? && taken + weight > cap.value then OverCap(rank, cap.value)
    else if used + weight > available then NoRoom(rank, weight, available - used)
    else Admitted(rank)
  }

  /** The tokens that the class of a rank may take of what is available. */
  ghost function CapOf(input: PlanInput, rank: Rank, available: nat): Option<nat> {
    match rank
    case Proof => Some(available * input.policy.evidenceCapPct / 100)
    case Hints => Some(available * input.policy.suggestionsCapPct / 100)
    case _ => None
  }

  /** What goes first and is kept. */
  ghost function KeptAhead(input: PlanInput, s: Segment): set<Segment>
    requires Fits(input) && s.kind != Protected
  {
    set x | x in input.segments && x.kind != Protected && GoesFirst(input, x, s) && WhyFor(input, x).Kept()
  }

  ghost function OfItsRank(input: PlanInput, s: Segment, xs: set<Segment>): set<Segment>
    requires s.kind != Protected
  {
    set x | x in xs && x.kind != Protected && RankFor(input, x) == RankFor(input, s)
  }

  // ----- units and segments -----

  lemma {:induction false} TokensInAre(segments: seq<Segment>, recent: seq<nat>, chosen: set<Slot>, xs: set<Segment>)
    requires forall s | s in segments :: s in xs <==> s.kind != Protected && SlotOf(s, recent) in chosen
    ensures TokensIn(segments, recent, chosen) == TokensOf(segments, xs)
  {
    if segments != [] {
      var n := |segments| - 1;
      hide SlotOf;
      assert segments[n] in segments;
      assert forall s | s in segments[..n] :: s in segments;
      TokensInAre(segments[..n], recent, chosen, xs);
    }
  }

  function TurnSet(ts: seq<nat>): set<nat> { set t | t in ts }

  lemma {:induction false} CountDistinct(ts: seq<nat>)
    requires forall i, j | 0 <= i < j < |ts| :: ts[i] != ts[j]
    ensures |TurnSet(ts)| == |ts|
  {
    if ts != [] {
      var n := |ts| - 1;
      var front, last := ts[..n], ts[n];
      CountDistinct(front);
      assert ts == front + [last];
      assert TurnSet(ts) == TurnSet(front) + {last} && last !in TurnSet(front);
    }
  }

  /** The turns of history that are newer than the one at `i` stand before it. */
  lemma NewerStandBefore(input: PlanInput, i: nat)
    requires i < |HistoryTurns(input.segments)|
    ensures NewerTurns(input, HistoryTurns(input.segments)[i]) == TurnSet(HistoryTurns(input.segments)[..i])
  {
    var turns := HistoryTurns(input.segments);
    HistoryTurnsAre(input.segments);
    assert forall j, k | 0 <= j < k < |turns| :: turns[j] > turns[k];
    hide HistoryTurns, Ascending;
    forall t ensures t in NewerTurns(input, turns[i]) <==> t in turns[..i] {
      if t in NewerTurns(input, turns[i]) {
        assert HasHistory(input.segments, t);
        var j :| 0 <= j < |turns| && turns[j] == t;
        assert turns[..i][j] == t;
      }
      if t in turns[..i] {
        var j :| 0 <= j < i && turns[j] == t;
        assert t in turns && HasHistory(input.segments, t);
      }
    }
  }

  lemma NewIs(input: PlanInput, s: Segment)
    requires s in input.segments && s.kind == History
    ensures s.turn in RecentTurns(input) <==> IsNew(input, s)
  {
    var turns, recent := HistoryTurns(input.segments), RecentTurns(input);
    HistoryTurnsAre(input.segments);
    assert HasHistory(input.segments, s.turn);
    var i :| 0 <= i < |turns| && turns[i] == s.turn;
    assert forall j, k | 0 <= j < k < |turns| :: turns[j] > turns[k];
    hide HistoryTurns, Ascending;
    NewerStandBefore(input, i);
    CountDistinct(turns[..i]);
    if s.turn in recent {
      var j :| 0 <= j < |recent| && recent[j] == s.turn;
      assert turns[j] == s.turn;
    }
    if i < input.policy.recentTurnsMin { assert recent[i] == s.turn; }
  }

  lemma SlotIs(input: PlanInput, s: Segment)
    requires s in input.segments && s.kind != Protected
    ensures SlotOf(s, RecentTurns(input)) ==
      Slot(RankFor(input, s), if s.kind == History then TurnKey(s.turn) else GroupName(s))
  {
    hide RecentTurns, IsNew;
    if s.kind == History { NewIs(input, s); }
  }

  lemma TogetherIs(input: PlanInput, s: Segment, t: Segment)
    requires s in input.segments && t in input.segments && s.kind != Protected && t.kind != Protected
    ensures Together(s, t) <==> SlotOf(s, RecentTurns(input)) == SlotOf(t, RecentTurns(input))
  {
    SlotIs(input, s);
    SlotIs(input, t);
    hide SlotOf, RecentTurns;
    if s.kind == t.kind == History && TurnKey(s.turn) == TurnKey(t.turn) { TurnKeysDiffer(s.turn, t.turn); }
  }

  // ----- what a unit says of its segments -----

  ghost predicate Describes(u: Unit, k: Slot, xs: set<Segment>) {
    && u.rank == k.rank && u.key == k.key
    && (forall x | x in xs :: x.score <= u.score && x.turn <= u.turn)
    && (exists x :: x in xs && x.score == u.score) && (exists x :: x in xs && x.turn == u.turn)
  }

  ghost function At(segments: seq<Segment>, recent: seq<nat>, k: Slot): set<Segment> {
    set x | x in segments && x.kind != Protected && SlotOf(x, recent) == k
  }

  lemma {:induction false} UnitsDescribe(segments: seq<Segment>, recent: seq<nat>, k: Slot)
    ensures var units := Gather(segments, recent);
      if k in units then Describes(units[k], k, At(segments, recent, k)) else At(segments, recent, k) == {}
  {
    if segments != [] {
      var n := |segments| - 1;
      var front, s := segments[..n], segments[n];
      UnitsDescribe(front, recent, k);
      assert segments == front + [s];
      var before, after := At(front, recent, k), At(segments, recent, k);
      assert after == before + (if s.kind != Protected && SlotOf(s, recent) == k then {s} else {});
      assert Gather(segments, recent) == AddSegment(Gather(front, recent), s, recent);
      hide Gather, SlotOf, At;
      if s.kind != Protected && SlotOf(s, recent) == k { JoinDescribes(Gather(front, recent), k, s, before); }
    }
  }

  lemma JoinDescribes(units: Units, k: Slot, s: Segment, before: set<Segment>)
    requires if k in units then Describes(units[k], k, before) else before == {}
    ensures Describes(Join(units, k, s)[k], k, before + {s})
  {
    var u := Join(units, k, s)[k];
    if k in units {
      var x :| x in before && x.score == units[k].score;
      var y :| y in before && y.turn == units[k].turn;
      assert x in before + {s} && y in before + {s} && s in before + {s};
    } else {
      assert s in before + {s};
    }
  }

  lemma UnitOfSegment(input: PlanInput, s: Segment)
    requires s in input.segments && s.kind != Protected
    ensures var k := SlotOf(s, RecentTurns(input));
      && k in UnitsOf(input) && UnitsOf(input)[k] in UnitList(input) && UnitsOf(input)[k].Place() == k
      && Describes(UnitsOf(input)[k], k, Mates(input, s))
  {
    var recent := RecentTurns(input);
    var k := SlotOf(s, recent);
    UnitListIs(input);
    EverySegmentHasAUnit(input.segments, recent);
    UnitsDescribe(input.segments, recent, k);
    assert Holds(UnitsOf(input), UnitsOf(input)[k]);
    forall x ensures x in At(input.segments, recent, k) <==> x in Mates(input, s) {
      if x in input.segments && x.kind != Protected { TogetherIs(input, s, x); }
    }
    assert At(input.segments, recent, k) == Mates(input, s);
  }

  lemma HigherIs(input: PlanInput, a: Segment, b: Segment, u: Unit, v: Unit)
    requires Describes(u, u.Place(), Mates(input, a)) && Describes(v, v.Place(), Mates(input, b))
    ensures Higher(input, a, b) <==> u.score > v.score
    ensures NewerThan(input, a, b) <==> u.turn > v.turn
  {
  }

  lemma RankFirstIs(a: Rank, b: Rank)
    ensures RankFirst(a, b) <==> RankNumber(a) < RankNumber(b)
  {
  }

  /** The segments' order is the one of their units. */
  lemma GoesFirstIs(input: PlanInput, a: Segment, b: Segment)
    requires a in input.segments && b in input.segments && a.kind != Protected && b.kind != Protected
    requires !Together(a, b)
    ensures var recent, units := RecentTurns(input), UnitsOf(input);
      && SlotOf(a, recent) in units && SlotOf(b, recent) in units
      && (GoesFirst(input, a, b) <==> Before(units[SlotOf(a, recent)], units[SlotOf(b, recent)]))
  {
    var recent, units := RecentTurns(input), UnitsOf(input);
    SlotIs(input, a);
    SlotIs(input, b);
    hide SlotOf;
    UnitOfSegment(input, a);
    UnitOfSegment(input, b);
    hide UnitsOf, RecentTurns, UnitList;
    UnitsCompare(input, a, b, units[SlotOf(a, recent)], units[SlotOf(b, recent)]);
  }

  lemma SameRankSameKind(input: PlanInput, a: Segment, b: Segment)
    requires a.kind != Protected && b.kind != Protected && RankFor(input, a) == RankFor(input, b)
    ensures a.kind == b.kind && (RankFor(input, a) == Recent ==> a.kind == History)
  {
  }

  lemma UnitsCompare(input: PlanInput, a: Segment, b: Segment, u: Unit, v: Unit)
    requires a in input.segments && b in input.segments && a.kind != Protected && b.kind != Protected
    requires !Together(a, b)
    requires Describes(u, u.Place(), Mates(input, a)) && Describes(v, v.Place(), Mates(input, b))
    requires u.rank == RankFor(input, a) && v.rank == RankFor(input, b)
    requires u.key == if a.kind == History then TurnKey(a.turn) else GroupName(a)
    requires v.key == if b.kind == History then TurnKey(b.turn) else GroupName(b)
    ensures GoesFirst(input, a, b) <==> Before(u, v)
  {
    hide *;
    HigherIs(input, a, b, u, v);
    HigherIs(input, b, a, v, u);
    LessIs(u.key, v.key);
    RankFirstIs(u.rank, v.rank);
    TurnOfHistory(input, a, u);
    TurnOfHistory(input, b, v);
    if u.rank == v.rank { SameRankSameKind(input, a, b); }
    TurnsApart(a, b);
    if u.rank == v.rank { TiesDecide(input, a, b, u, v); } else { RanksDecide(input, a, b, u, v); }
  }

  lemma TurnsApart(a: Segment, b: Segment)
    ensures a.kind == b.kind == History && !Together(a, b) ==> a.turn != b.turn
  {
  }

  lemma RanksDecide(input: PlanInput, a: Segment, b: Segment, u: Unit, v: Unit)
    requires a.kind != Protected && b.kind != Protected && u.rank != v.rank
    requires u.rank == RankFor(input, a) && v.rank == RankFor(input, b)
    requires RankFirst(u.rank, v.rank) <==> RankNumber(u.rank) < RankNumber(v.rank)
    ensures GoesFirst(input, a, b) <==> Before(u, v)
  {
    hide RankFor, RankFirst, RankNumber;
  }

  lemma TiesDecide(input: PlanInput, a: Segment, b: Segment, u: Unit, v: Unit)
    requires a.kind != Protected && b.kind != Protected && u.rank == v.rank
    requires u.rank == RankFor(input, a) && v.rank == RankFor(input, b)
    requires Higher(input, a, b) <==> u.score > v.score
    requires Higher(input, b, a) <==> v.score > u.score
    requires NewerThan(input, a, b) <==> u.turn > v.turn
    requires NewerThan(input, b, a) <==> v.turn > u.turn
    requires a.kind == History ==> u.turn == a.turn && v.turn == b.turn && a.turn != b.turn
    requires u.rank == Recent ==> a.kind == History
    requires a.kind != History ==> (LexBefore(GroupName(a), GroupName(b)) <==> Less(u.key, v.key))
    ensures GoesFirst(input, a, b) <==> Before(u, v)
  {
    hide RankFor, RankFirst, RankNumber, Higher, NewerThan, Less, LexBefore, GroupName;
  }

  lemma TurnOfHistory(input: PlanInput, s: Segment, u: Unit)
    requires s in input.segments && Describes(u, u.Place(), Mates(input, s))
    ensures s.kind == History ==> u.turn == s.turn
  {
  }

  /** What goes together does not go before itself. */
  lemma NotBeforeItself(input: PlanInput, a: Segment, b: Segment)
    requires a in input.segments && b in input.segments && Together(a, b)
    ensures !GoesFirst(input, a, b)
  {
    NoneHigher(input, a, b);
    NotLexBeforeItself(GroupName(a));
    SameRank(input, a, b);
    SameRankSameKind(input, a, b);
    assert a.kind == History ==> a.turn == b.turn;
    assert a.kind != History ==> GroupName(a) == GroupName(b);
    hide *;
    NothingTells(input, a, b);
  }

  lemma NothingTells(input: PlanInput, a: Segment, b: Segment)
    requires a.kind != Protected && b.kind != Protected && RankFor(input, a) == RankFor(input, b)
    requires a.kind == History ==> a.turn == b.turn
    requires RankFor(input, a) == Recent ==> a.kind == History
    requires !Higher(input, a, b) && !Higher(input, b, a) && !NewerThan(input, a, b) && !NewerThan(input, b, a)
    requires a.kind != History ==> !LexBefore(GroupName(a), GroupName(b))
    ensures !GoesFirst(input, a, b)
  {
    hide Higher, NewerThan, LexBefore, GroupName, RankFor, RankFirst;
  }

  lemma NotLexBeforeItself(a: string)
    ensures !LexBefore(a, a)
  {
    LessIs(a, a);
    LessIrreflexive(a);
  }

  lemma SameRank(input: PlanInput, a: Segment, b: Segment)
    requires Together(a, b)
    ensures RankFor(input, a) == RankFor(input, b)
  {
    hide NewerTurns, GroupName;
  }

  lemma NoneHigher(input: PlanInput, a: Segment, b: Segment)
    requires Together(a, b)
    ensures !Higher(input, a, b) && !Higher(input, b, a) && !NewerThan(input, a, b) && !NewerThan(input, b, a)
  {
    hide GroupName;
    assert Mates(input, a) == Mates(input, b);
    hide Mates;
  }

  lemma {:induction false} UnitTokens(segments: seq<Segment>, recent: seq<nat>, k: Slot)
    ensures TokensIn(segments, recent, {k}) ==
            if k in Gather(segments, recent) then Gather(segments, recent)[k].tokens else 0
  {
    if segments != [] {
      hide SlotOf;
      UnitTokens(segments[..|segments| - 1], recent, k);
    }
  }

  lemma WeightIs(input: PlanInput, s: Segment)
    requires s in input.segments && s.kind != Protected
    ensures var k := SlotOf(s, RecentTurns(input));
      k in UnitsOf(input) && UnitsOf(input)[k].tokens == Weight(input, s)
  {
    var recent := RecentTurns(input);
    var k := SlotOf(s, recent);
    UnitOfSegment(input, s);
    UnitTokens(input.segments, recent, k);
    hide Gather, RecentTurns;
    forall x | x in input.segments
      ensures x in Mates(input, s) <==> x.kind != Protected && SlotOf(x, recent) in {k}
    {
      if x.kind != Protected { TogetherIs(input, s, x); }
    }
    TokensInAre(input.segments, recent, {k}, Mates(input, s));
  }

  lemma {:induction false} SpentBeyond(us: seq<Unit>, i: nat, chosen: set<Slot>)
    requires i <= |us| && forall j | i <= j < |us| :: us[j].Place() !in chosen
    ensures Spent(us, chosen) == Spent(us[..i], chosen)
    decreases |us|
  {
    if i == |us| {
      assert us[..i] == us;
    } else {
      var n := |us| - 1;
      SpentBeyond(us[..n], i, chosen);
      assert us[..n][..i] == us[..i] && us == us[..n] + [us[n]];
      SpentPush(us[..n], us[n], chosen);
    }
  }

  /** When a unit's turn comes, what is spent is what the kept units before it weigh. */
  lemma SpentAhead(us: seq<Unit>, b: Budget, i: nat)
    requires DistinctPlaces(us) && i < |us|
    ensures var t, kept := Admit(us[..i], b), Kept(Admit(us[..i], b));
      && t.used == Spent(us, kept) && (forall rank :: t.InRank(rank) == Spent(us, OfRank(kept, rank)))
      && t.used <= b.available
      && forall j | 0 <= j < |us| ::
           us[j].Place() in kept <==> j < i && us[j].Place() in Kept(Admit(us, b))
  {
    var t, kept := Admit(us[..i], b), Kept(Admit(us[..i], b));
    AdmitAccounts(us[..i], b);
    hide Admit;
    forall j | 0 <= j < |us| ensures us[j].Place() in kept <==> j < i && us[j].Place() in Kept(Admit(us, b)) {
      if j < i { PrefixVerdict(us, b, i, j); }
    }
    SpentBeyond(us, i, kept);
    forall rank ensures t.InRank(rank) == Spent(us, OfRank(kept, rank)) { SpentBeyond(us, i, OfRank(kept, rank)); }
  }

  // ----- the verdict on a segment -----

  /** Where the unit of a segment stands in the order of admission. */
  lemma PlaceOf(input: PlanInput, s: Segment) returns (i: nat)
    requires s in input.segments && s.kind != Protected
    ensures var us, k := UnitList(input), SlotOf(s, RecentTurns(input));
      i < |us| && k in UnitsOf(input) && us[i] == UnitsOf(input)[k] && us[i].Place() == k
  {
    UnitOfSegment(input, s);
    hide *;
    var u := UnitsOf(input)[SlotOf(s, RecentTurns(input))];
    i :| 0 <= i < |UnitList(input)| && UnitList(input)[i] == u;
  }

  lemma StandsBefore(input: PlanInput, x: Segment, s: Segment, m: nat, i: nat)
    requires x in input.segments && s in input.segments && x.kind != Protected && s.kind != Protected
    requires m < |UnitList(input)| && UnitList(input)[m].Place() == SlotOf(x, RecentTurns(input))
    requires i < |UnitList(input)| && UnitList(input)[i].Place() == SlotOf(s, RecentTurns(input))
    ensures GoesFirst(input, x, s) <==> m < i
  {
    var us, units := UnitList(input), UnitsOf(input);
    UnitListIs(input);
    assert Holds(units, us[m]) && Holds(units, us[i]) by { assert us[m] in us && us[i] in us; }
    assert (m < i ==> Before(us[m], us[i])) && (i < m ==> Before(us[i], us[m]));
    assert m != i ==> us[m].Place() != us[i].Place();
    TogetherIs(input, x, s);
    if Together(x, s) { NotBeforeItself(input, x, s); } else { GoesFirstIs(input, x, s); }
    NeverBoth(us[m], us[i]);
    hide GoesFirst, UnitsOf, RecentTurns, SlotOf, Together, UnitList, Before, Ascending, DistinctPlaces;
  }

  lemma NeverBoth(u: Unit, v: Unit)
    ensures !(Before(u, v) && Before(v, u))
  {
    BeforeIsStrict();
  }

  /** A segment is kept and goes first exactly when its unit is kept and stands before. */
  lemma AheadIs(input: PlanInput, s: Segment, x: Segment, i: nat, kept: set<Slot>)
    requires Fits(input) && s in input.segments && x in input.segments && s.kind != Protected && x.kind != Protected
    requires i < |UnitList(input)| && UnitList(input)[i].Place() == SlotOf(s, RecentTurns(input))
    requires forall j | 0 <= j < |UnitList(input)| ::
      UnitList(input)[j].Place() in kept <==> j < i && UnitList(input)[j].Place() in Kept(TallyOf(input))
    ensures x in KeptAhead(input, s) <==> SlotOf(x, RecentTurns(input)) in kept
  {
    VerdictFor(input, x);
    var m := PlaceOf(input, x);
    StandsBefore(input, x, s, m, i);
    hide TallyOf, GoesFirst, UnitsOf, RecentTurns, SlotOf, WhyFor, UnitList;
  }

  /**
   The whole rule: a segment is admitted with those it goes together with, unless its class would pass its
   cap, or all would pass what is available, with what goes first and is kept.
   */
  lemma VerdictIs(input: PlanInput, s: Segment)
    requires Fits(input) && s in input.segments && s.kind != Protected
    ensures var rank, ahead := RankFor(input, s), KeptAhead(input, s);
      var used, taken := TokensOf(input.segments, ahead), TokensOf(input.segments, OfItsRank(input, s, ahead));
      && used <= Available(input)
      && WhyFor(input, s) ==
         Rule(rank, Weight(input, s), CapOf(input, rank, Available(input)), Available(input), used, taken)
  {
    var t, u := Judged(input, s);
    CapIs(input, u.rank);
    hide ProtectedTokens, Room, BudgetOf, TallyOf, WhyFor, Weight, KeptAhead, OfItsRank, RankFor, TokensOf, CapOf,
      Available, Budget.Cap;
  }

  lemma CapIs(input: PlanInput, rank: Rank)
    requires Fits(input)
    ensures BudgetOf(input).available == Available(input)
    ensures BudgetOf(input).Cap(rank) == CapOf(input, rank, Available(input))
  {
    RoomIs(input);
  }

  lemma {:induction false} ProtectedAre(segments: seq<Segment>, xs: set<Segment>)
    requires forall s | s in segments :: s in xs <==> s.kind == Protected
    ensures ProtectedTokens(segments) == TokensOf(segments, xs)
  {
    if segments != [] {
      var n := |segments| - 1;
      assert segments[n] in segments;
      assert forall s | s in segments[..n] :: s in segments;
      ProtectedAre(segments[..n], xs);
    }
  }

  lemma RoomIs(input: PlanInput)
    ensures Room(input) == Spare(input) && ProtectedTokens(input.segments) == MustHave(input)
    ensures Fits(input) <==> MustHave(input) <= Spare(input)
  {
    ProtectedAre(input.segments, set x | x in input.segments && x.kind == Protected);
  }

  /** The unit of a segment, and the totals when its turn comes. */
  lemma Judged(input: PlanInput, s: Segment) returns (t: Tally, u: Unit)
    requires Fits(input) && s in input.segments && s.kind != Protected
    ensures WhyFor(input, s) == Judge(t, u, BudgetOf(input))
    ensures u.rank == RankFor(input, s) && u.tokens == Weight(input, s)
    ensures var ahead := KeptAhead(input, s);
      && t.used == TokensOf(input.segments, ahead) <= BudgetOf(input).available
      && t.InRank(u.rank) == TokensOf(input.segments, OfItsRank(input, s, ahead))
  {
    var us, b := UnitList(input), BudgetOf(input);
    var i := PlaceOf(input, s);
    t, u := Admit(us[..i], b), us[i];
    UnitListIs(input);
    SpentAhead(us, b, i);
    VerdictSettled(us, b, i);
    VerdictFor(input, s);
    assert WhyFor(input, s) == Judge(t, u, b);
    WeightIs(input, s);
    SlotIs(input, s);
    assert TallyOf(input) == Admit(us, b);
    hide Admit, UnitList, UnitsOf, RecentTurns, WhyFor, SlotOf, Weight, KeptAhead, OfItsRank, RankFor, Kept, Spent,
      TokensOf, DistinctPlaces, BudgetOf, Judge;
    AheadWeighs(input, s, i, Kept(t));
  }

  lemma AheadWeighs(input: PlanInput, s: Segment, i: nat, kept: set<Slot>)
    requires Fits(input) && s in input.segments && s.kind != Protected
    requires i < |UnitList(input)| && UnitList(input)[i].Place() == SlotOf(s, RecentTurns(input))
    requires forall j | 0 <= j < |UnitList(input)| ::
      UnitList(input)[j].Place() in kept <==> j < i && UnitList(input)[j].Place() in Kept(TallyOf(input))
    ensures var ahead := KeptAhead(input, s);
      && Spent(UnitList(input), kept) == TokensOf(input.segments, ahead)
      && Spent(UnitList(input), OfRank(kept, RankFor(input, s))) ==
         TokensOf(input.segments, OfItsRank(input, s, ahead))
  {
    var recent, ahead, rank := RecentTurns(input), KeptAhead(input, s), RankFor(input, s);
    GatherConserves(input.segments, recent, kept);
    GatherConserves(input.segments, recent, OfRank(kept, rank));
    forall x | x in input.segments
      ensures x in ahead <==> x.kind != Protected && SlotOf(x, recent) in kept
      ensures x in OfItsRank(input, s, ahead) <==> x.kind != Protected && SlotOf(x, recent) in OfRank(kept, rank)
    {
      if x.kind != Protected {
        AheadIs(input, s, x, i, kept);
        SlotIs(input, x);
      }
    }
    hide KeptAhead, SlotOf, RankFor;
    TokensInAre(input.segments, recent, kept, ahead);
    TokensInAre(input.segments, recent, OfRank(kept, rank), OfItsRank(input, s, ahead));
  }

  // ----- what goes first is not given up for what comes later -----

  lemma {:induction false} TokensGrow(segments: seq<Segment>, a: set<Segment>, b: set<Segment>)
    requires a <= b
    ensures TokensOf(segments, a) <= TokensOf(segments, b)
  {
    if segments != [] { TokensGrow(segments[..|segments| - 1], a, b); }
  }

  lemma GoesFirstTransitive(input: PlanInput, x: Segment, s: Segment, t: Segment)
    requires x in input.segments && s in input.segments && t in input.segments
    requires x.kind != Protected && s.kind != Protected && t.kind != Protected
    requires GoesFirst(input, x, s) && GoesFirst(input, s, t)
    ensures GoesFirst(input, x, t)
  {
    var i := PlaceOf(input, x);
    var j := PlaceOf(input, s);
    var k := PlaceOf(input, t);
    hide *;
    StandsBefore(input, x, s, i, j);
    StandsBefore(input, s, t, j, k);
    StandsBefore(input, x, t, i, k);
  }

  /** The kept segments of the rank of `s`. */
  ghost function KeptOfRank(input: PlanInput, s: Segment): set<Segment>
    requires Fits(input) && s.kind != Protected
  {
    set x | x in input.segments && x.kind != Protected
            && RankFor(input, x) == RankFor(input, s) && WhyFor(input, x).Kept()
  }

  /**
   A segment that goes first and takes no more is kept whenever the later one is: always within a rank, and
   across ranks when its own cap has room for it.
   */
  lemma Preferred(input: PlanInput, s: Segment, t: Segment)
    requires Fits(input) && s in input.segments && t in input.segments && s.kind != Protected && t.kind != Protected
    requires GoesFirst(input, s, t) && Weight(input, s) <= Weight(input, t) && WhyFor(input, t).Kept()
    requires var cap := CapOf(input, RankFor(input, s), Available(input));
      || RankFor(input, s) == RankFor(input, t) || cap.None?
      || TokensOf(input.segments, KeptOfRank(input, s)) + Weight(input, s) <= cap.value
    ensures WhyFor(input, s).Kept()
  {
    VerdictIs(input, s);
    VerdictIs(input, t);
    AheadGrows(input, s, t);
    hide KeptAhead, OfItsRank, KeptOfRank, WhyFor, GoesFirst, Weight, RankFor, TokensOf, Available, CapOf;
  }

  lemma AheadGrows(input: PlanInput, s: Segment, t: Segment)
    requires Fits(input) && s in input.segments && t in input.segments && s.kind != Protected && t.kind != Protected
    requires GoesFirst(input, s, t)
    ensures var ahead, later := KeptAhead(input, s), KeptAhead(input, t);
      var mine := TokensOf(input.segments, OfItsRank(input, s, ahead));
      && TokensOf(input.segments, ahead) <= TokensOf(input.segments, later)
      && (RankFor(input, s) == RankFor(input, t) ==> mine <= TokensOf(input.segments, OfItsRank(input, t, later)))
      && mine <= TokensOf(input.segments, KeptOfRank(input, s))
  {
    var ahead, later := KeptAhead(input, s), KeptAhead(input, t);
    hide WhyFor, GoesFirst, RankFor, TokensOf;
    forall x | x in ahead ensures x in later { GoesFirstTransitive(input, x, s, t); }
    var mine := OfItsRank(input, s, ahead);
    TokensGrow(input.segments, ahead, later);
    if RankFor(input, s) == RankFor(input, t) {
      assert mine <= OfItsRank(input, t, later);
      TokensGrow(input.segments, mine, OfItsRank(input, t, later));
    }
    assert mine <= KeptOfRank(input, s);
    TokensGrow(input.segments, mine, KeptOfRank(input, s));
  }

  // ----- the plan -----

  /** The decision is the one about the segment at that place. */
  ghost predicate TellsOf(input: PlanInput, d: Decision, i: nat, kept: bool)
    requires Fits(input)
  {
    && i < |input.segments|
    && var s := input.segments[i];
       d == Decision(s.id, s.tokens, WhyFor(input, s)) && WhyFor(input, s).Kept() == kept
  }

  /** The decisions are those about the segments at these places, in their order. */
  ghost predicate Tells(input: PlanInput, ds: seq<Decision>, at: seq<nat>, kept: bool)
    requires Fits(input)
  {
    && |at| == |ds| && (forall j, k | 0 <= j < k < |at| :: at[j] < at[k])
    && forall k | 0 <= k < |at| :: TellsOf(input, ds[k], at[k], kept)
  }

  lemma {:induction false} ReportTells(input: PlanInput, n: nat, kept: bool) returns (at: seq<nat>)
    requires Fits(input) && n <= |input.segments|
    ensures Tells(input, Report(input.segments[..n], Whys(input)[..n], kept), at, kept)
    ensures forall k | 0 <= k < |at| :: at[k] < n
  {
    hide ProtectedTokens, Room, TallyOf, WhyFor;
    at := [];
    if n > 0 {
      at := ReportTells(input, n - 1, kept);
      at := OneMoreTold(input, n, kept, at);
    }
  }

  lemma OneMoreTold(input: PlanInput, n: nat, kept: bool, before: seq<nat>) returns (at: seq<nat>)
    requires Fits(input) && 0 < n <= |input.segments|
    requires Tells(input, Report(input.segments[..n - 1], Whys(input)[..n - 1], kept), before, kept)
    requires forall k | 0 <= k < |before| :: before[k] < n - 1
    ensures Tells(input, Report(input.segments[..n], Whys(input)[..n], kept), at, kept)
    ensures forall k | 0 <= k < |at| :: at[k] < n
  {
    ReportPush(input, n, kept);
    var s, front := input.segments[n - 1], Report(input.segments[..n - 1], Whys(input)[..n - 1], kept);
    var d := Decision(s.id, s.tokens, WhyFor(input, s));
    var mine := WhyFor(input, s).Kept() == kept;
    assert mine ==> TellsOf(input, d, n - 1, kept);
    assert Report(input.segments[..n], Whys(input)[..n], kept) == front + if mine then [d] else [];
    hide *;
    at := before;
    if mine {
      TellsPush(input, front, before, kept, d, n - 1);
      at := before + [n - 1];
    } else {
      assert front + [] == front;
    }
  }

  lemma TellsPush(input: PlanInput, ds: seq<Decision>, at: seq<nat>, kept: bool, d: Decision, i: nat)
    requires Fits(input) && Tells(input, ds, at, kept) && TellsOf(input, d, i, kept)
    requires forall k | 0 <= k < |at| :: at[k] < i
    ensures Tells(input, ds + [d], at + [i], kept)
  {
    hide TellsOf, Fits;
  }

  lemma ReportPush(input: PlanInput, n: nat, kept: bool)
    requires Fits(input) && 0 < n <= |input.segments|
    ensures var s := input.segments[n - 1];
      Report(input.segments[..n], Whys(input)[..n], kept) ==
      Report(input.segments[..n - 1], Whys(input)[..n - 1], kept) +
      (if WhyFor(input, s).Kept() == kept then [Decision(s.id, s.tokens, WhyFor(input, s))] else [])
  {
    var segments, whys := input.segments[..n], Whys(input)[..n];
    assert segments[..n - 1] == input.segments[..n - 1] && whys[..n - 1] == Whys(input)[..n - 1];
    hide WhyFor;
  }

  lemma {:induction false} ReportsCount(segments: seq<Segment>, whys: seq<Why>)
    requires |segments| == |whys|
    ensures |Report(segments, whys, true)| + |Report(segments, whys, false)| == |segments|
  {
    if segments != [] { ReportsCount(segments[..|segments| - 1], whys[..|whys| - 1]); }
  }

  /** A plan comes back exactly when what must be there fits; its figures, and a decision for each segment. */
  lemma PlanIs(input: PlanInput) returns (keptAt: seq<nat>, droppedAt: seq<nat>)
    ensures MustHave(input) > Spare(input) ==>
      PlanOf(input) == Err(ProtectedDoesNotFit(MustHave(input), Spare(input)))
    ensures MustHave(input) <= Spare(input) ==> PlanOf(input).Ok?
    ensures PlanOf(input).Ok? ==> Fits(input)
    ensures PlanOf(input).Ok? ==>
      var p := PlanOf(input).value;
      && p.nCtx == input.nCtx && p.reserveAnswer == input.reserveAnswer
      && p.reserveThinking == (if input.thinking then input.reserveAnswer else 0)
      && p.margin == input.nCtx * input.policy.marginPct / 100
      && p.protected == MustHave(input) && p.available == Available(input)
      && Tells(input, p.kept, keptAt, true) && Tells(input, p.dropped, droppedAt, false)
      && |p.kept| + |p.dropped| == |input.segments|
      && forall s | s in input.segments && s.kind == Protected :: WhyFor(input, s) == IsProtected
  {
    RoomIs(input);
    keptAt, droppedAt := [], [];
    if Fits(input) {
      var n := |input.segments|;
      keptAt := ReportTells(input, n, true);
      droppedAt := ReportTells(input, n, false);
      ReportsCount(input.segments, Whys(input));
      assert input.segments[..n] == input.segments && Whys(input)[..n] == Whys(input);
      hide Report, Whys, TallyOf, WhyFor, MustHave, RecentTurns, ProtectedTokens;
      assert PlanOf(input) == Ok(Fitted(input));
    }
  }
}
