/**
 The context planner (context/src/planner.rs), as a specification.

 `PlanOf` is what a plan is, said over the units and their order; `PlannerCode.Plan` computes it
 with the loops of the engine. Scores are reals, reasons are values (the engine renders them as
 text), and machine integers do not overflow.
 */
module Planner {
  import opened Wrappers
  import opened Numbers
  import opened Text
  import opened Sorting
  import opened Folding

  datatype Class = Protected | History | ToolsInUse | Evidence | Suggestions | Evictable

  datatype Segment = Segment(id: string, tokens: nat, kind: Class, turn: nat, group: Option<string>, score: real)

  type Percentage = x: nat | x < 256

  datatype Policy = Policy(
    recentTurnsMin: nat,
    evidenceCapPct: Percentage,
    suggestionsCapPct: Percentage,
    marginPct: Percentage,
    compactAtPct: Percentage)

  datatype PlanInput = PlanInput(nCtx: nat, reserveAnswer: nat, thinking: bool, segments: seq<Segment>, policy: Policy)

  datatype Rank = Recent | InUse | Proof | Hints | Older | Last

  /** Why a segment was kept or left out. */
  datatype Why =
    | IsProtected
    | Admitted(rank: Rank)
    | OverCap(rank: Rank, cap: nat)
    | NoRoom(rank: Rank, tokens: nat, left: nat)
  {
    predicate Kept() { IsProtected? || Admitted? }
  }

  datatype Decision = Decision(id: string, tokens: nat, why: Why)

  datatype Plan = Plan(
    nCtx: nat,
    reserveAnswer: nat,
    reserveThinking: nat,
    margin: nat,
    protected: nat,
    available: nat,
    used: nat,
    kept: seq<Decision>,
    dropped: seq<Decision>,
    recentShort: bool,
    needsCompaction: bool)

  datatype PlanError = ProtectedDoesNotFit(needed: nat, room: nat)

  /** What names a unit: its rank, and its key within the rank. */
  datatype Slot = Slot(rank: Rank, key: string)

  /** Segments admitted or left out together. */
  datatype Unit = Unit(rank: Rank, score: real, turn: nat, key: string, tokens: nat) {
    function Place(): Slot { Slot(rank, key) }
  }

  // ----- the budget -----

  function Percent(value: nat, pct: Percentage): nat { value * pct / 100 }

  function ReserveThinking(input: PlanInput): nat {
    if input.thinking then input.reserveAnswer else 0
  }

  function Margin(input: PlanInput): nat { Percent(input.nCtx, input.policy.marginPct) }

  function Reserved(input: PlanInput): nat {
    input.reserveAnswer + ReserveThinking(input) + Margin(input)
  }

  function Room(input: PlanInput): nat { SaturatingSub(input.nCtx, Reserved(input)) }

  function AddProtected(n: nat, s: Segment): nat {
    if s.kind == Protected then n + s.tokens else n
  }

  function ProtectedTokens(segments: seq<Segment>): nat { Fold(AddProtected, 0, segments) }

  // ----- the newest turns -----

  predicate Newer(a: nat, b: nat) { a > b }

  function InsertTurn(t: nat, ts: seq<nat>): seq<nat> {
    if t in ts then ts else Insert(Newer, t, ts)
  }

  function NoteTurn(ts: seq<nat>, s: Segment): seq<nat> {
    if s.kind == History then InsertTurn(s.turn, ts) else ts
  }

  /** The turns that have history, newest first, each once. */
  function HistoryTurns(segments: seq<Segment>): seq<nat> {
    Fold(NoteTurn, [], segments)
  }

  function Take<T>(xs: seq<T>, n: nat): seq<T> { if n <= |xs| then xs[..n] else xs }

  function RecentTurns(input: PlanInput): seq<nat> {
    Take(HistoryTurns(input.segments), input.policy.recentTurnsMin)
  }

  // ----- units -----

  function TurnKey(turn: nat): string { "turn " + Decimal(turn) }

  function GroupKey(s: Segment): string {
    if s.group.Some? then s.group.value else s.id
  }

  function SlotOf(s: Segment, recent: seq<nat>): Slot
    requires s.kind != Protected
  {
    match s.kind
    case History => if s.turn in recent then Slot(Recent, TurnKey(s.turn)) else Slot(Older, TurnKey(s.turn))
    case ToolsInUse => Slot(InUse, GroupKey(s))
    case Evidence => Slot(Proof, GroupKey(s))
    case Suggestions => Slot(Hints, GroupKey(s))
    case Evictable => Slot(Last, GroupKey(s))
  }

  type Units = map<Slot, Unit>

  function MaxReal(a: real, b: real): real { if a >= b then a else b }

  /** One segment joins its unit, or founds it. */
  function Join(units: Units, slot: Slot, s: Segment): Units {
    var u := if slot in units then units[slot] else Unit(slot.rank, s.score, s.turn, slot.key, 0);
    units[slot := Unit(slot.rank, MaxReal(u.score, s.score), Max(u.turn, s.turn), slot.key, u.tokens + s.tokens)]
  }

  function AddSegment(units: Units, s: Segment, recent: seq<nat>): Units {
    if s.kind == Protected then units else Join(units, SlotOf(s, recent), s)
  }

  function Adder(recent: seq<nat>): (Units, Segment) -> Units {
    (units, s) => AddSegment(units, s, recent)
  }

  function Gather(segments: seq<Segment>, recent: seq<nat>): Units {
    Fold(Adder(recent), map[], segments)
  }

  ghost predicate Keyed(units: Units) {
    forall k | k in units :: units[k].Place() == k
  }

  // ----- the order of admission -----

  function RankNumber(r: Rank): nat {
    match r
    case Recent => 0
    case InUse => 1
    case Proof => 2
    case Hints => 3
    case Older => 4
    case Last => 5
  }

  /** Rank, then (but for recent turns) the higher score, then the newer turn, then the key. */
  predicate Before(a: Unit, b: Unit) {
    if a.rank != b.rank then RankNumber(a.rank) < RankNumber(b.rank)
    else if a.rank != Recent && a.score != b.score then a.score > b.score
    else if a.turn != b.turn then a.turn > b.turn
    else Less(a.key, b.key)
  }

  ghost function Listed(units: Units): (us: seq<Unit>)
    ensures |us| == |units|
  {
    if units == map[] then [] else
      var k :| k in units;
      [units[k]] + Listed(units - {k})
  }

  ghost function Order(units: Units): seq<Unit> { Sort(Before, Listed(units)) }

  // ----- greedy admission -----

  datatype Budget = Budget(available: nat, evidenceCap: nat, suggestionsCap: nat) {
    function Cap(rank: Rank): Option<nat> {
      match rank
      case Proof => Some(evidenceCap)
      case Hints => Some(suggestionsCap)
      case _ => None
    }
  }

  datatype Tally = Tally(
    used: nat,
    byRank: map<Rank, nat>,
    verdicts: map<Slot, Why>,
    recentKept: nat,
    droppedNeeded: bool)
  {
    function InRank(rank: Rank): nat { if rank in byRank then byRank[rank] else 0 }
  }

  const NOTHING_ADMITTED: Tally := Tally(0, map[], map[], 0, false)

  function Judge(t: Tally, u: Unit, b: Budget): Why {
    if b.Cap(u.rank).Some? && t.InRank(u.rank) + u.tokens > b.Cap(u.rank).value then
      OverCap(u.rank, b.Cap(u.rank).value)
    else if t.used + u.tokens > b.available then NoRoom(u.rank, u.tokens, SaturatingSub(b.available, t.used))
    else Admitted(u.rank)
  }

  function Consider(t: Tally, u: Unit, b: Budget): Tally {
    var why := Judge(t, u, b);
    if why.Kept() then
      Tally(t.used + u.tokens, t.byRank[u.rank := t.InRank(u.rank) + u.tokens], t.verdicts[u.Place() := why],
            if u.rank == Recent then t.recentKept + 1 else t.recentKept, t.droppedNeeded)
    else
      Tally(t.used, t.byRank, t.verdicts[u.Place() := why], t.recentKept, t.droppedNeeded || u.rank != Last)
  }

  function Admit(us: seq<Unit>, b: Budget): Tally {
    if us == [] then NOTHING_ADMITTED else Consider(Admit(us[..|us| - 1], b), us[|us| - 1], b)
  }

  // ----- the plan -----

  function BudgetOf(input: PlanInput): Budget
    requires ProtectedTokens(input.segments) <= Room(input)
  {
    var available := Room(input) - ProtectedTokens(input.segments);
    Budget(available, Percent(available, input.policy.evidenceCapPct),
           Percent(available, input.policy.suggestionsCapPct))
  }

  ghost function UnitsOf(input: PlanInput): Units { Gather(input.segments, RecentTurns(input)) }

  ghost function TallyOf(input: PlanInput): Tally
    requires ProtectedTokens(input.segments) <= Room(input)
  {
    Admit(Order(UnitsOf(input)), BudgetOf(input))
  }

  function WhyIn(verdicts: map<Slot, Why>, s: Segment, recent: seq<nat>): Why {
    if s.kind == Protected || SlotOf(s, recent) !in verdicts then IsProtected else verdicts[SlotOf(s, recent)]
  }

  /** The decision about one segment. */
  ghost function WhyFor(input: PlanInput, s: Segment): Why
    requires ProtectedTokens(input.segments) <= Room(input)
  {
    WhyIn(TallyOf(input).verdicts, s, RecentTurns(input))
  }

  function Decided(s: Segment, why: Why): Decision { Decision(s.id, s.tokens, why) }

  /** The decisions with the given outcome, in input order. */
  function Report(segments: seq<Segment>, whys: seq<Why>, kept: bool): seq<Decision>
    requires |segments| == |whys|
  {
    if segments == [] then [] else
      var n := |segments| - 1;
      Report(segments[..n], whys[..n], kept) +
      (if whys[n].Kept() == kept then [Decided(segments[n], whys[n])] else [])
  }

  ghost function Whys(input: PlanInput): (ws: seq<Why>)
    requires ProtectedTokens(input.segments) <= Room(input)
    ensures |ws| == |input.segments|
  {
    seq(|input.segments|, i requires 0 <= i < |input.segments| => WhyFor(input, input.segments[i]))
  }

  predicate NeedsCompaction(droppedNeeded: bool, used: nat, available: nat, policy: Policy) {
    droppedNeeded || (available > 0 && used * 100 >= available * policy.compactAtPct)
  }

  ghost function Fitted(input: PlanInput): Plan
    requires ProtectedTokens(input.segments) <= Room(input)
  {
    var t, available := TallyOf(input), BudgetOf(input).available;
    Plan(input.nCtx, input.reserveAnswer, ReserveThinking(input), Margin(input), ProtectedTokens(input.segments),
         available, t.used,
         Report(input.segments, Whys(input), true), Report(input.segments, Whys(input), false),
         t.recentKept < |RecentTurns(input)|, NeedsCompaction(t.droppedNeeded, t.used, available, input.policy))
  }

  ghost function PlanOf(input: PlanInput): Result<Plan, PlanError> {
    var protected := ProtectedTokens(input.segments);
    if protected > Room(input) then Err(ProtectedDoesNotFit(protected, Room(input))) else Ok(Fitted(input))
  }

  // ----- units do not depend on the order of the segments -----

  lemma JoinCommutes(units: Units, a: Segment, b: Segment, recent: seq<nat>)
    ensures AddSegment(AddSegment(units, a, recent), b, recent) == AddSegment(AddSegment(units, b, recent), a, recent)
  {
    if a.kind != Protected && b.kind != Protected {
      var ka, kb := SlotOf(a, recent), SlotOf(b, recent);
      var ab, ba := Join(Join(units, ka, a), kb, b), Join(Join(units, kb, b), ka, a);
      assert ab.Keys == ba.Keys;
      assert ab[ka] == ba[ka] && ab[kb] == ba[kb];
    }
  }

  lemma NoteTurnAscends(ts: seq<nat>, s: Segment)
    requires Ascending(Newer, ts)
    ensures Ascending(Newer, NoteTurn(ts, s))
    ensures forall t :: t in NoteTurn(ts, s) <==> t in ts || (s.kind == History && t == s.turn)
  {
    if s.kind == History && s.turn !in ts {
      InsertAscending(Newer, s.turn, ts);
      forall t ensures t in NoteTurn(ts, s) <==> t in ts || t == s.turn {
        assert t in NoteTurn(ts, s) <==> t in multiset(NoteTurn(ts, s));
      }
    }
  }

  ghost predicate HasHistory(segments: seq<Segment>, t: nat) {
    exists s :: s in segments && s.kind == History && s.turn == t
  }

  lemma {:induction false} HistoryTurnsAre(segments: seq<Segment>)
    ensures Ascending(Newer, HistoryTurns(segments))
    ensures forall t :: t in HistoryTurns(segments) <==> HasHistory(segments, t)
  {
    if segments != [] {
      var front, last := segments[..|segments| - 1], segments[|segments| - 1];
      HistoryTurnsAre(front);
      NoteTurnAscends(HistoryTurns(front), last);
      assert segments == front + [last];
    }
  }

  lemma HistoryTurnsPermute(a: seq<Segment>, b: seq<Segment>)
    requires forall t :: HasHistory(a, t) <==> HasHistory(b, t)
    ensures HistoryTurns(a) == HistoryTurns(b)
  {
    HistoryTurnsAre(a);
    HistoryTurnsAre(b);
    AscendingUnique(Newer, HistoryTurns(a), HistoryTurns(b));
  }

  lemma GatherPermutes(a: seq<Segment>, b: seq<Segment>, recent: seq<nat>)
    requires multiset(a) == multiset(b)
    ensures Gather(a, recent) == Gather(b, recent)
  {
    forall units, x, y
      ensures Adder(recent)(Adder(recent)(units, x), y) == Adder(recent)(Adder(recent)(units, y), x)
    {
      JoinCommutes(units, x, y, recent);
    }
    FoldPermutes(Adder(recent), map[], a, b);
  }

  ghost predicate SameButOrder(a: PlanInput, b: PlanInput) {
    && multiset(a.segments) == multiset(b.segments)
    && a == b.(segments := a.segments)
  }

  /** The decisions with the given outcome, as a multiset, from those of the segments one by one. */
  lemma {:induction false} ReportIsAFold(segments: seq<Segment>, whys: seq<Why>, why: Segment -> Why, kept: bool)
    requires |segments| == |whys| && forall i | 0 <= i < |segments| :: whys[i] == why(segments[i])
    ensures multiset(Report(segments, whys, kept)) == Fold(Counter(why, kept), multiset{}, segments)
  {
    if segments != [] {
      var n := |segments| - 1;
      ReportIsAFold(segments[..n], whys[..n], why, kept);
    }
  }

  function Count(decisions: multiset<Decision>, s: Segment, why: Why, kept: bool): multiset<Decision> {
    if why.Kept() == kept then decisions + multiset{Decided(s, why)} else decisions
  }

  function Counter(why: Segment -> Why, kept: bool): (multiset<Decision>, Segment) -> multiset<Decision> {
    (decisions, s) => Count(decisions, s, why(s), kept)
  }

  lemma ReportPermutes(a: PlanInput, b: PlanInput, kept: bool)
    requires SameButOrder(a, b)
    requires ProtectedTokens(a.segments) <= Room(a) && ProtectedTokens(b.segments) <= Room(b)
    requires forall s :: WhyFor(a, s) == WhyFor(b, s)
    ensures multiset(Report(a.segments, Whys(a), kept)) == multiset(Report(b.segments, Whys(b), kept))
  {
    var why := (s: Segment) => WhyFor(a, s);
    ReportIsAFold(a.segments, Whys(a), why, kept);
    ReportIsAFold(b.segments, Whys(b), why, kept);
    var counter := Counter(why, kept);
    forall ds, x, y ensures counter(counter(ds, x), y) == counter(counter(ds, y), x) {
      assert counter(counter(ds, x), y) == Count(Count(ds, x, why(x), kept), y, why(y), kept);
      assert counter(counter(ds, y), x) == Count(Count(ds, y, why(y), kept), x, why(x), kept);
    }
    FoldPermutes(counter, multiset{}, a.segments, b.segments);
  }

  lemma SameUnits(a: PlanInput, b: PlanInput)
    requires SameButOrder(a, b)
    ensures ProtectedTokens(a.segments) == ProtectedTokens(b.segments)
    ensures RecentTurns(a) == RecentTurns(b) && UnitsOf(a) == UnitsOf(b)
  {
    FoldPermutes(AddProtected, 0, a.segments, b.segments);
    SameMembers(a.segments, b.segments);
    HistoryTurnsPermute(a.segments, b.segments);
    GatherPermutes(a.segments, b.segments, RecentTurns(a));
  }

  /** Same figures, and the same decisions in some order. */
  ghost predicate SamePlan(p: Plan, q: Plan) {
    && p.(kept := [], dropped := []) == q.(kept := [], dropped := [])
    && multiset(p.kept) == multiset(q.kept)
    && multiset(p.dropped) == multiset(q.dropped)
  }

  lemma SameTally(a: PlanInput, b: PlanInput)
    requires SameButOrder(a, b)
    requires ProtectedTokens(a.segments) <= Room(a) && ProtectedTokens(b.segments) <= Room(b)
    ensures ProtectedTokens(a.segments) == ProtectedTokens(b.segments) && BudgetOf(a) == BudgetOf(b)
    ensures TallyOf(a) == TallyOf(b) && RecentTurns(a) == RecentTurns(b)
  {
    SameUnits(a, b);
    var us, c := Order(UnitsOf(a)), BudgetOf(a);
    assert Order(UnitsOf(b)) == us && BudgetOf(b) == c;
  }

  lemma SameFitted(a: PlanInput, b: PlanInput)
    requires SameButOrder(a, b)
    requires ProtectedTokens(a.segments) <= Room(a) && ProtectedTokens(b.segments) <= Room(b)
    ensures forall s :: WhyFor(a, s) == WhyFor(b, s)
    ensures SamePlan(Fitted(a), Fitted(b))
  {
    SameTally(a, b);
    SameFigures(a, b);
    ReportPermutes(a, b, true);
    ReportPermutes(a, b, false);
  }

  lemma SameFigures(a: PlanInput, b: PlanInput)
    requires a == b.(segments := a.segments)
    requires ProtectedTokens(a.segments) == ProtectedTokens(b.segments) <= Room(a)
    requires TallyOf(a) == TallyOf(b) && RecentTurns(a) == RecentTurns(b)
    ensures Fitted(a).(kept := [], dropped := []) == Fitted(b).(kept := [], dropped := [])
  {
  }

  /** The order of the input changes nothing: same error, or same figures and same decisions. */
  lemma OrderIndependent(a: PlanInput, b: PlanInput)
    requires SameButOrder(a, b)
    ensures PlanOf(a).Err? ==> PlanOf(a) == PlanOf(b)
    ensures PlanOf(a).Ok? ==>
      && PlanOf(b).Ok? && SamePlan(PlanOf(a).value, PlanOf(b).value)
      && forall s :: WhyFor(a, s) == WhyFor(b, s)
  {
    SameUnits(a, b);
    if PlanOf(a).Ok? { SameFitted(a, b); }
  }
}
