/** What a plan achieves: it stays within its budget, and no other choice is better. */
module PlannerBudget {
  import opened Planner
  import opened PlannerOrder
  import opened Folding

  // ----- choices of units -----

  function Spend(n: nat, u: Unit, chosen: set<Slot>): nat {
    if u.Place() in chosen then n + u.tokens else n
  }

  function Spender(chosen: set<Slot>): (nat, Unit) -> nat {
    (n, u) => Spend(n, u, chosen)
  }

  /** The tokens of the chosen units. */
  function Spent(us: seq<Unit>, chosen: set<Slot>): nat { Fold(Spender(chosen), 0, us) }

  /** The places of one rank among the chosen. */
  function OfRank(chosen: set<Slot>, rank: Rank): set<Slot> { set k | k in chosen && k.rank == rank }

  /** A choice the budget and the caps allow. */
  ghost predicate Feasible(us: seq<Unit>, chosen: set<Slot>, b: Budget) {
    && Spent(us, chosen) <= b.available
    && forall rank | b.Cap(rank).Some? :: Spent(us, OfRank(chosen, rank)) <= b.Cap(rank).value
  }

  function Kept(t: Tally): set<Slot> { set k | k in t.verdicts && t.verdicts[k].Kept() }

  lemma SpentPush(us: seq<Unit>, u: Unit, chosen: set<Slot>)
    ensures Spent(us + [u], chosen) == Spend(Spent(us, chosen), u, chosen)
  {
    FoldPush(Spender(chosen), 0, us, u);
  }

  /** Only the chosen places among those listed count. */
  lemma {:induction false} SpentFrame(us: seq<Unit>, a: set<Slot>, b: set<Slot>)
    requires forall u | u in us :: u.Place() in a <==> u.Place() in b
    ensures Spent(us, a) == Spent(us, b)
  {
    if us != [] {
      assert us[|us| - 1] in us;
      assert forall u | u in us[..|us| - 1] :: u in us;
      SpentFrame(us[..|us| - 1], a, b);
    }
  }

  lemma {:induction false} SpentPrefix(us: seq<Unit>, i: nat, chosen: set<Slot>)
    requires i <= |us|
    ensures Spent(us[..i], chosen) <= Spent(us, chosen)
    decreases |us| - i
  {
    if i == |us| {
      assert us[..i] == us;
    } else {
      assert us[..i] + [us[i]] == us[..i + 1];
      SpentPush(us[..i], us[i], chosen);
      SpentPrefix(us, i + 1, chosen);
    }
  }

  lemma SpentPermutes(us: seq<Unit>, vs: seq<Unit>, chosen: set<Slot>)
    requires multiset(us) == multiset(vs)
    ensures Spent(us, chosen) == Spent(vs, chosen)
  {
    forall n, x, y ensures Spender(chosen)(Spender(chosen)(n, x), y) == Spender(chosen)(Spender(chosen)(n, y), x) {
      assert Spender(chosen)(Spender(chosen)(n, x), y) == Spend(Spend(n, x, chosen), y, chosen);
      assert Spender(chosen)(Spender(chosen)(n, y), x) == Spend(Spend(n, y, chosen), x, chosen);
    }
    FoldPermutes(Spender(chosen), 0, us, vs);
  }

  // ----- admission step by step -----

  ghost predicate Accounts(t: Tally, us: seq<Unit>, b: Budget) {
    && t.used == Spent(us, Kept(t))
    && (forall rank :: t.InRank(rank) == Spent(us, OfRank(Kept(t), rank)))
    && Feasible(us, Kept(t), b)
    && (forall k :: k in t.verdicts <==> exists u :: u in us && u.Place() == k)
    && (forall k | k in t.verdicts :: !t.verdicts[k].IsProtected?)
  }

  lemma DistinctFront(us: seq<Unit>)
    requires DistinctPlaces(us) && us != []
    ensures DistinctPlaces(us[..|us| - 1])
    ensures Unjudged(us[..|us| - 1], us[|us| - 1])
  {
  }

  lemma StepSpent(us: seq<Unit>, u: Unit, before: set<Slot>, after: set<Slot>)
    requires forall v | v in us :: v.Place() != u.Place() && (v.Place() in before <==> v.Place() in after)
    ensures Spent(us + [u], after) == Spend(Spent(us, before), u, after)
  {
    SpentPush(us, u, after);
    SpentFrame(us, before, after);
  }

  lemma StepKept(t: Tally, u: Unit, b: Budget)
    requires u.Place() !in t.verdicts
    ensures Kept(Consider(t, u, b)) == Kept(t) + (if Judge(t, u, b).Kept() then {u.Place()} else {})
  {
  }

  lemma StepRank(t: Tally, us: seq<Unit>, u: Unit, b: Budget, rank: Rank)
    requires Accounts(t, us, b) && Unjudged(us, u) && u.Place() !in t.verdicts
    ensures var t' := Consider(t, u, b); t'.InRank(rank) == Spent(us + [u], OfRank(Kept(t'), rank))
  {
    hide Judge, Spent;
    StepKept(t, u, b);
    assert t.InRank(rank) == Spent(us, OfRank(Kept(t), rank));
    StepSpent(us, u, OfRank(Kept(t), rank), OfRank(Kept(Consider(t, u, b)), rank));
  }

  lemma StepCap(t: Tally, us: seq<Unit>, u: Unit, b: Budget, rank: Rank)
    requires Accounts(t, us, b) && b.Cap(rank).Some?
    ensures Consider(t, u, b).InRank(rank) <= b.Cap(rank).value
  {
    assert t.InRank(rank) == Spent(us, OfRank(Kept(t), rank)) <= b.Cap(rank).value;
  }

  lemma StepUsed(t: Tally, us: seq<Unit>, u: Unit, b: Budget)
    requires Accounts(t, us, b) && Unjudged(us, u) && u.Place() !in t.verdicts
    ensures var t' := Consider(t, u, b); t'.used == Spent(us + [u], Kept(t')) <= b.available
  {
    StepKept(t, u, b);
    StepSpent(us, u, Kept(t), Kept(Consider(t, u, b)));
  }

  /** The unit's turn has not come: its place is none of theirs. */
  ghost predicate Unjudged(us: seq<Unit>, u: Unit) { forall v | v in us :: v.Place() != u.Place() }

  lemma StepAccounts(t: Tally, us: seq<Unit>, u: Unit, b: Budget)
    requires Accounts(t, us, b) && Unjudged(us, u)
    ensures Accounts(Consider(t, u, b), us + [u], b)
  {
    var t', us' := Consider(t, u, b), us + [u];
    assert u.Place() !in t.verdicts;
    StepUsed(t, us, u, b);
    forall rank
      ensures t'.InRank(rank) == Spent(us', OfRank(Kept(t'), rank))
      ensures b.Cap(rank).Some? ==> Spent(us', OfRank(Kept(t'), rank)) <= b.Cap(rank).value
    {
      StepRank(t, us, u, b, rank);
      if b.Cap(rank).Some? { StepCap(t, us, u, b, rank); }
    }
    StepVerdicts(t, us, u, b);
  }

  lemma StepVerdicts(t: Tally, us: seq<Unit>, u: Unit, b: Budget)
    requires forall k :: k in t.verdicts <==> exists v :: v in us && v.Place() == k
    ensures forall k :: k in Consider(t, u, b).verdicts <==> exists v :: v in us + [u] && v.Place() == k
  {
    forall k ensures k in Consider(t, u, b).verdicts <==> exists v :: v in us + [u] && v.Place() == k {
      if k in t.verdicts {
        var v :| v in us && v.Place() == k;
        assert v in us + [u];
      }
      assert u in us + [u];
    }
  }

  lemma AdmitLast(us: seq<Unit>, b: Budget)
    requires us != []
    ensures var front, u := us[..|us| - 1], us[|us| - 1];
      us == front + [u] && Admit(us, b) == Consider(Admit(front, b), u, b)
  {
  }

  lemma {:induction false} AdmitAccounts(us: seq<Unit>, b: Budget)
    requires DistinctPlaces(us)
    ensures Accounts(Admit(us, b), us, b)
  {
    if us != [] {
      var front, u := us[..|us| - 1], us[|us| - 1];
      DistinctFront(us);
      AdmitAccounts(front, b);
      StepAccounts(Admit(front, b), front, u, b);
      AdmitLast(us, b);
    }
  }

  /** A unit's verdict is settled when its turn comes. */
  lemma {:induction false} VerdictSettled(us: seq<Unit>, b: Budget, i: nat)
    requires DistinctPlaces(us) && i < |us|
    ensures us[i].Place() in Admit(us, b).verdicts
    ensures Admit(us, b).verdicts[us[i].Place()] == Judge(Admit(us[..i], b), us[i], b)
    decreases |us|
  {
    var front := us[..|us| - 1];
    DistinctFront(us);
    if i < |us| - 1 {
      VerdictSettled(front, b, i);
      assert front[..i] == us[..i];
    }
  }

  lemma PrefixVerdict(us: seq<Unit>, b: Budget, i: nat, j: nat)
    requires DistinctPlaces(us) && j < i <= |us|
    ensures us[j].Place() in Kept(Admit(us[..i], b)) <==> us[j].Place() in Kept(Admit(us, b))
  {
    VerdictSettled(us, b, j);
    VerdictSettled(us[..i], b, j);
    assert us[..i][..j] == us[..j];
  }

  // ----- greedy is best in order of priority -----

  /** A feasible choice that takes unit `i` has room for it after the units before it. */
  lemma ChoiceFits(us: seq<Unit>, b: Budget, chosen: set<Slot>, i: nat)
    requires Feasible(us, chosen, b) && i < |us| && us[i].Place() in chosen
    ensures Spent(us[..i], chosen) + us[i].tokens <= b.available
    ensures b.Cap(us[i].rank).Some? ==>
      Spent(us[..i], OfRank(chosen, us[i].rank)) + us[i].tokens <= b.Cap(us[i].rank).value
  {
    var u := us[i];
    assert us[..i + 1] == us[..i] + [u];
    SpentPush(us[..i], u, chosen);
    SpentPrefix(us, i + 1, chosen);
    SpentPush(us[..i], u, OfRank(chosen, u.rank));
    SpentPrefix(us, i + 1, OfRank(chosen, u.rank));
  }

  /** What a choice spends on the first units, when it agrees with the plan there. */
  lemma AgreementSpends(us: seq<Unit>, b: Budget, chosen: set<Slot>, i: nat)
    requires DistinctPlaces(us) && i <= |us|
    requires forall j | 0 <= j < i :: us[j].Place() in chosen <==> us[j].Place() in Kept(Admit(us, b))
    ensures Spent(us[..i], chosen) == Admit(us[..i], b).used
    ensures forall rank :: Spent(us[..i], OfRank(chosen, rank)) == Admit(us[..i], b).InRank(rank)
  {
    var prefix, t := us[..i], Admit(us[..i], b);
    AdmitAccounts(prefix, b);
    forall v | v in prefix ensures v.Place() in Kept(t) <==> v.Place() in chosen {
      var j :| 0 <= j < i && prefix[j] == v;
      PrefixVerdict(us, b, i, j);
    }
    SpentFrame(prefix, Kept(t), chosen);
    forall rank ensures Spent(prefix, OfRank(chosen, rank)) == t.InRank(rank) {
      SpentFrame(prefix, OfRank(Kept(t), rank), OfRank(chosen, rank));
    }
  }

  /** At the first unit where another feasible choice differs from the plan, the plan keeps it. */
  lemma GreedyBest(us: seq<Unit>, b: Budget, chosen: set<Slot>, i: nat)
    requires DistinctPlaces(us) && Feasible(us, chosen, b) && i < |us|
    requires forall j | 0 <= j < i :: us[j].Place() in chosen <==> us[j].Place() in Kept(Admit(us, b))
    ensures us[i].Place() in chosen ==> us[i].Place() in Kept(Admit(us, b))
  {
    if us[i].Place() in chosen {
      ChoiceFits(us, b, chosen, i);
      AgreementSpends(us, b, chosen, i);
      VerdictSettled(us, b, i);
    }
  }

  /** No unit that was left out could still be added. */
  lemma NothingMoreFits(us: seq<Unit>, b: Budget, u: Unit)
    requires DistinctPlaces(us) && u in us && u.Place() !in Kept(Admit(us, b))
    ensures var t := Admit(us, b);
      || t.used + u.tokens > b.available
      || (b.Cap(u.rank).Some? && t.InRank(u.rank) + u.tokens > b.Cap(u.rank).value)
  {
    var t, i :| t == Admit(us, b) && 0 <= i < |us| && us[i] == u;
    AdmitAccounts(us, b);
    VerdictSettled(us, b, i);
    AgreementSpends(us, b, Kept(t), i);
    SpentPrefix(us, i, Kept(t));
    SpentPrefix(us, i, OfRank(Kept(t), u.rank));
  }
}
