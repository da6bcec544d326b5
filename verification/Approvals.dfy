/**
 The approval protocol (cep/src/approval.rs): what each step does to the kept approvals, and what
 every history of steps keeps, whatever their order and whatever the clock says. The digest of a
 call's params is their canonical text.
 */
module Approvals {
  import opened Wrappers

  const MAX_KEPT: nat := 256

  datatype Status = Pending | Approved | Rejected | Used

  datatype Approval = Approval(
    id: string,
    principal: string,
    methodName: string,
    target: string,
    digest: string,
    expiresMs: nat,
    status: Status)

  type Items = map<string, Approval>

  datatype DecideError = NotFound | AlreadyDecided(status: Status)

  // ----- the steps -----

  /** One step of the store, with its clock and its answer. */
  datatype Step =
    | Request(approval: Approval, now: nat, dropped: set<string>)
    | Consume(id: string, principal: string, methodName: string, digest: string, now: nat, ok: bool)
    | Decide(id: string, approved: bool, now: nat, result: Result<Approval, DecideError>)
    | Forget(id: string, removed: bool)
    | List(now: nat, dropped: set<string>)

  type History = seq<Step>

  predicate Expired(a: Approval, now: nat) { a.expiresMs <= now }

  predicate Finished(a: Approval) { a.status == Used || a.status == Rejected }

  function Live(items: Items, now: nat): Items {
    map id | id in items && !Expired(items[id], now) && !Finished(items[id]) :: items[id]
  }

  /** What `prune` may leave: all live ones if there is room for one more, else the latest to expire. */
  ghost predicate Pruned(before: Items, after: Items, now: nat) {
    var live := Live(before, now);
    && (forall id | id in after :: id in live && after[id] == live[id])
    && (|live| < MAX_KEPT ==> after == live)
    && (|live| >= MAX_KEPT ==> |after| == MAX_KEPT - 1)
    && (forall id, other | id in live && id !in after && other in after :: live[id].expiresMs <= after[other].expiresMs)
  }

  predicate Fits(a: Approval, principal: string, methodName: string, digest: string) {
    a.principal == principal && a.methodName == methodName && a.digest == digest
  }

  /** An id that was never given before. */
  ghost predicate Unused(h: History, id: string) {
    forall k | 0 <= k < |h| :: h[k].Request? ==> h[k].approval.id != id
  }

  predicate Consumable(items: Items, id: string, principal: string, methodName: string, digest: string, now: nat) {
    && id in items && items[id].status == Approved && !Expired(items[id], now)
    && Fits(items[id], principal, methodName, digest)
  }

  function DecideResult(items: Items, id: string, approved: bool, now: nat): Result<Approval, DecideError> {
    if id !in items || Expired(items[id], now) then Err(NotFound)
    else if items[id].status != Pending then Err(AlreadyDecided(items[id].status))
    else Ok(items[id].(status := if approved then Approved else Rejected))
  }

  /** The step leads from `items` to `items'`, after the history `h`. */
  ghost predicate Next(h: History, items: Items, s: Step, items': Items) {
    match s
    case Request(a, now, dropped) =>
      && a.status == Pending && Unused(h, a.id) && a.id in items' && items'[a.id] == a
      && Pruned(items, items' - {a.id}, now) && dropped == items.Keys - items'.Keys
    case Consume(id, principal, methodName, digest, now, ok) =>
      && ok == Consumable(items, id, principal, methodName, digest, now)
      && items' == if ok then items[id := items[id].(status := Used)] else items
    case Decide(id, approved, now, result) =>
      && result == DecideResult(items, id, approved, now)
      && items' == if result.Ok? then items[id := result.value] else items
    case Forget(id, removed) =>
      && removed == (id in items && items[id].status == Pending)
      && items' == if removed then items - {id} else items
    case List(now, dropped) =>
      Pruned(items, items', now) && dropped == items.Keys - items'.Keys
  }

  // ----- what a history says of an id -----

  ghost predicate AskedAt(h: History, k: int, a: Approval) {
    0 <= k < |h| && h[k].Request? && h[k].approval == a
  }

  ghost predicate DecidedAt(h: History, i: int, id: string, approved: bool) {
    0 <= i < |h| && h[i].Decide? && h[i].id == id && h[i].approved == approved && h[i].result.Ok?
  }

  ghost predicate UsedAt(h: History, j: int, id: string) {
    0 <= j < |h| && h[j].Consume? && h[j].id == id && h[j].ok
  }

  ghost predicate DroppedAt(h: History, f: int, id: string) {
    0 <= f < |h| && match h[f]
      case Request(_, _, dropped) => id in dropped
      case List(_, dropped) => id in dropped
      case Forget(i, removed) => removed && i == id
      case _ => false
  }

  ghost predicate ForgottenAt(h: History, f: int, id: string) {
    0 <= f < |h| && h[f].Forget? && h[f].removed && h[f].id == id
  }

  /** The use at `j` has its approval: asked for, for this call, then granted, and not expired. */
  ghost predicate Backed(h: History, j: int, k: int, i: int, a: Approval) {
    && AskedAt(h, k, a) && DecidedAt(h, i, a.id, true) && UsedAt(h, j, a.id)
    && k < i < j && h[j].now < a.expiresMs && Fits(a, h[j].principal, h[j].methodName, h[j].digest)
  }

  /** What the protocol promises of the uses in a history. */
  ghost predicate SafeUses(h: History) {
    && (forall j, id | UsedAt(h, j, id) :: exists k, i, a: Approval :: a.id == id && Backed(h, j, k, i, a))
    && (forall j, j', id | UsedAt(h, j, id) && UsedAt(h, j', id) :: j == j')
    && (forall i, j, id | DecidedAt(h, i, id, false) && UsedAt(h, j, id) :: false)
    && (forall f, j, id | DroppedAt(h, f, id) && UsedAt(h, j, id) :: j < f)
    && (forall f, j, id | ForgottenAt(h, f, id) && UsedAt(h, j, id) :: false)
  }

  /** The decision at `i` answers the request at `k` before what that asked for expires. */
  ghost predicate InTime(h: History, i: int, k: int, a: Approval) {
    0 <= i < |h| && h[i].Decide? && h[i].id == a.id && AskedAt(h, k, a) && k < i && h[i].now < a.expiresMs
  }

  /** What it promises of the decisions: each answers a request in time, and no id is decided twice. */
  ghost predicate SafeDecisions(h: History) {
    && (forall i, id, ok | DecidedAt(h, i, id, ok) :: exists k, a: Approval :: a.id == id && InTime(h, i, k, a))
    && (forall i, i', id, ok, ok' | DecidedAt(h, i, id, ok) && DecidedAt(h, i', id, ok') :: i == i')
  }

  /** What the protocol promises of a whole history. */
  ghost predicate Safe(h: History) { SafeUses(h) && SafeDecisions(h) }

  // ----- the invariant -----

  /** What the history says of a kept approval. */
  ghost predicate Explained(h: History, a: Approval) {
    && (exists k :: AskedAt(h, k, a.(status := Pending)))
    && (a.status == Approved || a.status == Used ==>
          exists k, i :: AskedAt(h, k, a.(status := Pending)) && DecidedAt(h, i, a.id, true) && k < i)
    && (a.status != Rejected ==> forall i :: !DecidedAt(h, i, a.id, false))
    && (a.status == Pending ==> forall i, ok :: !DecidedAt(h, i, a.id, ok))
    && (a.status != Used ==> forall j :: !UsedAt(h, j, a.id))
    && (forall f :: !DroppedAt(h, f, a.id))
  }

  ghost predicate Kept(h: History, items: Items) {
    forall id | id in items :: items[id].id == id && Explained(h, items[id])
  }

  /** Every id in the history was given by a request, so a fresh id is not in it. */
  ghost predicate Known(h: History) {
    && (forall i, id, approved | DecidedAt(h, i, id, approved) :: !Unused(h, id))
    && (forall j, id | UsedAt(h, j, id) :: !Unused(h, id))
    && (forall f, id | DroppedAt(h, f, id) :: !Unused(h, id))
  }

  ghost predicate Inv(h: History, items: Items) {
    Safe(h) && Kept(h, items) && Known(h) && |items| <= MAX_KEPT
  }

  // ----- what one more step adds to a history -----

  lemma PushKeeps(h: History, s: Step)
    ensures forall k, a :: AskedAt(h + [s], k, a) <==> AskedAt(h, k, a) || (k == |h| && s.Request? && s.approval == a)
    ensures forall i, id, ok :: DecidedAt(h + [s], i, id, ok) <==>
              DecidedAt(h, i, id, ok) || (i == |h| && s.Decide? && s.id == id && s.approved == ok && s.result.Ok?)
    ensures forall j, id :: UsedAt(h + [s], j, id) <==>
              UsedAt(h, j, id) || (j == |h| && s.Consume? && s.id == id && s.ok)
    ensures forall f, id :: DroppedAt(h + [s], f, id) <==> DroppedAt(h, f, id) || (f == |h| && DroppedAt([s], 0, id))
    ensures forall f, id :: ForgottenAt(h + [s], f, id) <==>
              ForgottenAt(h, f, id) || (f == |h| && s.Forget? && s.removed && s.id == id)
    ensures forall id :: Unused(h + [s], id) <==> Unused(h, id) && (s.Request? ==> s.approval.id != id)
  {
    var g := h + [s];
    forall id ensures Unused(g, id) <==> Unused(h, id) && (s.Request? ==> s.approval.id != id) {
      assert g[|h|] == s;
      if Unused(g, id) {
        forall k | 0 <= k < |h| ensures h[k].Request? ==> h[k].approval.id != id { assert g[k] == h[k]; }
      }
    }
  }

  /** An approval explained before is explained after a step that neither decides, uses nor drops it. */
  lemma StillExplained(h: History, s: Step, a: Approval)
    requires Explained(h, a)
    requires !(s.Decide? && s.id == a.id && s.result.Ok?)
    requires !(s.Consume? && s.id == a.id && s.ok)
    requires !DroppedAt([s], 0, a.id)
    ensures Explained(h + [s], a)
  {
    PushKeeps(h, s);
    var k :| AskedAt(h, k, a.(status := Pending));
    assert AskedAt(h + [s], k, a.(status := Pending));
    if a.status == Approved || a.status == Used {
      var k', i :| AskedAt(h, k', a.(status := Pending)) && DecidedAt(h, i, a.id, true) && k' < i;
      assert AskedAt(h + [s], k', a.(status := Pending)) && DecidedAt(h + [s], i, a.id, true);
    }
  }

  lemma StillBacked(h: History, s: Step, j: int, k: int, i: int, a: Approval)
    requires Backed(h, j, k, i, a)
    ensures Backed(h + [s], j, k, i, a)
  {
    PushKeeps(h, s);
    assert (h + [s])[j] == h[j];
  }

  /** A step that uses nothing keeps a history safe when what it decides or drops was not used. */
  lemma StillSafe(h: History, s: Step)
    requires SafeUses(h) && !(s.Consume? && s.ok)
    requires s.Decide? && s.result.Ok? && !s.approved ==> forall j :: !UsedAt(h, j, s.id)
    requires s.Forget? && s.removed ==> forall j :: !UsedAt(h, j, s.id)
    ensures SafeUses(h + [s])
  {
    PushKeeps(h, s);
    var g := h + [s];
    forall j, id | UsedAt(g, j, id) ensures exists k, i, a: Approval :: a.id == id && Backed(g, j, k, i, a) {
      assert UsedAt(h, j, id);
      var k, i, a: Approval :| a.id == id && Backed(h, j, k, i, a);
      StillBacked(h, s, j, k, i, a);
    }
  }

  lemma StillInTime(h: History, s: Step, i: int, k: int, a: Approval)
    requires InTime(h, i, k, a)
    ensures InTime(h + [s], i, k, a)
  {
    PushKeeps(h, s);
    assert (h + [s])[i] == h[i];
  }

  lemma DecisionsStillSafe(h: History, items: Items, s: Step, items': Items)
    requires Inv(h, items) && Next(h, items, s, items')
    ensures SafeDecisions(h + [s])
  {
    PushKeeps(h, s);
    var g := h + [s];
    hide Next, Known, SafeUses;
    forall i, id, ok | DecidedAt(g, i, id, ok) ensures exists k, a: Approval :: a.id == id && InTime(g, i, k, a) {
      if i < |h| {
        assert DecidedAt(h, i, id, ok);
        var k, a: Approval :| a.id == id && InTime(h, i, k, a);
        StillInTime(h, s, i, k, a);
      } else {
        DecidedNow(h, items, s, items');
        var k :| AskedAt(h, k, items[id]);
        assert InTime(g, i, k, items[id]);
      }
    }
    forall i, i', id, ok, ok' | DecidedAt(g, i, id, ok) && DecidedAt(g, i', id, ok') ensures i == i' {
      if i == |h| || i' == |h| { DecidedNow(h, items, s, items'); }
    }
  }

  /** What a successful decision answers is kept, pending and not expired, and was not decided before. */
  lemma DecidedNow(h: History, items: Items, s: Step, items': Items)
    requires Inv(h, items) && Next(h, items, s, items') && s.Decide? && s.result.Ok?
    ensures s.id in items && items[s.id].id == s.id && s.now < items[s.id].expiresMs
    ensures (exists k :: AskedAt(h, k, items[s.id])) && forall i, ok :: !DecidedAt(h, i, s.id, ok)
  {
    var a := items[s.id];
    assert Explained(h, a) && a.(status := Pending) == a;
  }

  lemma StillKnown(h: History, items: Items, s: Step, items': Items)
    requires Inv(h, items) && Next(h, items, s, items')
    ensures Known(h + [s])
  {
    PushKeeps(h, s);
    forall id | id in items ensures !Unused(h, id) {
      var k :| AskedAt(h, k, items[id].(status := Pending));
      assert h[k].approval.id == id;
    }
  }

  // ----- each step keeps the invariant -----

  lemma DropKeeps(h: History, items: Items, s: Step, rest: Items)
    requires Inv(h, items) && (s.Request? || s.List?)
    requires s.dropped == items.Keys - rest.Keys
    requires forall id | id in rest :: id in items && rest[id] == items[id]
    ensures Kept(h + [s], rest)
  {
    forall id | id in rest ensures Explained(h + [s], rest[id]) {
      StillExplained(h, s, rest[id]);
    }
  }

  lemma RequestKeeps(h: History, items: Items, s: Step, items': Items)
    requires Inv(h, items) && Next(h, items, s, items') && s.Request?
    ensures Inv(h + [s], items')
  {
    StillSafe(h, s);
    DecisionsStillSafe(h, items, s, items');
    StillKnown(h, items, s, items');
    RequestKept(h, items, s, items');
    RoomForOne(items, s.approval.id, items', s.now);
  }

  lemma RoomForOne(items: Items, id: string, items': Items, now: nat)
    requires id in items' && Pruned(items, items' - {id}, now)
    ensures |items'| <= MAX_KEPT
  {
    var rest := items' - {id};
    PrunedSmall(items, rest, now);
    assert items'.Keys == rest.Keys + {id};
  }

  lemma RequestKept(h: History, items: Items, s: Step, items': Items)
    requires Inv(h, items) && Next(h, items, s, items') && s.Request?
    ensures Kept(h + [s], items')
  {
    var a, rest := s.approval, items' - {s.approval.id};
    KeptIdsUsed(h, items, a.id);
    assert items.Keys - rest.Keys == s.dropped;
    DropKeeps(h, items, s, rest);
    NewExplained(h, s);
    forall id | id in items' ensures items'[id].id == id && Explained(h + [s], items'[id]) {
      if id != a.id { assert rest[id] == items'[id]; }
    }
  }

  lemma KeptIdsUsed(h: History, items: Items, id: string)
    requires Kept(h, items)
    ensures id in items ==> !Unused(h, id)
  {
    if id in items {
      var k :| AskedAt(h, k, items[id].(status := Pending));
      assert h[k].approval.id == id;
    }
  }

  lemma NewExplained(h: History, s: Step)
    requires s.Request? && s.approval.status == Pending && Unused(h, s.approval.id) && Known(h)
    requires s.approval.id !in s.dropped
    ensures Explained(h + [s], s.approval)
  {
    PushKeeps(h, s);
    assert AskedAt(h + [s], |h|, s.approval.(status := Pending));
  }

  lemma PrunedSmall(before: Items, after: Items, now: nat)
    requires Pruned(before, after, now)
    ensures |after| < MAX_KEPT
  {
  }

  lemma ListKeeps(h: History, items: Items, s: Step, items': Items)
    requires Inv(h, items) && Next(h, items, s, items') && s.List?
    ensures Inv(h + [s], items')
  {
    StillSafe(h, s);
    DecisionsStillSafe(h, items, s, items');
    StillKnown(h, items, s, items');
    DropKeeps(h, items, s, items');
    PrunedSmall(items, items', s.now);
  }

  lemma ForgetKeeps(h: History, items: Items, s: Step, items': Items)
    requires Inv(h, items) && Next(h, items, s, items') && s.Forget?
    ensures Inv(h + [s], items')
  {
    StillSafe(h, s);
    DecisionsStillSafe(h, items, s, items');
    StillKnown(h, items, s, items');
    forall id | id in items' ensures items'[id].id == id && Explained(h + [s], items'[id]) {
      StillExplained(h, s, items[id]);
    }
    if s.removed { assert items'.Keys == items.Keys - {s.id}; }
  }

  lemma DecideKeeps(h: History, items: Items, s: Step, items': Items)
    requires Inv(h, items) && Next(h, items, s, items') && s.Decide?
    ensures Inv(h + [s], items')
  {
    StillSafe(h, s);
    DecisionsStillSafe(h, items, s, items');
    StillKnown(h, items, s, items');
    if s.result.Ok? {
      NowDecided(h, items[s.id], s);
      assert items'.Keys == items.Keys;
    }
    forall id | id in items' ensures items'[id].id == id && Explained(h + [s], items'[id]) {
      if !(s.result.Ok? && id == s.id) { StillExplained(h, s, items[id]); }
    }
  }

  lemma NowDecided(h: History, a: Approval, s: Step)
    requires Explained(h, a) && a.status == Pending && s.Decide? && s.id == a.id
    requires s.result == Ok(a.(status := if s.approved then Approved else Rejected))
    ensures Explained(h + [s], s.result.value)
  {
    PushKeeps(h, s);
    var k :| AskedAt(h, k, a);
    assert a.(status := Pending) == a && s.result.value.(status := Pending) == a;
    assert AskedAt(h + [s], k, a) && DecidedAt(h + [s], |h|, a.id, s.approved);
  }

  lemma ConsumeKeeps(h: History, items: Items, s: Step, items': Items)
    requires Inv(h, items) && Next(h, items, s, items') && s.Consume?
    ensures Inv(h + [s], items')
  {
    DecisionsStillSafe(h, items, s, items');
    StillKnown(h, items, s, items');
    if s.ok {
      UseIsSafe(h, items[s.id], s);
      NowUsed(h, items[s.id], s);
      assert items'.Keys == items.Keys;
    } else {
      StillSafe(h, s);
    }
    forall id | id in items' ensures items'[id].id == id && Explained(h + [s], items'[id]) {
      if !(s.ok && id == s.id) { StillExplained(h, s, items[id]); }
    }
  }

  lemma NowUsed(h: History, a: Approval, s: Step)
    requires Explained(h, a) && a.status == Approved && s.Consume? && s.id == a.id
    ensures Explained(h + [s], a.(status := Used))
  {
    PushKeeps(h, s);
    var k, i :| AskedAt(h, k, a.(status := Pending)) && DecidedAt(h, i, a.id, true) && k < i;
    assert AskedAt(h + [s], k, a.(status := Pending)) && DecidedAt(h + [s], i, a.id, true);
  }

  /** A use of a kept, granted and fitting approval is the first, and it is backed. */
  lemma UseIsSafe(h: History, a: Approval, s: Step)
    requires SafeUses(h) && Explained(h, a) && a.status == Approved
    requires s.Consume? && s.ok && s.id == a.id && !Expired(a, s.now) && Fits(a, s.principal, s.methodName, s.digest)
    ensures SafeUses(h + [s])
  {
    PushKeeps(h, s);
    var g := h + [s];
    var k0, i0 :| AskedAt(h, k0, a.(status := Pending)) && DecidedAt(h, i0, a.id, true) && k0 < i0;
    assert Backed(g, |h|, k0, i0, a.(status := Pending));
    forall f ensures !ForgottenAt(h, f, a.id) { assert !DroppedAt(h, f, a.id); }
    forall j, id | UsedAt(g, j, id) ensures exists k, i, b: Approval :: b.id == id && Backed(g, j, k, i, b) {
      if j < |h| {
        assert UsedAt(h, j, id);
        var k, i, b: Approval :| b.id == id && Backed(h, j, k, i, b);
        StillBacked(h, s, j, k, i, b);
      }
    }
  }

  lemma StepKeeps(h: History, items: Items, s: Step, items': Items)
    requires Inv(h, items) && Next(h, items, s, items')
    ensures Inv(h + [s], items')
  {
    match s {
      case Request(_, _, _) => RequestKeeps(h, items, s, items');
      case Consume(_, _, _, _, _, _) => ConsumeKeeps(h, items, s, items');
      case Decide(_, _, _, _) => DecideKeeps(h, items, s, items');
      case Forget(_, _) => ForgetKeeps(h, items, s, items');
      case List(_, _) => ListKeeps(h, items, s, items');
    }
  }

  /** `states` are the kept approvals before and after each step of `h`, from an empty store on. */
  ghost predicate IsRun(h: History, states: seq<Items>) {
    && |states| == |h| + 1 && states[0] == map[]
    && forall n | 0 <= n < |h| :: Next(h[..n], states[n], h[n], states[n + 1])
  }

  lemma RunPrefix(h: History, states: seq<Items>, n: nat)
    requires IsRun(h, states) && n <= |h|
    ensures IsRun(h[..n], states[..n + 1])
  {
    forall m | 0 <= m < n ensures Next(h[..n][..m], states[..n + 1][m], h[..n][m], states[..n + 1][m + 1]) {
      assert h[..n][..m] == h[..m];
    }
  }

  lemma EmptyKeeps()
    ensures Inv([], map[])
  {
  }

  lemma {:induction false} RunKeeps(h: History, states: seq<Items>)
    requires IsRun(h, states)
    ensures Inv(h, states[|h|])
    decreases |h|
  {
    if h == [] {
      EmptyKeeps();
    } else {
      var n := |h| - 1;
      var front, s := h[..n], h[n];
      RunPrefix(h, states, n);
      RunKeeps(front, states[..n + 1]);
      assert h == front + [s];
      StepKeeps(front, states[n], s, states[n + 1]);
    }
  }

  /** Every run from an empty store is safe, and never keeps more than the limit. */
  lemma RunSafe(h: History, states: seq<Items>)
    requires IsRun(h, states)
    ensures Safe(h) && forall n | 0 <= n < |states| :: |states[n]| <= 256
  {
    RunKeeps(h, states);
    forall n | 0 <= n < |states| ensures |states[n]| <= MAX_KEPT {
      RunPrefix(h, states, n);
      RunKeeps(h[..n], states[..n + 1]);
    }
  }
}
