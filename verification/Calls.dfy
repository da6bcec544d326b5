/**
 One call and its clones (cep/src/registry.rs): they share a flag, and an approval is used for all of
 them. Clones run at the same time, so each load, consume, store and request is a step of its own,
 and steps of other callers come in between.
 */
module Calls {
  import opened Wrappers
  import opened Approvals
  import opened ApprovalStores

  datatype CallInfo = CallInfo(principal: string, methodName: string, digest: string, approval: Option<string>)

  /** How far a clone has come in `require_approval`. */
  datatype Progress = Idle | SawUnset | Consumed | Refused | Answered(ok: bool)

  datatype System = System(
    history: History,
    items: Items,
    flag: bool,
    clones: map<nat, Progress>,
    /** Where in the history this call used an approval, each time it did. */
    uses: seq<nat>)

  datatype Action =
    | Load(clone: nat)
    | TryConsume(clone: nat, now: nat)
    | StoreFlag(clone: nat)
    | Ask(clone: nat, step: Step)
    | CheckAgain(clone: nat)
    | Others(step: Step)

  function ProgressOf(s: System, clone: nat): Progress { if clone in s.clones then s.clones[clone] else Idle }

  function Moved(s: System, clone: nat, p: Progress): System { s.(clones := s.clones[clone := p]) }

  /** A step of the store, and what it leaves in the system. */
  ghost predicate StoreStep(s: System, step: Step, s': System) {
    Next(s.history, s.items, step, s'.items) && s'.history == s.history + [step]
  }

  function ConsumeStep(call: CallInfo, s: System, now: nat): Step
    requires call.approval.Some?
  {
    Step.Consume(call.approval.value, call.principal, call.methodName, call.digest, now,
                 Consumable(s.items, call.approval.value, call.principal, call.methodName, call.digest, now))
  }

  ghost predicate CallNext(call: CallInfo, s: System, a: Action, s': System) {
    match a
    case Load(c) =>
      ProgressOf(s, c) == Idle && s' == Moved(s, c, if s.flag then Answered(true) else SawUnset)
    case TryConsume(c, now) =>
      && ProgressOf(s, c) == SawUnset
      && if call.approval.None? then s' == Moved(s, c, Refused)
         else
           var step := ConsumeStep(call, s, now);
           && StoreStep(s, step, s')
           && s' == Moved(s, c, if step.ok then Consumed else Refused)
                    .(history := s'.history, items := s'.items, uses := if step.ok then s.uses + [|s.history|]
                        else s.uses)
    case StoreFlag(c) =>
      ProgressOf(s, c) == Consumed && s' == Moved(s, c, Answered(true)).(flag := true)
    case Ask(c, step) =>
      && ProgressOf(s, c) == Refused && step.Request?
      && Fits(step.approval, call.principal, call.methodName, call.digest)
      && StoreStep(s, step, s')
      && s' == Moved(s, c, Answered(false)).(history := s'.history, items := s'.items)
    case CheckAgain(c) =>
      ProgressOf(s, c).Answered? && s' == Moved(s, c, Idle)
    case Others(step) =>
      StoreStep(s, step, s') && s' == s.(history := s'.history, items := s'.items)
  }

  /** The call used an approval there: granted for exactly this call and not expired. */
  ghost predicate OwnUse(call: CallInfo, h: History, j: nat) {
    && call.approval.Some? && UsedAt(h, j, call.approval.value)
    && h[j].principal == call.principal && h[j].methodName == call.methodName && h[j].digest == call.digest
    && exists k, i, a: Approval :: a.id == call.approval.value && Backed(h, j, k, i, a)
  }

  ghost predicate CallInv(call: CallInfo, s: System) {
    && Inv(s.history, s.items)
    && |s.uses| <= 1
    && (|s.uses| == 1 ==> OwnUse(call, s.history, s.uses[0]))
    && (s.flag ==> |s.uses| == 1)
    && (forall c | c in s.clones && (s.clones[c] == Consumed || s.clones[c] == Answered(true)) :: |s.uses| == 1)
  }

  lemma OwnUseStays(call: CallInfo, h: History, step: Step, j: nat)
    requires OwnUse(call, h, j)
    ensures OwnUse(call, h + [step], j)
  {
    PushKeeps(h, step);
    var k, i, a: Approval :| a.id == call.approval.value && Backed(h, j, k, i, a);
    StillBacked(h, step, j, k, i, a);
  }

  /** A kept approval that can be consumed was never used before. */
  lemma ConsumableUnused(h: History, items: Items, id: string, principal: string, methodName: string, digest: string,
      now: nat)
    requires Inv(h, items) && Consumable(items, id, principal, methodName, digest, now)
    ensures forall j :: !UsedAt(h, j, id)
  {
    assert Explained(h, items[id]);
  }

  lemma OtherStepKeeps(call: CallInfo, s: System, step: Step, items': Items)
    requires CallInv(call, s) && Next(s.history, s.items, step, items')
    ensures Inv(s.history + [step], items')
    ensures |s.uses| == 1 ==> OwnUse(call, s.history + [step], s.uses[0])
  {
    StepKeeps(s.history, s.items, step, items');
    if |s.uses| == 1 { OwnUseStays(call, s.history, step, s.uses[0]); }
  }

  lemma ConsumeKeepsCall(call: CallInfo, s: System, now: nat, items': Items)
    requires CallInv(call, s) && call.approval.Some? && ConsumeStep(call, s, now).ok
    requires Next(s.history, s.items, ConsumeStep(call, s, now), items')
    ensures s.uses == [] && OwnUse(call, s.history + [ConsumeStep(call, s, now)], |s.history|)
  {
    var step := ConsumeStep(call, s, now);
    var h := s.history + [step];
    ConsumableUnused(s.history, s.items, step.id, step.principal, step.methodName, step.digest, now);
    StepKeeps(s.history, s.items, step, items');
    PushKeeps(s.history, step);
    assert UsedAt(h, |s.history|, step.id);
    var k, i, a: Approval :| a.id == step.id && Backed(h, |s.history|, k, i, a);
  }

  lemma TryKeeps(call: CallInfo, s: System, a: Action, s': System)
    requires CallInv(call, s) && CallNext(call, s, a, s') && a.TryConsume?
    ensures CallInv(call, s')
  {
    if call.approval.Some? {
      OtherStepKeeps(call, s, ConsumeStep(call, s, a.now), s'.items);
      if ConsumeStep(call, s, a.now).ok { ConsumeKeepsCall(call, s, a.now, s'.items); }
    }
  }

  lemma StoreStepKeeps(call: CallInfo, s: System, a: Action, s': System)
    requires CallInv(call, s) && CallNext(call, s, a, s') && (a.Ask? || a.Others?)
    ensures CallInv(call, s')
  {
    OtherStepKeeps(call, s, a.step, s'.items);
  }

  lemma FlagStepKeeps(call: CallInfo, s: System, a: Action, s': System)
    requires CallInv(call, s) && CallNext(call, s, a, s') && (a.Load? || a.StoreFlag? || a.CheckAgain?)
    ensures CallInv(call, s')
  {
  }

  lemma CallStepKeeps(call: CallInfo, s: System, a: Action, s': System)
    requires CallInv(call, s) && CallNext(call, s, a, s')
    ensures CallInv(call, s')
  {
    if a.TryConsume? {
      TryKeeps(call, s, a, s');
    } else if a.Ask? || a.Others? {
      StoreStepKeeps(call, s, a, s');
    } else {
      FlagStepKeeps(call, s, a, s');
    }
  }

  /** Once the flag is stored it stays, and a check passes without touching the store. */
  lemma FlagIsFinal(call: CallInfo, s: System, a: Action, s': System)
    requires CallInv(call, s) && CallNext(call, s, a, s') && s.flag
    ensures s'.flag && s'.uses == s.uses
    ensures a.Load? ==> ProgressOf(s', a.clone) == Answered(true) && s'.history == s.history && s'.items == s.items
  {
    if a.TryConsume? && call.approval.Some? && ConsumeStep(call, s, a.now).ok {
      ConsumeKeepsCall(call, s, a.now, s'.items);
      assert false;
    }
  }

  /** A try is granted exactly when the call has used no approval yet and the one it names can be used. */
  lemma TryGranted(call: CallInfo, s: System, clone: nat, now: nat, s': System)
    requires CallInv(call, s) && CallNext(call, s, TryConsume(clone, now), s')
    ensures ProgressOf(s', clone) == Consumed <==>
      && s.uses == [] && call.approval.Some?
      && Consumable(s.items, call.approval.value, call.principal, call.methodName, call.digest, now)
    ensures ProgressOf(s', clone) == (if s'.uses == s.uses then Refused else Consumed)
  {
    if call.approval.Some? && ConsumeStep(call, s, now).ok { ConsumeKeepsCall(call, s, now, s'.items); }
  }

  ghost predicate IsCallRun(call: CallInfo, start: System, actions: seq<Action>, states: seq<System>) {
    && |states| == |actions| + 1 && states[0] == start
    && forall n | 0 <= n < |actions| :: CallNext(call, states[n], actions[n], states[n + 1])
  }

  lemma {:induction false} CallRunKeeps(call: CallInfo, start: System, actions: seq<Action>, states: seq<System>,
      n: nat)
    requires IsCallRun(call, start, actions, states) && n <= |actions| && CallInv(call, start)
    ensures CallInv(call, states[n])
  {
    if n > 0 {
      CallRunKeeps(call, start, actions, states, n - 1);
      CallStepKeeps(call, states[n - 1], actions[n - 1], states[n]);
    }
  }

  /** A call whose clones have checked nothing yet. */
  ghost predicate NewCall(s: System) {
    Inv(s.history, s.items) && !s.flag && s.clones == map[] && s.uses == []
  }

  /**
   In every interleaving of a new call's clones with all other callers: a check passes only after an
   approval was used by this very call, and the call uses one approval at most.
   */
  lemma ClonesShareOneApproval(call: CallInfo, start: System, actions: seq<Action>, states: seq<System>, n: nat)
    requires IsCallRun(call, start, actions, states) && NewCall(start) && n <= |actions|
    ensures |states[n].uses| <= 1
    ensures forall c | ProgressOf(states[n], c) == Answered(true) ::
              |states[n].uses| == 1 && OwnUse(call, states[n].history, states[n].uses[0])
  {
    CallRunKeeps(call, start, actions, states, n);
  }

  // ----- which checks of a call pass -----

  /** The clone's check that began at `l` is still the clone's current one at `n`. */
  ghost predicate CheckFrom(actions: seq<Action>, l: nat, n: nat, clone: nat) {
    l < n <= |actions| && actions[l] == Load(clone) && forall m | l < m < n :: actions[m] != CheckAgain(clone)
  }

  /** The clone used the call's approval with the action at `u`. */
  ghost predicate UsesAt(actions: seq<Action>, states: seq<System>, u: nat, clone: nat)
    requires |states| == |actions| + 1
  {
    && u < |actions| && actions[u].TryConsume? && actions[u].clone == clone
    && |states[u + 1].uses| > |states[u].uses|
  }

  ghost predicate UsesWithin(actions: seq<Action>, states: seq<System>, l: nat, n: nat, clone: nat)
    requires |states| == |actions| + 1
  {
    exists u: nat :: l < u < n && UsesAt(actions, states, u, clone)
  }

  /** A check has passed, or is about to, exactly when it loaded the flag stored or made the use itself. */
  ghost predicate ProgressSays(actions: seq<Action>, states: seq<System>, l: nat, n: nat, clone: nat)
    requires |states| == |actions| + 1 && l < |states| && n < |states|
  {
    var p := ProgressOf(states[n], clone);
    && p != Idle
    && (p in {Consumed, Answered(true)} <==> states[l].flag || UsesWithin(actions, states, l, n, clone))
  }

  lemma MoreWithin(actions: seq<Action>, states: seq<System>, l: nat, n: nat, clone: nat)
    requires |states| == |actions| + 1 && l < n
    ensures UsesWithin(actions, states, l, n + 1, clone) <==>
            UsesWithin(actions, states, l, n, clone) || UsesAt(actions, states, n, clone)
  {
  }

  /** An action of another clone, or of another caller, leaves the check where it is. */
  lemma OtherActionSays(call: CallInfo, start: System, actions: seq<Action>, states: seq<System>, l: nat, n: nat,
      clone: nat)
    requires IsCallRun(call, start, actions, states) && l < n < |actions|
    requires actions[n].Others? || actions[n].clone != clone
    requires ProgressSays(actions, states, l, n, clone)
    ensures ProgressSays(actions, states, l, n + 1, clone)
  {
    MoreWithin(actions, states, l, n, clone);
    assert CallNext(call, states[n], actions[n], states[n + 1]);
  }

  lemma OwnActionSays(call: CallInfo, start: System, actions: seq<Action>, states: seq<System>, l: nat, n: nat,
      clone: nat)
    requires IsCallRun(call, start, actions, states) && l < n < |actions| && CallInv(call, states[n])
    requires !actions[n].Others? && actions[n].clone == clone && actions[n] != CheckAgain(clone)
    requires ProgressSays(actions, states, l, n, clone)
    ensures ProgressSays(actions, states, l, n + 1, clone)
  {
    MoreWithin(actions, states, l, n, clone);
    assert CallNext(call, states[n], actions[n], states[n + 1]);
    if actions[n].TryConsume? { TryGranted(call, states[n], clone, actions[n].now, states[n + 1]); }
  }

  lemma {:induction false} CheckSays(call: CallInfo, start: System, actions: seq<Action>, states: seq<System>, l: nat,
      n: nat, clone: nat)
    requires IsCallRun(call, start, actions, states) && NewCall(start) && CheckFrom(actions, l, n, clone)
    ensures ProgressSays(actions, states, l, n, clone)
    decreases n
  {
    var m := n - 1;
    if m == l {
      assert CallNext(call, states[l], actions[l], states[n]);
      assert !UsesWithin(actions, states, l, n, clone);
    } else {
      CheckSays(call, start, actions, states, l, m, clone);
      if !actions[m].Others? && actions[m].clone == clone {
        CallRunKeeps(call, start, actions, states, m);
        OwnActionSays(call, start, actions, states, l, m, clone);
      } else {
        OtherActionSays(call, start, actions, states, l, m, clone);
      }
    }
  }

  lemma {:induction false} FlagStored(call: CallInfo, start: System, actions: seq<Action>, states: seq<System>, n: nat)
    requires IsCallRun(call, start, actions, states) && NewCall(start) && n <= |actions|
    ensures states[n].flag <==> exists f: nat :: f < n && actions[f].StoreFlag?
  {
    if n > 0 {
      FlagStored(call, start, actions, states, n - 1);
      assert CallNext(call, states[n - 1], actions[n - 1], states[n]);
    }
  }

  lemma {:induction false} UsesGrow(call: CallInfo, start: System, actions: seq<Action>, states: seq<System>, i: nat,
      j: nat)
    requires IsCallRun(call, start, actions, states) && i <= j <= |actions|
    ensures |states[i].uses| <= |states[j].uses|
    decreases j
  {
    if i < j {
      UsesGrow(call, start, actions, states, i, j - 1);
      assert CallNext(call, states[j - 1], actions[j - 1], states[j]);
    }
  }

  /** A check passes if and only if it loaded the flag after it was stored, or made the use itself. */
  lemma CheckPasses(call: CallInfo, start: System, actions: seq<Action>, states: seq<System>, l: nat, n: nat,
      clone: nat)
    requires IsCallRun(call, start, actions, states) && NewCall(start)
    requires CheckFrom(actions, l, n, clone) && ProgressOf(states[n], clone).Answered?
    ensures ProgressOf(states[n], clone).ok <==>
            (exists f: nat :: f < l && actions[f].StoreFlag?) || UsesWithin(actions, states, l, n, clone)
  {
    CheckSays(call, start, actions, states, l, n, clone);
    FlagStored(call, start, actions, states, l);
  }

  /**
   Once a clone used the call's approval, a check that begins later passes if and only if the flag was
   stored before it began; of the checks that began earlier only the one that made the use passes.
   */
  lemma WhichChecksPass(call: CallInfo, start: System, actions: seq<Action>, states: seq<System>,
                        u: nat, user: nat, l: nat, n: nat, clone: nat)
    requires IsCallRun(call, start, actions, states) && NewCall(start) && UsesAt(actions, states, u, user)
    requires CheckFrom(actions, l, n, clone) && ProgressOf(states[n], clone).Answered?
    ensures l > u ==> (ProgressOf(states[n], clone).ok <==> exists f: nat :: f < l && actions[f].StoreFlag?)
    ensures l < u ==> (ProgressOf(states[n], clone).ok <==> clone == user && u < n)
  {
    CheckPasses(call, start, actions, states, l, n, clone);
    forall other: nat | UsesAt(actions, states, other, clone) ensures other == u && clone == user {
      OneUse(call, start, actions, states, u, user, other, clone);
    }
    if l < u {
      FlagStored(call, start, actions, states, l);
      UsesGrow(call, start, actions, states, l, u);
      CallRunKeeps(call, start, actions, states, l);
      CallRunKeeps(call, start, actions, states, u + 1);
    }
  }

  lemma OneUse(call: CallInfo, start: System, actions: seq<Action>, states: seq<System>, u: nat, user: nat, other: nat,
      clone: nat)
    requires IsCallRun(call, start, actions, states) && NewCall(start)
    requires UsesAt(actions, states, u, user) && UsesAt(actions, states, other, clone)
    ensures other == u && clone == user
  {
    hide Inv, OwnUse, Moved;
    var first, last := if u < other then u else other, if u < other then other else u;
    if first < last {
      UsesGrow(call, start, actions, states, first + 1, last);
      CallRunKeeps(call, start, actions, states, last + 1);
    }
  }

  // ----- a clone that comes too late -----

  /** Someone asks and the owner grants; two clones load the flag, and then both try the approval. */
  function LateActions(a: Approval, now: nat): seq<Action> {
    [ Others(Step.Request(a, now, {})), Others(Step.Decide(a.id, true, now, Ok(a.(status := Approved)))),
      Load(0), Load(1), TryConsume(0, now), TryConsume(1, now) ]
  }

  function Granted(a: Approval, now: nat): History {
    [Step.Request(a, now, {}), Step.Decide(a.id, true, now, Ok(a.(status := Approved)))]
  }

  function Trying(call: CallInfo, a: Approval, now: nat, ok: bool): Step {
    Step.Consume(a.id, call.principal, call.methodName, call.digest, now, ok)
  }

  function LateStates(call: CallInfo, a: Approval, now: nat): seq<System> {
    var h, kept, used := Granted(a, now), map[a.id := a.(status := Approved)], map[a.id := a.(status := Used)];
    [ System([], map[], false, map[], []),
      System([Step.Request(a, now, {})], map[a.id := a], false, map[], []),
      System(h, kept, false, map[], []),
      System(h, kept, false, map[0 := SawUnset], []),
      System(h, kept, false, map[0 := SawUnset, 1 := SawUnset], []),
      System(h + [Trying(call, a, now, true)], used, false, map[0 := Consumed, 1 := SawUnset], [2]),
      System(h + [Trying(call, a, now, true), Trying(call, a, now, false)], used, false,
             map[0 := Consumed, 1 := Refused], [2]) ]
  }

  lemma LateGrant(call: CallInfo, a: Approval, now: nat)
    requires a.status == Pending && a.expiresMs > now
    ensures var states, actions := LateStates(call, a, now), LateActions(a, now);
      CallNext(call, states[0], actions[0], states[1]) && CallNext(call, states[1], actions[1], states[2])
  {
    var after: Items := map[a.id := a];
    assert after - {a.id} == map[] && Live(map[], now) == map[];
    assert after[a.id := a.(status := Approved)] == map[a.id := a.(status := Approved)];
  }

  lemma LateLoads(call: CallInfo, a: Approval, now: nat)
    ensures var states, actions := LateStates(call, a, now), LateActions(a, now);
      CallNext(call, states[2], actions[2], states[3]) && CallNext(call, states[3], actions[3], states[4])
  {
  }

  lemma LateTries(call: CallInfo, a: Approval, now: nat)
    requires call.approval == Some(a.id) && a.expiresMs > now && Fits(a, call.principal, call.methodName, call.digest)
    ensures var states, actions := LateStates(call, a, now), LateActions(a, now);
      CallNext(call, states[4], actions[4], states[5]) && CallNext(call, states[5], actions[5], states[6])
  {
    var kept: Items := map[a.id := a.(status := Approved)];
    var use, retry := Trying(call, a, now, true), Trying(call, a, now, false);
    assert kept[a.id := a.(status := Used)] == map[a.id := a.(status := Used)];
    assert Granted(a, now) + [use, retry] == Granted(a, now) + [use] + [retry];
  }

  /**
   A clone is said to share the call's approval. Here is a run of a new call in which it does not: two
   clones load the flag, one uses the approval that was granted for the call, and the other is refused.
   */
  lemma LateCloneRefused(call: CallInfo, a: Approval, now: nat)
    requires call.approval == Some(a.id) && a.status == Pending && a.expiresMs > now
    requires Fits(a, call.principal, call.methodName, call.digest)
    ensures var actions, states := LateActions(a, now), LateStates(call, a, now);
      && NewCall(states[0]) && IsCallRun(call, states[0], actions, states)
      && UsesAt(actions, states, 4, 0)
      && CheckFrom(actions, 3, 6, 1) && ProgressOf(states[6], 1) == Refused
  {
    LateGrant(call, a, now);
    LateLoads(call, a, now);
    LateTries(call, a, now);
    EmptyKeeps();
    var actions, states := LateActions(a, now), LateStates(call, a, now);
    hide CallNext;
  }

  // ----- the call as an object -----

  datatype PathAnswer = Allowed | Forbidden | NeedsApproval(approval: Approval)

  /** A resolved path, part by part. */
  type Path = seq<string>

  datatype OnDenied = Error | Ask

  /** The folders a principal may touch; `None` is anywhere (cep/src/principal.rs). */
  type Roots = Option<seq<Path>>

  ghost predicate Inside(roots: Roots, path: Path) {
    roots.Some? ==> exists i :: 0 <= i < |roots.value| && roots.value[i] <= path
  }

  method WithinRoots(roots: Roots, path: Path) returns (within: bool)
    ensures within <==> Inside(roots, path)
  {
    if roots.None? { return true; }
    for i := 0 to |roots.value|
      invariant forall j | 0 <= j < i :: !(roots.value[j] <= path)
    {
      if roots.value[i] <= path { return true; }
    }
    within := false;
  }

  class Call {
    const info: CallInfo
    const roots: Roots
    const onDenied: OnDenied
    const store: ApprovalStore
    var approved: bool

    constructor (info: CallInfo, roots: Roots, onDenied: OnDenied, store: ApprovalStore)
      ensures this.info == info && this.roots == roots && this.onDenied == onDenied && this.store == store && !approved
    {
      this.info, this.roots, this.onDenied, this.store, approved := info, roots, onDenied, store, false;
    }

    /** The approval the call names can be used for it. */
    predicate MayConsume(items: Items, now: nat) {
      info.approval.Some? && Consumable(items, info.approval.value, info.principal, info.methodName, info.digest, now)
    }

    /** The approval the call names was granted for exactly it and had not expired, and is used up; no other changed. */
    ghost predicate UsesUp(before: Items, after: Items, now: nat) {
      && info.approval.Some? && info.approval.value in before
      && var a := before[info.approval.value];
         && a.status.Approved? && a.expiresMs > now
         && a.principal == info.principal && a.methodName == info.methodName && a.digest == info.digest
         && after == before[info.approval.value := a.(status := Used)]
    }

    /** Goes on only with an approval for exactly this call; otherwise asks for one under `freshId`. */
    method RequireApproval(target: string, freshId: string, now: nat) returns (r: Result<(), Approval>)
      requires store.Valid() && Unused(store.history, freshId)
      modifies this, store`items, store`history
      ensures store.Valid() && (approved <==> r.Ok?)
      ensures r.Ok? <==> old(approved) || MayConsume(old(store.items), now)
      ensures r.Ok? && !old(approved) ==> UsesUp(old(store.items), store.items, now)
      ensures old(approved) ==> store.items == old(store.items) && store.history == old(store.history)
      ensures r.Err? ==> freshId in store.items && store.items[freshId] == r.error
      ensures r.Err? ==>
        r.error == Approval(freshId, info.principal, info.methodName, target, info.digest, now + store.ttlMs, Pending)
    {
      hide *;
      if approved {
        return Ok(());
      }
      var ok := UseApproval(freshId, now);
      if ok {
        return Ok(());
      }
      var approval := store.Request(info.principal, info.methodName, info.digest, target, freshId, now);
      r := Err(approval);
    }

    /** Paths within the caller's roots go on; others are forbidden, or need an approval where the caller asks. */
    method CheckPath(resolved: Path, target: string, freshId: string, now: nat) returns (r: PathAnswer)
      requires store.Valid() && Unused(store.history, freshId)
      modifies this, store`items, store`history
      ensures store.Valid()
      ensures r.Allowed? && !Inside(roots, resolved) && !old(approved) ==> UsesUp(old(store.items), store.items, now)
      ensures r.Allowed? <==>
        Inside(roots, resolved) || (onDenied.Ask? && (old(approved) || MayConsume(old(store.items), now)))
      ensures r.Forbidden? <==> !Inside(roots, resolved) && onDenied.Error?
      ensures Inside(roots, resolved) || onDenied.Error? ==>
        approved == old(approved) && store.items == old(store.items) && store.history == old(store.history)
      ensures !Inside(roots, resolved) && onDenied.Ask? ==> (approved <==> r.Allowed?)
      ensures r.NeedsApproval? ==>
        r.approval == Approval(freshId, info.principal, info.methodName, target, info.digest, now + store.ttlMs,
            Pending)
        && freshId in store.items && store.items[freshId] == r.approval
    {
      var within := WithinRoots(roots, resolved);
      if within { return Allowed; }
      match onDenied {
        case Error => r := Forbidden;
        case Ask =>
          var answer := RequireApproval(target, freshId, now);
          r := match answer case Ok(_) => Allowed case Err(approval) => NeedsApproval(approval);
      }
    }

    /** Uses the approval the call names, if it can be used, for this call and all its clones. */
    method UseApproval(ghost freshId: string, now: nat) returns (ok: bool)
      requires store.Valid() && !approved && Unused(store.history, freshId)
      modifies this, store`items, store`history
      ensures store.Valid() && Unused(store.history, freshId)
      ensures approved == ok == MayConsume(old(store.items), now)
      ensures if ok then UsesUp(old(store.items), store.items, now) else store.items == old(store.items)
    {
      ok := false;
      if info.approval.Some? {
        ok := store.Consume(info.approval.value, info.principal, info.methodName, info.digest, now);
        PushKeeps(old(store.history), store.history[|store.history| - 1]);
        if ok {
          approved := true;
        }
      }
    }
  }
}
