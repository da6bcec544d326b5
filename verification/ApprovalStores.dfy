/** The approval store itself (cep/src/approval.rs), each method one step of the protocol. */
module ApprovalStores {
  import opened Wrappers
  import opened Approvals

  datatype Decision = Decision(approved: bool, feedback: Option<string>)

  /** A channel to one waiting caller. */
  type Channel = nat

  /** The order `pending` lists approvals in. */
  function InsertByExpiry(a: Approval, r: seq<Approval>): seq<Approval> {
    if r == [] || a.expiresMs <= r[0].expiresMs then [a] + r else [r[0]] + InsertByExpiry(a, r[1..])
  }

  ghost predicate SoonestFirst(r: seq<Approval>) {
    forall i, j | 0 <= i < j < |r| :: r[i].expiresMs <= r[j].expiresMs
  }

  lemma {:induction false} InsertByExpiryMembers(a: Approval, r: seq<Approval>)
    ensures multiset(InsertByExpiry(a, r)) == multiset(r) + multiset{a}
  {
    if r != [] {
      assert r == [r[0]] + r[1..];
      if a.expiresMs > r[0].expiresMs { InsertByExpiryMembers(a, r[1..]); }
    }
  }

  lemma {:induction false} InsertByExpirySorts(a: Approval, r: seq<Approval>)
    requires SoonestFirst(r)
    ensures SoonestFirst(InsertByExpiry(a, r))
  {
    if r != [] && a.expiresMs > r[0].expiresMs {
      InsertByExpirySorts(a, r[1..]);
      InsertByExpiryMembers(a, r[1..]);
      var rest := InsertByExpiry(a, r[1..]);
      forall j | 0 <= j < |rest| ensures r[0].expiresMs <= rest[j].expiresMs {
        assert rest[j] in multiset(rest);
        assert rest[j] == a || rest[j] in r[1..];
      }
    }
  }

  ghost predicate Oldest(items: Items, id: string) {
    id in items && forall other | other in items :: items[id].expiresMs <= items[other].expiresMs
  }

  /** Some approval expires before all others. */
  lemma {:induction false} OldestExists(items: Items) returns (id: string)
    requires items != map[]
    ensures Oldest(items, id)
    decreases |items|
  {
    id :| id in items;
    var rest := items - {id};
    assert rest.Keys == items.Keys - {id};
    if rest != map[] {
      var best := OldestExists(rest);
      if items[best].expiresMs < items[id].expiresMs { id := best; }
    }
    forall other | other in items ensures items[id].expiresMs <= items[other].expiresMs {
      assert other in rest.Keys || other !in rest.Keys;
    }
  }

  class ApprovalStore {
    const ttlMs: nat
    var items: Items
    var waiters: map<string, Channel>
    /** What each channel was sent, and the next channel's number. */
    var sent: map<Channel, Decision>
    var nextChannel: Channel
    ghost var history: History

    ghost predicate Valid()
      reads this
    {
      && Inv(history, items)
      && (forall id | id in waiters :: waiters[id] < nextChannel && waiters[id] !in sent)
      && (forall c | c in sent :: c < nextChannel)
      && (forall id, other | id in waiters && other in waiters && id != other :: waiters[id] != waiters[other])
    }

    ghost predicate Stepped(h: History, before: Items, s: Step)
      reads this
    {
      history == h + [s] && Next(h, before, s, items)
    }

    constructor (ttlMs: nat)
      ensures Valid() && items == map[] && history == [] && waiters == map[] && sent == map[] && this.ttlMs == ttlMs
    {
      this.ttlMs := ttlMs;
      items, waiters, sent, nextChannel := map[], map[], map[], 0;
      history := [];
      EmptyKeeps();
    }

    /** The store's items after a step, and the step in its history. */
    method Record(items': Items, ghost s: Step)
      requires Valid() && Next(history, items, s, items')
      modifies this`items, this`history
      ensures Valid() && items == items' && Stepped(old(history), old(items), s)
    {
      StepKeeps(history, items, s, items');
      items := items';
      history := history + [s];
    }

    /** Drops what is used, rejected or expired, then the soonest to expire until there is room. */
    static method Prune(before: Items, now: nat) returns (items: Items)
      ensures Pruned(before, items, now)
    {
      items := map id | id in before && !Expired(before[id], now) && !Finished(before[id]) :: before[id];
      ghost var live := Live(before, now);
      assert items == live;
      while |items| >= MAX_KEPT
        invariant items.Keys <= live.Keys && forall id | id in items :: items[id] == live[id]
        invariant |live| < MAX_KEPT ==> items == live
        invariant |live| >= MAX_KEPT ==> |items| >= MAX_KEPT - 1
        invariant forall id, other | id in live && id !in items && other in items ::
          live[id].expiresMs <= items[other].expiresMs
        decreases |items|
      {
        ghost var first := OldestExists(items);
        var oldest :| oldest in items && forall other | other in items ::
            items[oldest].expiresMs <= items[other].expiresMs;
        ghost var kept := items;
        items := items - {oldest};
        assert items.Keys == kept.Keys - {oldest};
      }
    }

    /** What is kept is granted or waiting and has not expired; only for want of room the soonest to expire go. */
    static lemma PrunedMeans(before: Items, items: Items, now: nat)
      requires Pruned(before, items, now)
      ensures var live := set id | id in before && before[id].expiresMs > now
                                   && (before[id].status.Pending? || before[id].status.Approved?);
        && items.Keys <= live && (forall id | id in items :: items[id] == before[id])
        && |items| == (if |live| < 256 then |live| else 255)
        && forall id, other | id in live && id !in items && other in items ::
             before[id].expiresMs <= before[other].expiresMs
    {
      var live := set id | id in before && before[id].expiresMs > now
                           && (before[id].status.Pending? || before[id].status.Approved?);
      assert Live(before, now).Keys == live;
      assert |Live(before, now).Keys| == |Live(before, now)|;
    }

    static lemma Requested(h: History, before: Items, rest: Items, a: Approval, now: nat)
      requires Unused(h, a.id) && a.id !in before && a.status == Pending && Pruned(before, rest, now)
      ensures Next(h, before, Step.Request(a, now, before.Keys - rest[a.id := a].Keys), rest[a.id := a])
    {
      assert a.id !in rest;
      assert rest[a.id := a] - {a.id} == rest;
    }

    /** A new pending approval under an id that was never given. */
    method Request(principal: string, methodName: string, digest: string, target: string, id: string, now: nat)
      returns (approval: Approval)
      requires Valid() && Unused(history, id)
      modifies this`items, this`history
      ensures Valid()
      ensures approval == Approval(id, principal, methodName, target, digest, now + ttlMs, Pending)
      ensures id in items && items[id] == approval && |items| <= 256
      ensures forall other | other in items && other != id ::
        && other in old(items) && items[other] == old(items)[other] && items[other].expiresMs > now
        && (items[other].status.Pending? || items[other].status.Approved?)
      ensures Stepped(old(history), old(items), Step.Request(approval, now, old(items).Keys - items.Keys))
    {
      approval := Approval(id, principal, methodName, target, digest, now + ttlMs, Pending);
      KeptIdsUsed(history, items, id);
      hide Inv, Unused, Live, Next, Pruned;
      var rest := Prune(items, now);
      PrunedMeans(items, rest, now);
      Requested(history, items, rest, approval, now);
      var items' := rest[id := approval];
      Record(items', Step.Request(approval, now, items.Keys - items'.Keys));
    }

    /** True once: for a granted, unexpired approval of exactly this call, which is then used up. */
    method Consume(id: string, principal: string, methodName: string, digest: string, now: nat) returns (ok: bool)
      requires Valid()
      modifies this`items, this`history
      ensures Valid() && ok == Consumable(old(items), id, principal, methodName, digest, now)
      ensures ok <==> id in old(items) && var a := old(items)[id];
        && a.status == Approved && a.expiresMs > now
        && a.principal == principal && a.methodName == methodName && a.digest == digest
      ensures items == if ok then old(items)[id := old(items)[id].(status := Used)] else old(items)
      ensures Stepped(old(history), old(items), Step.Consume(id, principal, methodName, digest, now, ok))
    {
      var items' := items;
      if id !in items {
        ok := false;
      } else {
        var approval := items[id];
        ok := approval.status == Approved
          && approval.expiresMs > now
          && approval.principal == principal
          && approval.methodName == methodName
          && approval.digest == digest;
        if ok {
          items' := items[id := approval.(status := Used)];
        }
      }
      Record(items', Step.Consume(id, principal, methodName, digest, now, ok));
    }

    /** Grants or rejects what is still waiting; whoever waits for the answer is told once. */
    method Decide(id: string, approved: bool, feedback: Option<string>, now: nat)
      returns (result: Result<Approval, DecideError>)
      requires Valid()
      modifies this`items, this`history, this`waiters, this`sent
      ensures Valid()
      ensures result.Ok? <==> id in old(items) && old(items)[id].status.Pending? && old(items)[id].expiresMs > now
      ensures result == Err(NotFound) <==> id !in old(items) || old(items)[id].expiresMs <= now
      ensures result.Err? && result.error.AlreadyDecided? ==> result.error.status == old(items)[id].status
      ensures result.Ok? ==> result.value == old(items)[id].(status := if approved then Approved else Rejected)
      ensures items == if result.Ok? then old(items)[id := result.value] else old(items)
      ensures Stepped(old(history), old(items), Step.Decide(id, approved, now, result))
      ensures if result.Ok? && id in old(waiters)
              then waiters == old(waiters) - {id} && sent == old(sent)[old(waiters)[id] := Decision(approved, feedback)]
              else waiters == old(waiters) && sent == old(sent)
    {
      hide Inv;
      var items' := items;
      if id !in items || items[id].expiresMs <= now {
        result := Err(NotFound);
      } else if items[id].status != Pending {
        result := Err(AlreadyDecided(items[id].status));
      } else {
        var decided := items[id].(status := if approved then Approved else Rejected);
        items' := items[id := decided];
        result := Ok(decided);
      }
      Record(items', Step.Decide(id, approved, now, result));
      if result.Ok? {
        Tell(id, Decision(approved, feedback));
      }
    }

    /** Sends the answer to whoever waits for `id`, and closes the channel. */
    method Tell(id: string, decision: Decision)
      requires Valid()
      modifies this`waiters, this`sent
      ensures Valid()
      ensures if id in old(waiters)
              then waiters == old(waiters) - {id} && sent == old(sent)[old(waiters)[id] := decision]
              else waiters == old(waiters) && sent == old(sent)
    {
      if id in waiters {
        sent := sent[waiters[id] := decision];
        waiters := waiters - {id};
      }
    }

    /** A channel for the owner's answer to `id`; an earlier one for it is closed. */
    method Wait(id: string) returns (channel: Channel)
      requires Valid()
      modifies this`waiters, this`nextChannel
      ensures Valid() && waiters == old(waiters)[id := channel] && channel !in sent
    {
      channel := nextChannel;
      nextChannel := nextChannel + 1;
      waiters := waiters[id := channel];
    }

    /** Stops waiting, and forgets a still-pending approval. */
    method Forget(id: string)
      requires Valid()
      modifies this`items, this`history, this`waiters
      ensures Valid() && waiters == old(waiters) - {id}
      ensures items == if id in old(items) && old(items)[id].status.Pending? then old(items) - {id} else old(items)
      ensures Stepped(old(history), old(items), Step.Forget(id, id in old(items) && old(items)[id].status == Pending))
    {
      waiters := waiters - {id};
      var removed := id in items && items[id].status == Pending;
      Record(if removed then items - {id} else items, Step.Forget(id, removed));
    }

    /** The approvals that wait for the owner, the soonest to expire first. */
    method ListPending(now: nat) returns (pending: seq<Approval>)
      requires Valid()
      modifies this`items, this`history
      ensures Valid() && Stepped(old(history), old(items), Step.List(now, old(items).Keys - items.Keys))
      ensures SoonestFirst(pending)
      ensures forall a :: multiset(pending)[a] ==
                          if a.id in items && items[a.id] == a && a.status == Pending then 1 else 0
      ensures forall id | id in items :: id in old(items) && items[id] == old(items)[id] && items[id].expiresMs > now
    {
      var items' := Prune(items, now);
      PrunedMeans(items, items', now);
      Record(items', Step.List(now, items.Keys - items'.Keys));
      pending := PendingOf(items');
    }

    static method PendingOf(items: Items) returns (pending: seq<Approval>)
      requires forall id | id in items :: items[id].id == id
      ensures SoonestFirst(pending)
      ensures forall a :: multiset(pending)[a] ==
                          if a.id in items && items[a.id] == a && a.status == Pending then 1 else 0
    {
      pending := [];
      var rest := items.Keys;
      while rest != {}
        invariant rest <= items.Keys && SoonestFirst(pending)
        invariant forall a :: multiset(pending)[a] ==
                    if a.id in items && a.id !in rest && items[a.id] == a && a.status == Pending then 1 else 0
      {
        var id :| id in rest;
        rest := rest - {id};
        var a := items[id];
        if a.status == Pending {
          InsertByExpirySorts(a, pending);
          InsertByExpiryMembers(a, pending);
          pending := InsertByExpiry(a, pending);
        }
      }
    }
  }
}
