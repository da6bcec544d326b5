/**
 The in-RAM event store of external chats (agents/src/memory/external.rs). It numbers events as the
 store on disk does, and hands each event to the app once. Its methods are taken as single steps.
 */
module MemStores {
  import opened Wrappers
  import opened Json
  import opened Events
  import opened Log
  import opened LogRuns

  /** Stable: an event goes before those with a greater number only. */
  function InsertBySeq(e: Event, es: seq<Event>): seq<Event> {
    if es == [] || e.seqNo <= es[0].seqNo then [e] + es else [es[0]] + InsertBySeq(e, es[1..])
  }

  function SortBySeq(es: seq<Event>): seq<Event> {
    if es == [] then [] else InsertBySeq(es[0], SortBySeq(es[1..]))
  }

  /** The events numbered `n`, in order. */
  function WithSeq(es: seq<Event>, n: nat): seq<Event> {
    if es == [] then [] else (if es[0].seqNo == n then [es[0]] else []) + WithSeq(es[1..], n)
  }

  ghost predicate NonDecreasing(es: seq<Event>) {
    forall i, j | 0 <= i < j < |es| :: es[i].seqNo <= es[j].seqNo
  }

  lemma {:induction false} InsertBySeqMembers(e: Event, es: seq<Event>)
    ensures forall x :: x in InsertBySeq(e, es) <==> x == e || x in es
  {
    if es != [] && e.seqNo > es[0].seqNo {
      InsertBySeqMembers(e, es[1..]);
      assert es == [es[0]] + es[1..];
    }
  }

  lemma {:induction false} InsertBySeqCount(e: Event, es: seq<Event>)
    ensures multiset(InsertBySeq(e, es)) == multiset(es) + multiset{e}
  {
    if es != [] {
      assert es == [es[0]] + es[1..];
      if e.seqNo > es[0].seqNo { InsertBySeqCount(e, es[1..]); }
    }
  }

  lemma {:induction false} InsertBySeqSorts(e: Event, es: seq<Event>)
    requires NonDecreasing(es)
    ensures NonDecreasing(InsertBySeq(e, es))
  {
    if es != [] && e.seqNo > es[0].seqNo {
      InsertBySeqSorts(e, es[1..]);
      InsertBySeqMembers(e, es[1..]);
      var rest := InsertBySeq(e, es[1..]);
      forall j | 0 <= j < |rest| ensures es[0].seqNo <= rest[j].seqNo {
        assert rest[j] in rest;
        if rest[j] != e {
          var k :| 0 <= k < |es[1..]| && es[1..][k] == rest[j];
          assert es[k + 1] == rest[j];
        }
      }
    }
  }

  lemma WithSeqOfFirst(first: Event, rest: seq<Event>, n: nat)
    ensures WithSeq([first] + rest, n) == (if first.seqNo == n then [first] else []) + WithSeq(rest, n)
  {
    assert ([first] + rest)[1..] == rest;
  }

  lemma {:induction false} InsertBySeqStable(e: Event, es: seq<Event>, n: nat)
    ensures WithSeq(InsertBySeq(e, es), n) == (if e.seqNo == n then [e] else []) + WithSeq(es, n)
  {
    hide WithSeq;
    if es == [] || e.seqNo <= es[0].seqNo {
      WithSeqOfFirst(e, es, n);
    } else {
      InsertBySeqStable(e, es[1..], n);
      WithSeqOfFirst(es[0], InsertBySeq(e, es[1..]), n);
      WithSeqOfFirst(es[0], es[1..], n);
      assert es == [es[0]] + es[1..];
    }
  }

  /** Sorting by number keeps all events, and the order of those numbered the same. */
  lemma {:induction false} SortBySeqSorts(es: seq<Event>)
    ensures NonDecreasing(SortBySeq(es)) && multiset(SortBySeq(es)) == multiset(es)
    ensures forall n: nat :: WithSeq(SortBySeq(es), n) == WithSeq(es, n)
  {
    if es != [] {
      SortBySeqSorts(es[1..]);
      InsertBySeqSorts(es[0], SortBySeq(es[1..]));
      InsertBySeqCount(es[0], SortBySeq(es[1..]));
      assert es == [es[0]] + es[1..];
      forall n: nat ensures WithSeq(SortBySeq(es), n) == WithSeq(es, n) {
        InsertBySeqStable(es[0], SortBySeq(es[1..]), n);
      }
    }
  }

  /** The events numbered after `n`. */
  function Later(es: seq<Event>, n: nat): seq<Event> {
    if es == [] then [] else (if es[0].seqNo > n then [es[0]] else []) + Later(es[1..], n)
  }

  lemma {:induction false} LaterSplit(given: seq<Event>, rest: seq<Event>, n: nat)
    requires forall i | 0 <= i < |given| :: given[i].seqNo <= n
    requires forall i | 0 <= i < |rest| :: rest[i].seqNo > n
    ensures Later(given + rest, n) == rest
    decreases |given| + |rest|
  {
    if given != [] {
      assert (given + rest)[1..] == given[1..] + rest;
      LaterSplit(given[1..], rest, n);
    } else if rest != [] {
      assert given + rest == rest;
      LaterSplit([], rest[1..], n);
      assert [] + rest[1..] == rest[1..];
    }
  }

  // ----- what a chat has been given -----

  /** A chat's events since the last import or delete: imported, appended, and how many went out. */
  datatype Ledger = Ledger(imported: seq<Event>, appended: seq<Event>, handed: nat)

  /** What was appended and not handed out yet. */
  function Unhanded(ledger: Ledger): seq<Event> {
    if ledger.handed <= |ledger.appended| then ledger.appended[ledger.handed..] else []
  }

  const NEW_LEDGER: Ledger := Ledger([], [], 0)

  ghost predicate Balanced(log: seq<Event>, delivered: nat, ledger: Ledger) {
    && log == ledger.imported + ledger.appended
    && ledger.handed <= |ledger.appended|
    && NonDecreasing(log)
    && delivered < NextSeq(log)
    && (forall i | 0 <= i < |ledger.imported| + ledger.handed :: log[i].seqNo <= delivered)
    && (forall i | |ledger.imported| + ledger.handed <= i < |log| :: log[i].seqNo > delivered)
  }

  /** An appended event is numbered after all others, so it is not among those already given. */
  lemma AppendBalanced(log: seq<Event>, delivered: nat, ledger: Ledger, e: Event)
    requires Balanced(log, delivered, ledger) && e.seqNo == NextSeq(log)
    ensures Balanced(log + [e], delivered, ledger.(appended := ledger.appended + [e]))
    ensures NextSeq(log + [e]) == e.seqNo + 1
  {
    hide NonDecreasing, NextSeq;
    PushedLast(log, e);
    NextAfter(log, e);
    var given, next := |ledger.imported| + ledger.handed, log + [e];
    assert next == ledger.imported + (ledger.appended + [e]);
    forall i | 0 <= i < |next| ensures i < given <==> next[i].seqNo <= delivered {
      if i < |log| { assert next[i] == log[i]; }
    }
  }

  lemma PushedLast(log: seq<Event>, e: Event)
    requires NonDecreasing(log) && e.seqNo == NextSeq(log)
    ensures NonDecreasing(log + [e]) && forall i | 0 <= i < |log| :: (log + [e])[i] == log[i]
    ensures NextSeq(log) <= NextSeq(log + [e])
  {
    forall i | 0 <= i < |log| ensures log[i].seqNo <= log[|log| - 1].seqNo {}
  }

  lemma NextAfter(log: seq<Event>, e: Event)
    ensures NextSeq(log + [e]) == e.seqNo + 1
  {
  }

  /** So are all the events of an append. */
  lemma {:induction false} AllAppendedBalanced(log: seq<Event>, delivered: nat, ledger: Ledger, es: seq<Event>)
    requires Balanced(log, delivered, ledger)
    requires forall i | 0 <= i < |es| :: es[i].seqNo == NextSeq(log) + i
    ensures Balanced(log + es, delivered, ledger.(appended := ledger.appended + es))
    decreases |es|
  {
    hide Balanced;
    if es == [] {
      assert log + [] == log && ledger.appended + [] == ledger.appended;
    } else {
      var after := ledger.(appended := ledger.appended + [es[0]]);
      AppendBalanced(log, delivered, ledger, es[0]);
      AllAppendedBalanced(log + [es[0]], delivered, after, es[1..]);
      assert log + [es[0]] + es[1..] == log + es;
      assert ledger.appended + [es[0]] + es[1..] == ledger.appended + es;
    }
  }

  /** What is numbered after the last delivery is exactly what was appended and not yet handed out. */
  lemma LaterIsUnhanded(log: seq<Event>, delivered: nat, ledger: Ledger)
    requires Balanced(log, delivered, ledger)
    ensures Later(log, delivered) == Unhanded(ledger)
  {
    var n := |ledger.imported| + ledger.handed;
    assert log == log[..n] + log[n..] && log[n..] == ledger.appended[ledger.handed..];
    LaterSplit(log[..n], log[n..], delivered);
  }

  lemma HandedBalanced(log: seq<Event>, delivered: nat, ledger: Ledger)
    requires Balanced(log, delivered, ledger) && ledger.handed < |ledger.appended|
    ensures Balanced(log, log[|log| - 1].seqNo, ledger.(handed := |ledger.appended|))
  {
    assert forall i | 0 <= i < |log| :: log[i].seqNo <= log[|log| - 1].seqNo;
  }

  function Renamed(es: seq<Event>, chat: string): (r: seq<Event>)
    ensures |r| == |es| && forall i | 0 <= i < |es| :: r[i] == es[i].(chat := chat)
  {
    seq(|es|, i requires 0 <= i < |es| => es[i].(chat := chat))
  }

  function LastSeq(es: seq<Event>): nat { if es == [] then 0 else es[|es| - 1].seqNo }

  lemma ImportBalanced(es: seq<Event>, chat: string)
    ensures var log := Renamed(SortBySeq(es), chat); Balanced(log, LastSeq(log), Ledger(log, [], 0))
  {
    SortBySeqSorts(es);
    hide SortBySeq, Renamed;
  }

  function LogAt(chats: map<string, seq<Event>>, chat: string): seq<Event> { if chat in chats then chats[chat] else [] }

  function DeliveredAt(delivered: map<string, nat>, chat: string): nat {
    if chat in delivered then delivered[chat] else 0
  }

  function LedgerAt(ledgers: map<string, Ledger>, chat: string): Ledger {
    if chat in ledgers then ledgers[chat] else NEW_LEDGER
  }

  ghost predicate AllBalanced(chats: map<string, seq<Event>>, delivered: map<string, nat>,
      ledgers: map<string, Ledger>) {
    forall c: string :: BalancedAt(chats, delivered, ledgers, c)
  }

  ghost predicate BalancedAt(chats: map<string, seq<Event>>, delivered: map<string, nat>, ledgers: map<string, Ledger>,
      c: string) {
    Balanced(LogAt(chats, c), DeliveredAt(delivered, c), LedgerAt(ledgers, c))
  }

  /** A chat that was not touched keeps its balance. */
  lemma OneChanged(chats: map<string, seq<Event>>, delivered: map<string, nat>, ledgers: map<string, Ledger>,
                   chats': map<string, seq<Event>>, delivered': map<string, nat>, ledgers': map<string, Ledger>,
                   chat: string)
    requires AllBalanced(chats, delivered, ledgers)
    requires forall c | c != chat :: LogAt(chats', c) == LogAt(chats, c)
    requires forall c | c != chat :: DeliveredAt(delivered', c) == DeliveredAt(delivered, c)
    requires forall c | c != chat :: LedgerAt(ledgers', c) == LedgerAt(ledgers, c)
    requires BalancedAt(chats', delivered', ledgers', chat)
    ensures AllBalanced(chats', delivered', ledgers')
  {
    forall c: string ensures BalancedAt(chats', delivered', ledgers', c) {
      assert BalancedAt(chats, delivered, ledgers, c);
    }
  }

  /** A chat's events as one JSON value. */
  function LogJson(es: seq<Event>): Value { Arr(seq(|es|, i requires 0 <= i < |es| => EventJson(es[i]))) }

  /** Its text is one byte longer than the lines the disk store writes for the same events. */
  lemma {:induction false} LogJsonBytes(es: seq<Event>)
    ensures |Print(LogJson(es))| == if es == [] then 2 else |Buffer(es)| + 1
  {
    if es != [] {
      assert LogJson(es).items[0] == EventJson(es[0]) && LogJson(es).items[1..] == LogJson(es[1..]).items;
      LogJsonBytes(es[1..]);
      hide EventJson;
      assert |Buffer(es)| == |Print(EventJson(es[0]))| + 1 + |Buffer(es[1..])|;
    }
  }

  /** Handing out what is numbered after the mark, and moving the mark to the last of it, keeps every balance. */
  lemma HandOver(chats: map<string, seq<Event>>, delivered: map<string, nat>, ledgers: map<string, Ledger>,
      chat: string)
    requires AllBalanced(chats, delivered, ledgers)
    ensures var events, ledger := Later(LogAt(chats, chat), DeliveredAt(delivered, chat)), LedgerAt(ledgers, chat);
      && events == Unhanded(ledger)
      && (events == [] ==> ledger.handed == |ledger.appended|)
      && (events != [] ==>
           AllBalanced(chats, delivered[chat := events[|events| - 1].seqNo],
                       ledgers[chat := ledger.(handed := |ledger.appended|)]))
  {
    var log, after, ledger := LogAt(chats, chat), DeliveredAt(delivered, chat), LedgerAt(ledgers, chat);
    assert BalancedAt(chats, delivered, ledgers, chat);
    LaterIsUnhanded(log, after, ledger);
    assert ledger.handed <= |ledger.appended| && log == ledger.imported + ledger.appended;
    hide Balanced, NextSeq;
    var events := Later(log, after);
    if events != [] {
      HandedBalanced(log, after, ledger);
      assert events[|events| - 1] == log[|log| - 1];
      OneChanged(chats, delivered, ledgers, chats, delivered[chat := events[|events| - 1].seqNo],
                 ledgers[chat := ledger.(handed := |ledger.appended|)], chat);
    }
  }

  class MemStore {
    var chats: map<string, seq<Event>>
    var delivered: map<string, nat>
    /** The texts of large fields, by their references. */
    var blobs: Blobs
    ghost var ledgers: map<string, Ledger>

    function Log(chat: string): seq<Event>
      reads this
    {
      LogAt(chats, chat)
    }

    ghost function LedgerOf(chat: string): Ledger
      reads this
    {
      LedgerAt(ledgers, chat)
    }

    ghost predicate Valid()
      reads this
    {
      AllBalanced(chats, delivered, ledgers) && TrueBlobs(blobs)
    }

    ghost predicate OthersSame(chat: string, chats0: map<string, seq<Event>>, delivered0: map<string, nat>)
      reads this
    {
      && (forall c | c != chat :: LogAt(chats, c) == LogAt(chats0, c))
      && (forall c | c != chat :: DeliveredAt(delivered, c) == DeliveredAt(delivered0, c))
    }

    constructor ()
      ensures Valid() && chats == map[] && delivered == map[] && blobs == map[]
    {
      chats, delivered, ledgers, blobs := map[], map[], map[], map[];
    }

    /** Replaces a chat's events; the app has all of them. */
    method Load(chat: string, events: seq<Event>)
      requires Valid()
      modifies this`chats, this`delivered, this`ledgers
      ensures Valid() && OthersSame(chat, old(chats), old(delivered))
      ensures Log(chat) == Renamed(SortBySeq(events), chat)
      ensures LedgerOf(chat) == Ledger(Log(chat), [], 0)
    {
      var log := Renamed(SortBySeq(events), chat);
      ImportBalanced(events, chat);
      chats := chats[chat := log];
      delivered := delivered[chat := LastSeq(log)];
      ledgers := ledgers[chat := Ledger(log, [], 0)];
      OneChanged(old(chats), old(delivered), old(ledgers), chats, delivered, ledgers, chat);
    }

    /** Events the app was not given yet, oldest first; they count as given. */
    method Undelivered(chat: string) returns (events: seq<Event>)
      requires Valid()
      modifies this`delivered, this`ledgers
      ensures Valid() && chats == old(chats) && OthersSame(chat, old(chats), old(delivered))
      ensures old(LedgerOf(chat)).handed <= |old(LedgerOf(chat)).appended|
      ensures events == old(LedgerOf(chat)).appended[old(LedgerOf(chat)).handed..]
      ensures LedgerOf(chat) == old(LedgerOf(chat)).(handed := |old(LedgerOf(chat)).appended|)
    {
      var after := DeliveredAt(delivered, chat);
      HandOver(chats, delivered, ledgers, chat);
      hide *;
      events := Later(Log(chat), after);
      if events != [] {
        delivered := delivered[chat := events[|events| - 1].seqNo];
        ledgers := ledgers[chat := LedgerOf(chat).(handed := |LedgerOf(chat).appended|)];
      }
    }

    /** What a reference in an event stands for. */
    method GetBlob(ref: string) returns (text: Option<string>)
      requires Valid()
      ensures text == if ref in blobs then Some(blobs[ref]) else None
      ensures text.Some? ==> ref == BlobRef(text.value)
    {
      text := if ref in blobs then Some(blobs[ref]) else None;
    }

    /** Appends as the store on disk does: same numbers, same stamps. */
    method Append(chat: string, news: seq<NewEvent>, ids: seq<string>, now: string) returns (written: seq<Event>)
      requires Valid() && |ids| == |news|
      modifies this
      ensures Valid() && OthersSame(chat, old(chats), old(delivered)) && delivered == old(delivered)
      ensures var es := old(Log(chat));
        AllMadeOf(written, news, chat, if es == [] then 1 else es[|es| - 1].seqNo + 1, ids, now)
      ensures TextsKept(old(blobs), news, blobs)
      ensures written == StampAll(news, chat, NextSeq(old(Log(chat))), ids, now)
      ensures Log(chat) == old(Log(chat)) + written
      ensures LedgerOf(chat) == old(LedgerOf(chat)).(appended := old(LedgerOf(chat)).appended + written)
      ensures blobs == AllBlobs(old(blobs), news)
    {
      StampAllMeans(news, chat, NextSeq(Log(chat)), ids, now);
      TextsAreKept(blobs, news);
      AllBlobsKeep(blobs, news);
      assert NextSeq(Log(chat)) == if Log(chat) == [] then 1 else Log(chat)[|Log(chat)| - 1].seqNo + 1;
      hide Balanced, StampAll, NextSeq, AllBlobs, TrueBlobs, AllMadeOf, TextsKept;
      assert BalancedAt(chats, delivered, ledgers, chat);
      var log := Log(chat);
      log, written, blobs := Extend(chat, log, blobs, news, ids, now);
      AllAppendedBalanced(Log(chat), DeliveredAt(delivered, chat), LedgerOf(chat), written);
      ledgers := ledgers[chat := LedgerOf(chat).(appended := LedgerOf(chat).appended + written)];
      chats := chats[chat := log];
      OneChanged(old(chats), old(delivered), old(ledgers), chats, delivered, ledgers, chat);
    }

    static method Extend(chat: string, before: seq<Event>, blobs0: Blobs, news: seq<NewEvent>, ids: seq<string>,
        now: string)
      returns (log: seq<Event>, written: seq<Event>, blobs: Blobs)
      requires |ids| == |news|
      ensures written == StampAll(news, chat, NextSeq(before), ids, now)
      ensures log == before + written && blobs == AllBlobs(blobs0, news)
    {
      log, written, blobs := before, [], blobs0;
      hide *;
      ghost var first := NextSeq(before);
      BlobsOneMore(blobs0, news, 0);
      for i := 0 to |news|
        invariant |log| == |before| + i && |written| == i
        invariant forall j | 0 <= j < |before| :: log[j] == before[j]
        invariant forall j | 0 <= j < i ::
          log[|before| + j] == written[j] == Stamped(news[j], chat, first + j, ids[j], now)
        invariant NextSeq(log) == first + i && blobs == BlobsUpTo(blobs0, news, i)
      {
        var event;
        event, blobs := Stamp(news[i], chat, NextSeq(log), ids[i], now, blobs);
        NextAfter(log, event);
        log, written := log + [event], written + [event];
        BlobsOneMore(blobs0, news, i);
      }
      BlobsOneMore(blobs0, news, |news|);
    }

    method Read(chat: string) returns (log: ReadLog)
      ensures log == ReadLog(Log(chat), 0)
    {
      log := ReadLog(if chat in chats then chats[chat] else [], 0);
    }

    method DeleteChat(chat: string) returns (report: DeleteReport)
      requires Valid()
      modifies this`chats, this`delivered, this`ledgers
      ensures Valid() && OthersSame(chat, old(chats), old(delivered))
      ensures report.files == (if chat in old(chats) then 1 else 0)
      ensures report.bytes ==
              if chat !in old(chats) then 0 else if old(Log(chat)) == [] then 2 else |Buffer(old(Log(chat)))| + 1
      ensures Log(chat) == [] && LedgerOf(chat) == NEW_LEDGER
    {
      LogJsonBytes(Log(chat));
      report := if chat in chats then DeleteReport(1, |Print(LogJson(chats[chat]))|) else DeleteReport(0, 0);
      delivered := delivered - {chat};
      chats := chats - {chat};
      ledgers := ledgers - {chat};
      OneChanged(old(chats), old(delivered), old(ledgers), chats, delivered, ledgers, chat);
    }
  }
}
