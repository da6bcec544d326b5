/**
 "Allow this tool for this chat" (agents/src/lifecycle/grants.rs), with the log of grants and revokes it
 is read back from (api/src/handlers/chat/authorize.rs). Times are in seconds, by either clock.
 */
module Grants {
  import opened Wrappers
  import opened Sorting
  import Text

  type Key = (string, string)

  type Until = map<Key, int>

  datatype Record = Record(tool: Option<string>, minutes: nat, at: int, revoked: bool)

  const MAX_GRANT_MINUTES: nat := 24 * 60
  const DEFAULT_GRANT_MINUTES: nat := 60

  function Clamp(minutes: nat): nat {
    if minutes < 1 then 1 else if minutes > MAX_GRANT_MINUTES then MAX_GRANT_MINUTES else minutes
  }

  function MinutesOf(minutes: Option<nat>): nat {
    Clamp(if minutes.Some? then minutes.value else DEFAULT_GRANT_MINUTES)
  }

  function EndsAt(record: Record): int { record.at + Clamp(record.minutes) * 60 }

  predicate Allows(until: Until, chat: string, tool: string, now: int) {
    (chat, tool) in until && until[(chat, tool)] > now
  }

  function Without(until: Until, chat: string, tool: Option<string>): Until {
    map k | k in until && (k.0 != chat || (tool.Some? && k.1 != tool.value)) :: until[k]
  }

  // ----- reading a log back -----

  function ReplayOne(until: Until, chat: string, record: Record, now: int, wall: int): Until {
    if record.revoked then Without(until, chat, record.tool)
    else if record.tool.None? then until
    else if EndsAt(record) > wall then until[(chat, record.tool.value) := now + (EndsAt(record) - wall)]
    else until - {(chat, record.tool.value)}
  }

  function Replayed(until: Until, chat: string, records: seq<Record>, now: int, wall: int): Until {
    if records == [] then until
    else ReplayOne(Replayed(until, chat, records[..|records| - 1], now, wall), chat, records[|records| - 1], now, wall)
  }

  /** Whether the record says something of the tool. */
  predicate Concerns(record: Record, tool: string) {
    record.tool == Some(tool) || (record.revoked && record.tool.None?)
  }

  /** The last record that says something of the tool. */
  function LastWord(records: seq<Record>, tool: string): Option<Record> {
    if records == [] then None
    else if Concerns(records[|records| - 1], tool) then Some(records[|records| - 1])
    else LastWord(records[..|records| - 1], tool)
  }

  /** What the log alone says of the tool: its last word is a grant that has not run out. */
  predicate LogAllows(records: seq<Record>, tool: string, wall: int) {
    var last := LastWord(records, tool);
    last.Some? && !last.value.revoked && EndsAt(last.value) > wall
  }

  /** Reading back gives each tool what the last word of the log leaves it, and touches no other chat. */
  lemma {:induction false} ReplayIs(until: Until, chat: string, records: seq<Record>, now: int, wall: int, k: Key)
    ensures var after, last := Replayed(until, chat, records, now, wall), LastWord(records, k.1);
      if k.0 != chat || last.None? then k in after <==> k in until
      else k in after <==> LogAllows(records, k.1, wall)
    ensures var after, last := Replayed(until, chat, records, now, wall), LastWord(records, k.1);
      k in after ==> after[k] == if k.0 != chat || last.None? then until[k] else now + (EndsAt(last.value) - wall)
  {
    if records != [] { ReplayIs(until, chat, records[..|records| - 1], now, wall, k); }
  }

  // ----- runs of the engine -----

  /** The grants held, the chats read back, the wall clock less the other one, and the chats' logs. */
  datatype System = System(until: Until, replayed: set<string>, offset: int, logs: map<string, seq<Record>>) {
    function Log(chat: string): seq<Record> { if chat in logs then logs[chat] else [] }

    function Logged(chat: string, record: Record): System {
      this.(logs := logs[chat := Log(chat) + [record]])
    }

    /** Whoever asks about a chat finds its grants read back. */
    function ReadBack(chat: string, wall: int): System {
      if chat in replayed then this
      else this.(until := Replayed(until, chat, Log(chat), wall - offset, wall), replayed := replayed + {chat})
    }
  }

  datatype Op =
    | Grant(chat: string, tool: string, minutes: Option<nat>)
    | Ask(chat: string, tool: string)
    | Show(chat: string)
    | Revoke(chat: string, toolOf: Option<string>)
    | Delete(chat: string)
    | Restart(newOffset: int)

  function GrantedIn(until: Until, chat: string, tool: string, minutes: Option<nat>, now: int): Until {
    until[(chat, tool) := now + MinutesOf(minutes) * 60]
  }

  /** An entry found to have run out is removed. */
  function Asked(until: Until, chat: string, tool: string, now: int): Until {
    if Allows(until, chat, tool, now) then until else until - {(chat, tool)}
  }

  /** Whether a revoke finds a grant to remove; only then it is logged. */
  predicate Removes(s: System, chat: string, tool: Option<string>, wall: int) {
    var until := s.ReadBack(chat, wall).until;
    |Without(until, chat, tool)| < |until|
  }

  function Step(s: System, op: Op, wall: int): System {
    match op
    case Grant(chat, tool, minutes) =>
      s.(until := GrantedIn(s.until, chat, tool, minutes, wall - s.offset), replayed := s.replayed + {chat})
       .Logged(chat, Record(Some(tool), MinutesOf(minutes), wall, false))
    case Ask(chat, tool) =>
      var read := s.ReadBack(chat, wall);
      read.(until := Asked(read.until, chat, tool, wall - s.offset))
    case Show(chat) => s.ReadBack(chat, wall)
    case Revoke(chat, tool) =>
      var read := s.ReadBack(chat, wall);
      var after := read.(until := Without(read.until, chat, tool));
      if Removes(s, chat, tool, wall) then after.Logged(chat, Record(tool, 0, wall, true)) else after
    case Delete(chat) => s.(until := Without(s.until, chat, None), logs := s.logs - {chat})
    case Restart(offset) => System(map[], {}, offset, s.logs)
  }

  /** What is held is what the log's last words leave, by the time `wall`. */
  ghost predicate Agrees(s: System, wall: int) {
    forall k: Key :: AgreesOn(s, k, wall)
  }

  ghost predicate AgreesOn(s: System, k: Key, wall: int) {
    var last := LastWord(s.Log(k.0), k.1);
    if k.0 !in s.replayed then k !in s.until
    else if k in s.until then last.Some? && !last.value.revoked && EndsAt(last.value) == s.until[k] + s.offset
    else !LogAllows(s.Log(k.0), k.1, wall)
  }

  lemma LastWordAfter(records: seq<Record>, record: Record, tool: string)
    ensures LastWord(records + [record], tool) ==
            if Concerns(record, tool) then Some(record) else LastWord(records, tool)
  {
    assert (records + [record])[..|records|] == records;
  }

  lemma FewerKeys(until: Until, chat: string, tool: Option<string>)
    ensures |Without(until, chat, tool)| < |until| <==> Without(until, chat, tool) != until
  {
    var after := Without(until, chat, tool);
    assert after.Keys <= until.Keys;
    assert |after.Keys| == |after| && |until.Keys| == |until|;
    if after.Keys == until.Keys { assert after == until; } else { FewerMembers(after.Keys, until.Keys); }
  }

  lemma FewerMembers(a: set<Key>, b: set<Key>)
    requires a < b
    ensures |a| < |b|
  {
    assert |b - a| > 0;
    assert b == a + (b - a);
  }

  // ----- grants that are lost -----

  /** A grant to a chat that was not read back marks it as read: what else its log allows is not held. */
  predicate Loses(s: System, op: Op, k: Key, wall: int) {
    && op.Grant? && k.0 == op.chat && k.1 != op.tool && op.chat !in s.replayed
    && LogAllows(s.Log(op.chat), k.1, wall)
  }

  /** A new grant, a logged revoke, a delete or a restart brings what is held and the log together again. */
  predicate Mends(s: System, op: Op, k: Key, wall: int) {
    match op
    case Grant(chat, tool, _) => k == (chat, tool)
    case Ask(_, _) => false
    case Show(_) => false
    case Revoke(chat, tool) => k.0 == chat && (tool.None? || tool.value == k.1) && Removes(s, chat, tool, wall)
    case Delete(chat) => k.0 == chat
    case Restart(_) => true
  }

  predicate LostAfter(s: System, op: Op, k: Key, wall: int, lost: bool) {
    (lost || Loses(s, op, k, wall)) && !Mends(s, op, k, wall)
  }

  /** A lost tool is not held, whatever its log says; of any other, what is held is what the log says. */
  ghost predicate Describes(s: System, k: Key, wall: int, lost: bool) {
    if lost then k.0 in s.replayed && k !in s.until else AgreesOn(s, k, wall)
  }

  lemma ReadBackDescribes(s: System, chat: string, k: Key, before: int, wall: int, lost: bool)
    requires Describes(s, k, before, lost) && before <= wall
    ensures Describes(s.ReadBack(chat, wall), k, wall, lost)
    ensures s.ReadBack(chat, wall).logs == s.logs && chat in s.ReadBack(chat, wall).replayed
  {
    if chat !in s.replayed { ReplayIs(s.until, chat, s.Log(chat), wall - s.offset, wall, k); }
  }

  lemma StepDescribes(s: System, op: Op, k: Key, before: int, wall: int, lost: bool)
    requires Describes(s, k, before, lost) && before <= wall
    ensures Describes(Step(s, op, wall), k, wall, LostAfter(s, op, k, wall, lost))
  {
    match op
    case Grant(_, _, _) => GrantDescribes(s, op, k, before, wall, lost);
    case Ask(chat, _) => ReadBackDescribes(s, chat, k, before, wall, lost);
    case Show(chat) => ReadBackDescribes(s, chat, k, before, wall, lost);
    case Revoke(chat, tool) => RevokeDescribes(s, chat, tool, k, before, wall, lost);
    case Delete(_) =>
    case Restart(_) =>
  }

  lemma GrantDescribes(s: System, op: Op, k: Key, before: int, wall: int, lost: bool)
    requires Describes(s, k, before, lost) && before <= wall && op.Grant?
    ensures Describes(Step(s, op, wall), k, wall, LostAfter(s, op, k, wall, lost))
  {
    if k == (op.chat, op.tool) {
      GrantHere(s, op.chat, op.tool, op.minutes, wall);
    } else if !LostAfter(s, op, k, wall, lost) {
      hide Step, AgreesOn, LogAllows;
      if k.0 != op.chat {
        GrantElsewhere(s, op.chat, op.tool, op.minutes, before, wall, k);
      } else {
        GrantBeside(s, op.chat, op.tool, op.minutes, before, wall, k.1);
      }
    }
  }

  lemma GrantElsewhere(s: System, chat: string, tool: string, minutes: Option<nat>, before: int, wall: int, k: Key)
    requires AgreesOn(s, k, before) && before <= wall && k.0 != chat
    ensures AgreesOn(Step(s, Grant(chat, tool, minutes), wall), k, wall)
  {
  }

  lemma GrantHere(s: System, chat: string, tool: string, minutes: Option<nat>, wall: int)
    ensures AgreesOn(Step(s, Grant(chat, tool, minutes), wall), (chat, tool), wall)
  {
    hide LastWord;
    LastWordAfter(s.Log(chat), Record(Some(tool), MinutesOf(minutes), wall, false), tool);
  }

  lemma GrantBeside(s: System, chat: string, tool: string, minutes: Option<nat>, before: int, wall: int, other: string)
    requires AgreesOn(s, (chat, other), before) && before <= wall && other != tool
    requires chat in s.replayed || !LogAllows(s.Log(chat), other, wall)
    ensures AgreesOn(Step(s, Grant(chat, tool, minutes), wall), (chat, other), wall)
  {
    hide LastWord;
    LastWordAfter(s.Log(chat), Record(Some(tool), MinutesOf(minutes), wall, false), other);
  }

  lemma RevokeDescribes(s: System, chat: string, tool: Option<string>, k: Key, before: int, wall: int, lost: bool)
    requires Describes(s, k, before, lost) && before <= wall
    ensures Describes(Step(s, Revoke(chat, tool), wall), k, wall, LostAfter(s, Revoke(chat, tool), k, wall, lost))
  {
    var read := s.ReadBack(chat, wall);
    ReadBackDescribes(s, chat, k, before, wall, lost);
    FewerKeys(read.until, chat, tool);
    LastWordAfter(read.Log(chat), Record(tool, 0, wall, true), k.1);
  }

  // ----- runs -----

  datatype Event = Event(op: Op, at: int)

  function Run(s: System, events: seq<Event>): System {
    if events == [] then s else
      Step(Run(s, events[..|events| - 1]), events[|events| - 1].op, events[|events| - 1].at)
  }

  function Latest(events: seq<Event>, from: int): int { if events == [] then from else events[|events| - 1].at }

  /** The times never go back from `from` on. */
  ghost predicate InOrder(events: seq<Event>, from: int) {
    events != [] ==>
      InOrder(events[..|events| - 1], from) && Latest(events[..|events| - 1], from) <= events[|events| - 1].at
  }

  /** The tool's grant was lost in the run, and nothing has brought what is held and the log together since. */
  predicate Lost(s: System, events: seq<Event>, k: Key) {
    if events == [] then false else
      var front, last := events[..|events| - 1], events[|events| - 1];
      LostAfter(Run(s, front), last.op, k, last.at, Lost(s, front, k))
  }

  /** An engine that has just started, over the logs there are. */
  function Started(logs: map<string, seq<Record>>, offset: int): System { System(map[], {}, offset, logs) }

  lemma {:induction false} RunDescribes(s: System, events: seq<Event>, from: int, k: Key)
    requires AgreesOn(s, k, from) && InOrder(events, from)
    ensures Describes(Run(s, events), k, Latest(events, from), Lost(s, events, k))
  {
    if events != [] {
      var front, last := events[..|events| - 1], events[|events| - 1];
      RunDescribes(s, front, from, k);
      StepDescribes(Run(s, front), last.op, k, Latest(front, from), last.at, Lost(s, front, k));
    }
  }

  /**
   After any run, read back if need be at `read` and asked at `wall`, a tool is allowed if and only if its
   chat's log allows it and its grant was not lost.
   */
  lemma AskTellsLog(logs: map<string, seq<Record>>, offset: int, events: seq<Event>, from: int,
      chat: string, tool: string, read: int, wall: int)
    requires InOrder(events, from) && Latest(events, from) <= read <= wall
    ensures var s := Run(Started(logs, offset), events);
      Allows(s.ReadBack(chat, read).until, chat, tool, wall - s.offset) <==>
        LogAllows(s.Log(chat), tool, wall) && !Lost(Started(logs, offset), events, (chat, tool))
  {
    var start, k := Started(logs, offset), (chat, tool);
    RunDescribes(start, events, from, k);
    ReadBackDescribes(Run(start, events), chat, k, Latest(events, from), read, Lost(start, events, k));
  }

  /** A log read back into an empty store, by any clock, allows what the log says. */
  lemma ReopenedTellsLog(records: seq<Record>, chat: string, tool: string, offset: int, read: int, wall: int)
    requires read <= wall
    ensures Allows(Replayed(map[], chat, records, read - offset, read), chat, tool, wall - offset) <==>
      LogAllows(records, tool, wall)
  {
    ReplayIs(map[], chat, records, read - offset, read, (chat, tool));
  }

  /**
   A restart at any time, whatever the new clock, changes the answer about a tool at a later time if and
   only if the log allows it then and its grant was lost: the restart brings it back.
   */
  lemma RestartChangesLost(logs: map<string, seq<Record>>, offset: int, events: seq<Event>, from: int,
      newOffset: int, chat: string, tool: string, read: int, wall: int)
    requires InOrder(events, from) && Latest(events, from) <= read <= wall
    ensures var s := Run(Started(logs, offset), events);
      var reopened := Step(s, Restart(newOffset), read);
      (Allows(reopened.ReadBack(chat, read).until, chat, tool, wall - newOffset) <==>
        Allows(s.ReadBack(chat, read).until, chat, tool, wall - s.offset)) <==>
          !(LogAllows(s.Log(chat), tool, wall) && Lost(Started(logs, offset), events, (chat, tool)))
  {
    hide Run, Lost, Replayed, LogAllows, InOrder, Allows;
    AskTellsLog(logs, offset, events, from, chat, tool, read, wall);
    ReopenedTellsLog(Run(Started(logs, offset), events).Log(chat), chat, tool, newOffset, read, wall);
  }

  // ----- runs in which nothing is lost -----

  /** The chats that were asked about, shown or revoked from since the last restart. */
  function AskedAbout(events: seq<Event>): set<string> {
    if events == [] then {} else
      var front, op := AskedAbout(events[..|events| - 1]), events[|events| - 1].op;
      match op
      case Restart(_) => {}
      case Ask(chat, _) => front + {chat}
      case Show(chat) => front + {chat}
      case Revoke(chat, _) => front + {chat}
      case _ => front
  }

  /** Every grant comes to a chat that was asked about since the last restart. */
  predicate AskedFirst(events: seq<Event>) {
    forall i | 0 <= i < |events| && events[i].op.Grant? :: events[i].op.chat in AskedAbout(events[..i])
  }

  predicate NoRestart(events: seq<Event>) { forall i | 0 <= i < |events| :: !events[i].op.Restart? }

  lemma {:induction false} AskedAreReplayed(s: System, events: seq<Event>)
    ensures AskedAbout(events) <= Run(s, events).replayed
  {
    if events != [] { AskedAreReplayed(s, events[..|events| - 1]); }
  }

  lemma {:induction false} UnreadLogsEmpty(s: System, events: seq<Event>, chat: string)
    requires s.logs == map[] && NoRestart(events) && chat !in Run(s, events).replayed
    ensures Run(s, events).Log(chat) == []
  {
    if events != [] {
      assert NoRestart(events[..|events| - 1]);
      UnreadLogsEmpty(s, events[..|events| - 1], chat);
    }
  }

  /** Nothing is lost when each chat is asked about before it gets a grant, or when no log is older than the run. */
  lemma {:induction false} NothingLost(s: System, events: seq<Event>, k: Key)
    requires AskedFirst(events) || (s.logs == map[] && NoRestart(events))
    ensures !Lost(s, events, k)
  {
    if events != [] {
      var front, last := events[..|events| - 1], events[|events| - 1];
      if AskedFirst(events) {
        forall i | 0 <= i < |front| && front[i].op.Grant? ensures front[i].op.chat in AskedAbout(front[..i]) {
          assert events[i].op.chat in AskedAbout(events[..i]) && events[..i] == front[..i];
        }
      }
      NothingLost(s, front, k);
      AskedAreReplayed(s, front);
      if last.op.Grant? && !AskedFirst(events) && last.op.chat !in Run(s, front).replayed {
        UnreadLogsEmpty(s, front, last.op.chat);
      }
    }
  }

  // ----- a grant that comes first -----

  /**
   A grant marks the chat as read back without reading it: when it comes first, the chat agrees with its
   log from then on if and only if the log had no other grant running.
   */
  lemma GrantFirst(s: System, chat: string, tool: string, minutes: Option<nat>, wall: int)
    requires Agrees(s, wall) && chat !in s.replayed
    ensures Agrees(Step(s, Grant(chat, tool, minutes), wall), wall) <==>
      forall other | other != tool :: !LogAllows(s.Log(chat), other, wall)
  {
    var op := Grant(chat, tool, minutes);
    var after := Step(s, op, wall);
    forall k: Key ensures AgreesOn(after, k, wall) <==> !Loses(s, op, k, wall) {
      assert AgreesOn(s, k, wall);
      StepDescribes(s, op, k, wall, wall, false);
      LastWordAfter(s.Log(chat), Record(Some(tool), MinutesOf(minutes), wall, false), k.1);
    }
    forall other | other != tool ensures Loses(s, op, (chat, other), wall) <==> LogAllows(s.Log(chat), other, wall) {}
  }

  lemma OneMore(s: System, events: seq<Event>, e: Event, from: int, k: Key)
    ensures Run(s, events + [e]) == Step(Run(s, events), e.op, e.at)
    ensures Lost(s, events + [e], k) == LostAfter(Run(s, events), e.op, k, e.at, Lost(s, events, k))
    ensures InOrder(events, from) && Latest(events, from) <= e.at ==> InOrder(events + [e], from)
  {
    assert (events + [e])[..|events|] == events;
  }

  /** Granted, restarted, and another tool granted first: the log allows the first tool, and the answer is no. */
  lemma GrantFirstLoses(chat: string, a: string, b: string, minutes: Option<nat>, at: int, offset: int, newOffset: int)
    requires a != b
    ensures var events := [
        Event(Grant(chat, a, minutes), at), Event(Restart(newOffset), at), Event(Grant(chat, b, minutes), at) ];
      var s := Run(Started(map[], offset), events);
      && Lost(Started(map[], offset), events, (chat, a))
      && LogAllows(s.Log(chat), a, at)
      && !Allows(s.ReadBack(chat, at).until, chat, a, at - s.offset)
  {
    var start, k := Started(map[], offset), (chat, a);
    var first, restart, other :=
      Event(Grant(chat, a, minutes), at), Event(Restart(newOffset), at), Event(Grant(chat, b, minutes), at);
    OneMore(start, [], first, at, k);
    OneMore(start, [first], restart, at, k);
    OneMore(start, [first, restart], other, at, k);
    assert [] + [first] == [first] && [first] + [restart] == [first, restart];
    assert [first, restart] + [other] == [first, restart, other];
    var record := Record(Some(a), MinutesOf(minutes), at, false);
    LastWordAfter([], record, a);
    LastWordAfter([record], Record(Some(b), MinutesOf(minutes), at, false), a);
    assert Run(start, [first]).Log(chat) == [] + [record];
    hide Run, Lost, LastWord;
    AskTellsLog(map[], offset, [first, restart, other], at, chat, a, at, at);
  }

  // ----- the code -----

  /** By the tool's name, and then by the minutes. */
  predicate EntryLess(a: (string, nat), b: (string, nat)) {
    Text.Less(a.0, b.0) || (a.0 == b.0 && a.1 < b.1)
  }

  lemma EntriesAscend(entries: seq<(string, nat)>)
    requires forall i, j | 0 <= i < j < |entries| :: entries[i].0 != entries[j].0
    ensures Ascending(EntryLess, Sort(EntryLess, entries))
  {
    Text.LessIsStrict();
    forall i, j | 0 <= i < j < |entries|
      ensures EntryLess(entries[i], entries[j]) || EntryLess(entries[j], entries[i])
    {
      Text.LessTotal(entries[i].0, entries[j].0);
    }
    SortAscending(EntryLess, entries);
  }

  function MinutesLeft(seconds: nat): nat { (seconds + 59) / 60 }

  /** A tool whose grant in the chat runs, with the minutes left, rounded up. */
  ghost predicate IsEntry(until: Until, chat: string, now: int, e: (string, nat)) {
    && (chat, e.0) in until && until[(chat, e.0)] > now
    && 60 * (e.1 - 1) < until[(chat, e.0)] - now <= 60 * e.1
  }

  lemma EntryIs(until: Until, chat: string, now: int, e: (string, nat))
    ensures IsEntry(until, chat, now, e) <==>
            Allows(until, chat, e.0, now) && e.1 == MinutesLeft(until[(chat, e.0)] - now)
  {
  }

  lemma ToolsAscend(until: Until, chat: string, now: int, out: seq<(string, nat)>)
    requires Ascending(EntryLess, out) && forall e | e in out :: IsEntry(until, chat, now, e)
    ensures forall i, j | 0 <= i < j < |out| :: Text.LexBefore(out[i].0, out[j].0)
  {
    forall i, j | 0 <= i < j < |out| ensures Text.LexBefore(out[i].0, out[j].0) {
      assert EntryLess(out[i], out[j]) && out[i] in out && out[j] in out;
      EntryIs(until, chat, now, out[i]);
      EntryIs(until, chat, now, out[j]);
      Text.LessIs(out[i].0, out[j].0);
    }
  }

  class GrantStore {
    var until: Until
    /** The chats whose logs are not read again: they were read back, or a grant was made here. */
    var replayed: set<string>

    constructor ()
      ensures until == map[] && replayed == {}
    {
      until, replayed := map[], {};
    }

    method Replay(chat: string, records: seq<Record>, now: int, nowWall: int)
      modifies this
      ensures until == Replayed(old(until), chat, records, now, nowWall)
      ensures replayed == old(replayed) + {chat}
    {
      replayed := replayed + {chat};
      for i := 0 to |records|
        invariant until == Replayed(old(until), chat, records[..i], now, nowWall)
        invariant replayed == old(replayed) + {chat}
      {
        assert records[..i + 1][..i] == records[..i];
        var record := records[i];
        if record.revoked {
          var _ := Revoke(chat, record.tool);
        } else if record.tool.Some? {
          var ends := record.at + Clamp(record.minutes) * 60;
          if ends > nowWall {
            until := until[(chat, record.tool.value) := now + (ends - nowWall)];
          } else {
            until := until - {(chat, record.tool.value)};
          }
        }
      }
      assert records[..|records|] == records;
    }

    method Grant(chat: string, tool: string, minutes: Option<nat>, now: int) returns (granted: nat)
      modifies this
      ensures until == GrantedIn(old(until), chat, tool, minutes, now)
      ensures replayed == old(replayed) + {chat}
      ensures var asked := if minutes.Some? then minutes.value else 60;
        granted == if asked < 1 then 1 else if asked > 1440 then 1440 else asked
      ensures until == old(until)[(chat, tool) := now + granted * 60]
    {
      granted := Clamp(if minutes.Some? then minutes.value else DEFAULT_GRANT_MINUTES);
      replayed := replayed + {chat};
      until := until[(chat, tool) := now + granted * 60];
    }

    method Allowed(chat: string, tool: string, now: int) returns (allowed: bool)
      modifies this`until
      ensures allowed <==> (chat, tool) in old(until) && old(until)[(chat, tool)] > now
      ensures until == if allowed then old(until) else old(until) - {(chat, tool)}
      ensures until == Asked(old(until), chat, tool, now)
    {
      var key := (chat, tool);
      if key !in until {
        assert until - {key} == until;
        return false;
      }
      if until[key] > now { return true; }
      until := until - {key};
      allowed := false;
    }

    method Revoke(chat: string, tool: Option<string>) returns (removed: nat)
      modifies this`until
      ensures until == Without(old(until), chat, tool)
      ensures forall k: Key :: k in until <==> k in old(until) && !(k.0 == chat && (tool.None? || tool == Some(k.1)))
      ensures forall k: Key | k in until :: until[k] == old(until)[k]
      ensures removed == |old(until)| - |until| && (removed > 0 <==> until != old(until))
    {
      FewerKeys(until, chat, tool);
      var before := |until|;
      until := map k | k in until && (k.0 != chat || (tool.Some? && k.1 != tool.value)) :: until[k];
      assert until == Without(old(until), chat, tool);
      removed := before - |until|;
    }

    /** The chat's running grants in order, with the minutes left, rounded up. */
    method Of(chat: string, now: int) returns (out: seq<(string, nat)>)
      ensures forall i, j | 0 <= i < j < |out| :: Text.LexBefore(out[i].0, out[j].0)
      ensures forall e :: e in out <==> IsEntry(until, chat, now, e)
    {
      var rest := until.Keys;
      out := [];
      while rest != {}
        invariant rest <= until.Keys
        invariant forall e :: e in out <==>
          Allows(until, chat, e.0, now) && (chat, e.0) !in rest && e.1 == MinutesLeft(until[(chat, e.0)] - now)
        invariant forall i, j | 0 <= i < j < |out| :: out[i].0 != out[j].0
      {
        var k :| k in rest;
        rest := rest - {k};
        if k.0 == chat && until[k] > now { out := out + [(k.1, MinutesLeft(until[k] - now))]; }
      }
      EntriesAscend(out);
      SameMembers(out, Sort(EntryLess, out));
      out := Sort(EntryLess, out);
      forall e ensures e in out <==> IsEntry(until, chat, now, e) { EntryIs(until, chat, now, e); }
      ToolsAscend(until, chat, now, out);
    }
  }
}
