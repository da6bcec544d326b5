/**
 A chat's visible transcript (agents/src/memory/transcript.rs): positions to messages, and the events
 a client's list of messages adds to it. Lower-casing and the message hash are parameters.
 */
module Transcripts {
  import opened Wrappers
  import opened Text
  import opened Json
  import opened Events

  /** The library functions a key is made with. */
  datatype Library = Library(lower: string -> string, hash: (string, string) -> string)

  datatype ClientMessage = ClientMessage(role: string, text: string, id: Option<string>, extra: seq<Member>)

  datatype Logged = Logged(eventId: string, key: string, role: string, text: string)

  datatype Change =
    | New(pos: nat)
    | Edited(pos: nat, prior: string)
    | Retracted(pos: nat, prior: string)

  // ----- texts -----

  function AsciiLower(c: char): char { if 'A' <= c <= 'Z' then c + ' ' else c }

  predicate EqIgnoreAsciiCase(a: string, b: string) {
    |a| == |b| && forall i | 0 <= i < |a| :: AsciiLower(a[i]) == AsciiLower(b[i])
  }

  function MessageKey(lib: Library, role: string, text: string, id: Option<string>): string {
    if id.Some? && id.value != "" then "id:" + id.value else "h:" + lib.hash(lib.lower(role), Trim(text))
  }

  // ----- fields of an event -----

  /** A map entry written over, or added. */
  function Put(ms: seq<Member>, key: string, value: Value): seq<Member> {
    if ms == [] then [Member(key, value)]
    else if ms[0].key == key then [Member(key, value)] + ms[1..]
    else [ms[0]] + Put(ms[1..], key, value)
  }

  function Extend(ms: seq<Member>, extra: seq<Member>): seq<Member>
    decreases |extra|
  {
    if extra == [] then ms else Extend(Put(ms, extra[0].key, extra[0].value), extra[1..])
  }

  function Field(e: Event, key: string): string {
    var s := AsStr(Get(e.data, key));
    if s.Some? then s.value else ""
  }

  function Pos(e: Event): Option<nat> { AsNat(Get(e.data, "pos")) }

  predicate Shows(kind: string) { kind == "message" || kind == "message.edited" }

  predicate Retracts(kind: string) { kind == "message.retracted" }

  function LoggedOf(e: Event): Logged { Logged(e.id, Field(e, "key"), Field(e, "role"), Field(e, "text")) }

  // ----- the visible transcript -----

  type Slots = map<nat, Logged>

  function Apply(slots: Slots, e: Event): Slots {
    if Pos(e).None? then slots
    else if Shows(e.kind) then slots[Pos(e).value := LoggedOf(e)]
    else if Retracts(e.kind) then slots - {Pos(e).value}
    else slots
  }

  function TranscriptOf(events: seq<Event>): Slots {
    if events == [] then map[] else Apply(TranscriptOf(events[..|events| - 1]), events[|events| - 1])
  }

  /** A slot per position, as long as the highest position named so far. */
  type SlotList = seq<Option<Logged>>

  function Grow(slots: SlotList, n: nat): SlotList {
    if |slots| >= n then slots else slots + seq(n - |slots|, _ => None)
  }

  function ApplyToList(slots: SlotList, e: Event): SlotList {
    if (!Shows(e.kind) && !Retracts(e.kind)) || Pos(e).None? then slots
    else Grow(slots, Pos(e).value + 1)[Pos(e).value := if Retracts(e.kind) then None else Some(LoggedOf(e))]
  }

  function ListOf(events: seq<Event>): SlotList {
    if events == [] then [] else ApplyToList(ListOf(events[..|events| - 1]), events[|events| - 1])
  }

  function At(slots: SlotList, pos: nat): Option<Logged> { if pos < |slots| then slots[pos] else None }

  // ----- comparing with what the client sent -----

  /** Same text up to blanks around it, and the same role or key. */
  predicate Matches(lib: Library, logged: Logged, m: ClientMessage) {
    && Trim(logged.text) == Trim(m.text)
    && (EqIgnoreAsciiCase(logged.role, m.role) || logged.key == MessageKey(lib, lib.lower(m.role), m.text, m.id))
  }

  function ChangeAt(lib: Library, slot: Option<Logged>, pos: nat, m: ClientMessage): seq<Change> {
    if slot.None? then [New(pos)]
    else if Matches(lib, slot.value, m) then []
    else [Edited(pos, slot.value.eventId)]
  }

  function SentChanges(lib: Library, slots: SlotList, messages: seq<ClientMessage>): seq<Change> {
    if messages == [] then [] else
      var n := |messages| - 1;
      SentChanges(lib, slots, messages[..n]) + ChangeAt(lib, At(slots, n), n, messages[n])
  }

  /** The positions from `first` on that the client no longer sends. */
  function Dropped(slots: SlotList, first: nat): seq<Change> {
    if |slots| <= first then [] else
      var n := |slots| - 1;
      Dropped(slots[..n], first) + (if slots[n].Some? then [Retracted(n, slots[n].value.eventId)] else [])
  }

  function Compare(lib: Library, slots: SlotList, messages: seq<ClientMessage>): seq<Change> {
    SentChanges(lib, slots, messages) + Dropped(slots, |messages|)
  }

  function ChangesOf(lib: Library, events: seq<Event>, messages: seq<ClientMessage>): seq<Change> {
    Compare(lib, ListOf(events), messages)
  }

  // ----- the events of a change -----

  function MessageData(lib: Library, m: ClientMessage, pos: nat): seq<Member> {
    var role := lib.lower(m.role);
    var data := [
      Member("role", Str(role)),
      Member("text", Str(m.text)),
      Member("pos", Num(Decimal(pos))),
      Member("key", Str(MessageKey(lib, role, m.text, m.id))),
      Member("source", Str("client")) ];
    Extend(if m.id.Some? then Put(data, "msg_id", Str(m.id.value)) else data, m.extra)
  }

  function ChangeEvent(lib: Library, c: Change, messages: seq<ClientMessage>): NewEvent
    requires c.Retracted? || c.pos < |messages|
  {
    match c
    case New(pos) => NewEvent("message", MessageData(lib, messages[pos], pos), None)
    case Edited(pos, prior) =>
      NewEvent("message.edited", Put(MessageData(lib, messages[pos], pos), "supersedes", Str(prior)), None)
    case Retracted(pos, prior) =>
      NewEvent("message.retracted", [Member("pos", Num(Decimal(pos))), Member("retracts", Str(prior))], None)
  }

  predicate ForMessages(cs: seq<Change>, messages: seq<ClientMessage>) {
    forall i | 0 <= i < |cs| :: cs[i].Retracted? || cs[i].pos < |messages|
  }

  function ChangeEvents(lib: Library, cs: seq<Change>, messages: seq<ClientMessage>): (r: seq<NewEvent>)
    requires ForMessages(cs, messages)
    ensures |r| == |cs| && forall i | 0 <= i < |cs| :: r[i] == ChangeEvent(lib, cs[i], messages)
  {
    seq(|cs|, i requires 0 <= i < |cs| => ChangeEvent(lib, cs[i], messages))
  }

  // ----- the loops -----

  method Transcript(events: seq<Event>) returns (slots: Slots)
    ensures slots == TranscriptOf(events)
  {
    slots := map[];
    for i := 0 to |events|
      invariant slots == TranscriptOf(events[..i])
    {
      var event := events[i];
      assert events[..i + 1][..i] == events[..i];
      var pos := Pos(event);
      if pos.Some? {
        if Shows(event.kind) {
          slots := slots[pos.value := LoggedOf(event)];
        } else if Retracts(event.kind) {
          slots := slots - {pos.value};
        }
      }
    }
    assert events[..|events|] == events;
  }

  method Changes(lib: Library, events: seq<Event>, messages: seq<ClientMessage>) returns (changes: seq<Change>)
    ensures changes == ChangesOf(lib, events, messages)
  {
    var slots: SlotList := [];
    for i := 0 to |events|
      invariant slots == ListOf(events[..i])
    {
      var event := events[i];
      assert events[..i + 1][..i] == events[..i];
      if Shows(event.kind) || Retracts(event.kind) {
        var pos := Pos(event);
        if pos.Some? {
          slots := Grow(slots, pos.value + 1);
          slots := slots[pos.value := if Retracts(event.kind) then None else Some(LoggedOf(event))];
        }
      }
    }
    assert events[..|events|] == events;
    changes := CompareLoop(lib, slots, messages);
  }

  method CompareLoop(lib: Library, slots: SlotList, messages: seq<ClientMessage>) returns (changes: seq<Change>)
    ensures changes == Compare(lib, slots, messages)
  {
    hide Matches, At;
    changes := [];
    for pos := 0 to |messages|
      invariant changes == SentChanges(lib, slots, messages[..pos])
    {
      assert messages[..pos + 1][..pos] == messages[..pos];
      var slot := At(slots, pos);
      if slot.None? {
        changes := changes + [New(pos)];
      } else if !Matches(lib, slot.value, messages[pos]) {
        changes := changes + [Edited(pos, slot.value.eventId)];
      }
    }
    assert messages[..|messages|] == messages;
    ghost var sent := changes;
    var from := |messages|;
    if from <= |slots| {
      assert Dropped(slots[..from], from) == [];
      for pos := from to |slots|
        invariant changes == sent + Dropped(slots[..pos], from)
      {
        assert slots[..pos + 1][..pos] == slots[..pos];
        if slots[pos].Some? {
          changes := changes + [Retracted(pos, slots[pos].value.eventId)];
        }
      }
      assert slots[..|slots|] == slots;
    }
  }
}
