/** After the events of a request's changes, the transcript is what the client sent. */
module TranscriptRounds {
  import opened Wrappers
  import opened Text
  import opened Json
  import opened Events
  import opened Transcripts

  // ----- the two forms of the transcript agree -----

  ghost predicate Represents(slots: SlotList, logged: Slots) {
    && (forall p: nat :: p in logged <==> At(slots, p).Some?)
    && (forall p: nat | p in logged :: At(slots, p) == Some(logged[p]))
  }

  /** The event says something of position `p`: it shows a message there, or takes it back. */
  ghost predicate SpeaksOf(e: Event, p: nat) {
    && e.kind in {"message", "message.edited", "message.retracted"}
    && exists t :: Get(e.data, "pos") == Some(Num(t)) && ParseNat(t) == Some(p)
  }

  /** The event's field, when it is a text, else an empty one. */
  ghost predicate IsField(e: Event, key: string, text: string) {
    if exists s :: Get(e.data, key) == Some(Str(s)) then Get(e.data, key) == Some(Str(text)) else text == ""
  }

  /** The message that the event shows. */
  ghost predicate ShownBy(e: Event, logged: Logged) {
    && e.kind in {"message", "message.edited"} && logged.eventId == e.id
    && IsField(e, "key", logged.key) && IsField(e, "role", logged.role) && IsField(e, "text", logged.text)
  }

  ghost predicate LastOf(events: seq<Event>, i: nat, p: nat) {
    i < |events| && SpeaksOf(events[i], p) && forall j | i < j < |events| :: !SpeaksOf(events[j], p)
  }

  /** A position shows what the last event about it says. */
  lemma {:induction false} TranscriptIs(events: seq<Event>, p: nat)
    ensures p in TranscriptOf(events) ==>
      exists i: nat :: LastOf(events, i, p) && ShownBy(events[i], TranscriptOf(events)[p])
    ensures p !in TranscriptOf(events) ==>
      forall i: nat | LastOf(events, i, p) :: events[i].kind == "message.retracted"
  {
    if events != [] {
      var n := |events| - 1;
      var front, e := events[..n], events[n];
      TranscriptIs(front, p);
      SpeaksWhenApplied(TranscriptOf(front), e, p);
      hide Apply, SpeaksOf, ShownBy;
      if SpeaksOf(e, p) {
        assert LastOf(events, n, p);
      } else {
        LastBefore(events, p);
        if p in TranscriptOf(events) {
          var i: nat :| LastOf(front, i, p) && ShownBy(front[i], TranscriptOf(front)[p]);
          assert LastOf(events, i, p) && events[i] == front[i];
        } else {
          forall i: nat | LastOf(events, i, p) ensures events[i].kind == "message.retracted" {
            assert LastOf(front, i, p) && events[i] == front[i];
          }
        }
      }
    }
  }

  lemma LastBefore(events: seq<Event>, p: nat)
    requires events != [] && !SpeaksOf(events[|events| - 1], p)
    ensures forall i: nat :: LastOf(events, i, p) <==> LastOf(events[..|events| - 1], i, p)
  {
    var n := |events| - 1;
    var front := events[..n];
    hide SpeaksOf;
    forall i: nat ensures LastOf(events, i, p) <==> LastOf(front, i, p) {
      if LastOf(front, i, p) {
        forall j | i < j < |events| ensures !SpeaksOf(events[j], p) { if j < n { assert front[j] == events[j]; } }
      }
      if LastOf(events, i, p) {
        forall j | i < j < n ensures !SpeaksOf(front[j], p) { assert front[j] == events[j]; }
      }
    }
  }

  lemma SpeaksWhenApplied(slots: Slots, e: Event, p: nat)
    ensures !SpeaksOf(e, p) ==> SameAt(slots, Apply(slots, e), p)
    ensures SpeaksOf(e, p) ==>
      if e.kind == "message.retracted" then p !in Apply(slots, e)
      else p in Apply(slots, e) && ShownBy(e, Apply(slots, e)[p])
  {
    var v := Get(e.data, "pos");
    assert Pos(e) == Some(p) <==> exists t :: v == Some(Num(t)) && ParseNat(t) == Some(p) by {
      if Pos(e) == Some(p) { assert v == Some(Num(v.value.token)); }
    }
    FieldIs(e, "key");
    FieldIs(e, "role");
    FieldIs(e, "text");
  }

  lemma FieldIs(e: Event, key: string)
    ensures IsField(e, key, Field(e, key))
  {
    var v := Get(e.data, key);
    if v.Some? && v.value.Str? { assert v == Some(Str(v.value.s)); }
  }

  lemma GrowSame(slots: SlotList, n: nat, p: nat)
    ensures At(Grow(slots, n), p) == At(slots, p)
  {
  }

  lemma {:induction false} ListRepresents(events: seq<Event>)
    ensures Represents(ListOf(events), TranscriptOf(events))
  {
    if events != [] {
      var front, e := events[..|events| - 1], events[|events| - 1];
      ListRepresents(front);
      forall p: nat ensures At(ListOf(events), p).Some? <==> p in TranscriptOf(events) {
        if Pos(e).Some? { GrowSame(ListOf(front), Pos(e).value + 1, p); }
      }
      forall p: nat | p in TranscriptOf(events) ensures At(ListOf(events), p) == Some(TranscriptOf(events)[p]) {
        if Pos(e).Some? { GrowSame(ListOf(front), Pos(e).value + 1, p); }
      }
    }
  }

  lemma {:induction false} SentChangesSame(lib: Library, a: SlotList, b: SlotList, messages: seq<ClientMessage>)
    requires forall p: nat :: At(a, p) == At(b, p)
    ensures SentChanges(lib, a, messages) == SentChanges(lib, b, messages)
  {
    if messages != [] { SentChangesSame(lib, a, b, messages[..|messages| - 1]); }
  }

  lemma {:induction false} DroppedSame(a: SlotList, b: SlotList, first: nat)
    requires forall p: nat :: At(a, p) == At(b, p)
    ensures Dropped(a, first) == Dropped(b, first)
    decreases |a| + |b|
  {
    if |a| == |b| {
      forall i | 0 <= i < |a| ensures a[i] == b[i] { assert At(a, i) == At(b, i); }
      assert a == b;
    } else if |a| < |b| {
      DroppedShorter(a, b, first);
    } else {
      DroppedShorter(b, a, first);
    }
  }

  lemma {:induction false} DroppedShorter(a: SlotList, b: SlotList, first: nat)
    requires |a| < |b| && forall p: nat :: At(a, p) == At(b, p)
    ensures Dropped(a, first) == Dropped(b, first)
    decreases |b|
  {
    var front := b[..|b| - 1];
    assert At(b, |b| - 1) == At(a, |b| - 1) == None;
    forall p: nat ensures At(a, p) == At(front, p) { assert At(a, p) == At(b, p); }
    if |a| < |front| {
      DroppedShorter(a, front, first);
    } else {
      forall i | 0 <= i < |a| ensures a[i] == front[i] { assert At(a, i) == At(front, i); }
      assert a == front;
    }
  }

  /** Any slot list that stands for the logged transcript gives the same changes. */
  lemma DiffAgrees(lib: Library, slots: SlotList, events: seq<Event>, messages: seq<ClientMessage>)
    requires Represents(slots, TranscriptOf(events))
    ensures Compare(lib, slots, messages) == ChangesOf(lib, events, messages)
  {
    ListRepresents(events);
    forall p: nat ensures At(slots, p) == At(ListOf(events), p) {
      if p in TranscriptOf(events) {}
    }
    SentChangesSame(lib, slots, ListOf(events), messages);
    DroppedSame(slots, ListOf(events), |messages|);
  }

  /** `diff`: the same comparison, from the transcript as a map. */
  method Diff(lib: Library, logged: Slots, messages: seq<ClientMessage>, ghost events: seq<Event>)
      returns (r: seq<NewEvent>)
    requires logged == TranscriptOf(events)
    ensures ForMessages(ChangesOf(lib, events, messages), messages)
    ensures r == ChangeEvents(lib, ChangesOf(lib, events, messages), messages)
  {
    var slots: SlotList := [];
    var rest := logged.Keys;
    while rest != {}
      invariant rest <= logged.Keys
      invariant forall p: nat :: At(slots, p) == if p in logged && p !in rest then Some(logged[p]) else None
    {
      var pos :| pos in rest;
      forall p: nat ensures At(Grow(slots, pos + 1), p) == At(slots, p) { GrowSame(slots, pos + 1, p); }
      slots := Grow(slots, pos + 1)[pos := Some(logged[pos])];
      rest := rest - {pos};
    }
    DiffAgrees(lib, slots, events, messages);
    var changes := CompareLoop(lib, slots, messages);
    ChangesAre(lib, slots, messages);
    r := ChangeEvents(lib, changes, messages);
  }

  // ----- which changes there are -----

  ghost predicate RightChange(lib: Library, slots: SlotList, messages: seq<ClientMessage>, c: Change) {
    if c.Retracted?
    then c.pos >= |messages| && At(slots, c.pos).Some? && c.prior == At(slots, c.pos).value.eventId
    else c.pos < |messages| && ChangeAt(lib, At(slots, c.pos), c.pos, messages[c.pos]) == [c]
  }

  ghost predicate AscendingPositions(cs: seq<Change>) {
    forall i, j | 0 <= i < j < |cs| :: cs[i].pos < cs[j].pos
  }

  ghost predicate HasPosition(cs: seq<Change>, p: nat) { exists i :: 0 <= i < |cs| && cs[i].pos == p }

  lemma HasPositionIn(a: seq<Change>, b: seq<Change>, p: nat)
    ensures HasPosition(a + b, p) <==> HasPosition(a, p) || HasPosition(b, p)
  {
    if HasPosition(a, p) {
      var i :| 0 <= i < |a| && a[i].pos == p;
      assert (a + b)[i].pos == p;
    }
    if HasPosition(b, p) {
      var i :| 0 <= i < |b| && b[i].pos == p;
      assert (a + b)[|a| + i].pos == p;
    }
  }

  lemma {:induction false} SentChangesRight(lib: Library, slots: SlotList, messages: seq<ClientMessage>)
    ensures var cs := SentChanges(lib, slots, messages);
      && AscendingPositions(cs)
      && forall i | 0 <= i < |cs| :: !cs[i].Retracted? && RightChange(lib, slots, messages, cs[i])
  {
    if messages != [] {
      var n := |messages| - 1;
      SentChangesRight(lib, slots, messages[..n]);
      var front, cs := SentChanges(lib, slots, messages[..n]), SentChanges(lib, slots, messages);
      forall i | 0 <= i < |cs| ensures !cs[i].Retracted? && RightChange(lib, slots, messages, cs[i]) {
        if i < |front| { assert cs[i] == front[i] && RightChange(lib, slots, messages[..n], front[i]); }
      }
    }
  }

  lemma {:induction false} SentChangesCover(lib: Library, slots: SlotList, messages: seq<ClientMessage>, p: nat)
    requires p < |messages| && ChangeAt(lib, At(slots, p), p, messages[p]) != []
    ensures HasPosition(SentChanges(lib, slots, messages), p)
  {
    var n := |messages| - 1;
    var last := ChangeAt(lib, At(slots, n), n, messages[n]);
    HasPositionIn(SentChanges(lib, slots, messages[..n]), last, p);
    if p < n {
      SentChangesCover(lib, slots, messages[..n], p);
    } else {
      assert last[0].pos == p;
    }
  }

  lemma PushAscends(cs: seq<Change>, c: Change)
    requires AscendingPositions(cs) && forall i | 0 <= i < |cs| :: cs[i].pos < c.pos
    ensures AscendingPositions(cs + [c])
  {
  }

  lemma {:induction false} DroppedAre(slots: SlotList, first: nat)
    ensures var cs := Dropped(slots, first);
      && AscendingPositions(cs)
      && (forall i | 0 <= i < |cs| ::
            && cs[i].Retracted? && first <= cs[i].pos < |slots| && slots[cs[i].pos].Some?
            && cs[i].prior == slots[cs[i].pos].value.eventId)
  {
    if |slots| > first {
      var n := |slots| - 1;
      var front := Dropped(slots[..n], first);
      DroppedAre(slots[..n], first);
      forall i | 0 <= i < |front| ensures front[i].pos < n && slots[front[i].pos].Some? {
        assert slots[..n][front[i].pos] == slots[front[i].pos];
      }
      if slots[n].Some? { PushAscends(front, Retracted(n, slots[n].value.eventId)); }
    }
  }

  lemma {:induction false} DroppedCover(slots: SlotList, first: nat, p: nat)
    requires first <= p < |slots| && slots[p].Some?
    ensures HasPosition(Dropped(slots, first), p)
  {
    var n := |slots| - 1;
    var last := if slots[n].Some? then [Retracted(n, slots[n].value.eventId)] else [];
    HasPositionIn(Dropped(slots[..n], first), last, p);
    if p < n {
      DroppedCover(slots[..n], first, p);
    } else {
      assert last[0].pos == p;
    }
  }

  /** Each position that needs a change has one change, and no other position has any. */
  lemma ChangesRight(lib: Library, slots: SlotList, messages: seq<ClientMessage>)
    ensures var cs := Compare(lib, slots, messages);
      && ForMessages(cs, messages)
      && AscendingPositions(cs)
      && (forall i | 0 <= i < |cs| :: RightChange(lib, slots, messages, cs[i]))
  {
    SentChangesRight(lib, slots, messages);
    DroppedAre(slots, |messages|);
    var sent, dropped := SentChanges(lib, slots, messages), Dropped(slots, |messages|);
    var cs := Compare(lib, slots, messages);
    forall i | 0 <= i < |cs| ensures RightChange(lib, slots, messages, cs[i]) {
      assert cs[i] == if i < |sent| then sent[i] else dropped[i - |sent|];
    }
  }

  /** Each position that needs a change has one change, and no other position has any. */
  lemma ChangesAre(lib: Library, slots: SlotList, messages: seq<ClientMessage>)
    ensures var cs := Compare(lib, slots, messages);
      && ForMessages(cs, messages)
      && AscendingPositions(cs)
      && (forall i | 0 <= i < |cs| :: RightChange(lib, slots, messages, cs[i]))
      && (forall p: nat | p < |messages| && ChangeAt(lib, At(slots, p), p, messages[p]) != [] :: HasPosition(cs, p))
      && (forall p: nat | p >= |messages| && At(slots, p).Some? :: HasPosition(cs, p))
  {
    ChangesRight(lib, slots, messages);
    var sent, dropped := SentChanges(lib, slots, messages), Dropped(slots, |messages|);
    forall p: nat | p < |messages| && ChangeAt(lib, At(slots, p), p, messages[p]) != []
      ensures HasPosition(sent + dropped, p)
    {
      SentChangesCover(lib, slots, messages, p);
      HasPositionIn(sent, dropped, p);
    }
    forall p: nat | p >= |messages| && At(slots, p).Some? ensures HasPosition(sent + dropped, p) {
      DroppedCover(slots, |messages|, p);
      HasPositionIn(sent, dropped, p);
    }
  }

  // ----- the comparison, position by position -----

  /** The same letters, but for capitals A to Z. */
  ghost predicate SameLetters(a: string, b: string) {
    |a| == |b| && forall i | 0 <= i < |a| ::
      || a[i] == b[i]
      || ('A' <= a[i] <= 'Z' && b[i] as int == a[i] as int + 32)
      || ('A' <= b[i] <= 'Z' && a[i] as int == b[i] as int + 32)
  }

  /** The client's id of a message, or else the hash of its role and its text without the blanks around it. */
  ghost predicate IsKey(lib: Library, m: ClientMessage, key: string) {
    if m.id.Some? && m.id.value != "" then key == "id:" + m.id.value
    else key == "h:" + lib.hash(lib.lower(lib.lower(m.role)), Trim(m.text))
  }

  /** The logged message says what was sent: its text but for blanks around it, and its role or its key. */
  ghost predicate SaysAs(lib: Library, logged: Logged, m: ClientMessage) {
    Trim(logged.text) == Trim(m.text) && (SameLetters(logged.role, m.role) || IsKey(lib, m, logged.key))
  }

  lemma SameLettersIs(a: string, b: string)
    ensures EqIgnoreAsciiCase(a, b) <==> SameLetters(a, b)
  {
  }

  lemma MatchesIs(lib: Library, logged: Logged, m: ClientMessage)
    ensures Matches(lib, logged, m) <==> SaysAs(lib, logged, m)
  {
    SameLettersIs(logged.role, m.role);
  }

  /** What a comparison finds at `p`: nothing where the sent message is logged, or nothing is and nothing was sent. */
  ghost predicate ComparedAt(lib: Library, slots: SlotList, messages: seq<ClientMessage>, cs: seq<Change>, p: nat) {
    var logged := if p < |slots| then slots[p] else None;
    if p >= |messages| then
      forall c :: c in cs && c.pos == p <==> logged.Some? && c == Retracted(p, logged.value.eventId)
    else if logged.None? then forall c :: c in cs && c.pos == p <==> c == New(p)
    else if SaysAs(lib, logged.value, messages[p]) then forall c | c in cs :: c.pos != p
    else forall c :: c in cs && c.pos == p <==> c == Edited(p, logged.value.eventId)
  }

  /** The changes are those of each position, in ascending order. */
  lemma CompareIs(lib: Library, slots: SlotList, messages: seq<ClientMessage>)
    ensures var cs := Compare(lib, slots, messages);
      && (forall i, j | 0 <= i < j < |cs| :: cs[i].pos < cs[j].pos)
      && forall p: nat :: ComparedAt(lib, slots, messages, cs, p)
  {
    var cs := Compare(lib, slots, messages);
    ChangesAre(lib, slots, messages);
    forall p: nat ensures ComparedAt(lib, slots, messages, cs, p) { ComparedOnce(lib, slots, messages, p); }
  }

  lemma ComparedOnce(lib: Library, slots: SlotList, messages: seq<ClientMessage>, p: nat)
    ensures ComparedAt(lib, slots, messages, Compare(lib, slots, messages), p)
  {
    var cs, logged := Compare(lib, slots, messages), At(slots, p);
    ChangesAre(lib, slots, messages);
    if logged.Some? && p < |messages| { MatchesIs(lib, logged.value, messages[p]); }
    hide Compare, Matches, SaysAs;
    forall c | c in cs && c.pos == p ensures RightChange(lib, slots, messages, c) {
      var i :| 0 <= i < |cs| && cs[i] == c;
    }
    if HasPosition(cs, p) {
      var i :| 0 <= i < |cs| && cs[i].pos == p;
      assert RightChange(lib, slots, messages, cs[i]);
    }
  }

  // ----- what the event of a change does -----

  lemma {:induction false} GetPut(ms: seq<Member>, key: string, value: Value, k: string)
    ensures Get(Put(ms, key, value), k) == if k == key then Some(value) else Get(ms, k)
  {
    if ms != [] && ms[0].key != key { GetPut(ms[1..], key, value, k); }
  }

  lemma {:induction false} GetExtend(ms: seq<Member>, extra: seq<Member>, k: string)
    requires UniqueKeys(extra)
    ensures Get(Extend(ms, extra), k) == if Get(extra, k).Some? then Get(extra, k) else Get(ms, k)
    decreases |extra|
  {
    if extra != [] {
      GetExtend(Put(ms, extra[0].key, extra[0].value), extra[1..], k);
      GetPut(ms, extra[0].key, extra[0].value, k);
      if extra[0].key == k { GetAbsent(extra[1..], k); }
    }
  }

  lemma {:induction false} GetAbsent(ms: seq<Member>, k: string)
    requires forall i | 0 <= i < |ms| :: ms[i].key != k
    ensures Get(ms, k) == None
  {
    if ms != [] { GetAbsent(ms[1..], k); }
  }

  lemma {:induction false} GetOwn(ms: seq<Member>, k: string)
    requires !Reserved(k)
    ensures Get(OwnFields(ms), k) == Get(ms, k)
  {
    if ms != [] {
      GetOwn(ms[1..], k);
      if Reserved(ms[0].key) {
        assert OwnFields(ms) == OwnFields(ms[1..]);
      } else {
        assert OwnFields(ms)[1..] == OwnFields(ms[1..]);
      }
    }
  }

  function Or(v: Option<Value>, default: Value): Option<Value> { if v.Some? then v else Some(default) }

  /** A field of a message's event: what the client's extra fields say, else what the message says. */
  function Effective(m: ClientMessage, key: string, value: Value): Option<Value> { Or(Get(m.extra, key), value) }

  lemma FieldOfData(lib: Library, m: ClientMessage, pos: nat, i: nat, f: Member)
    requires UniqueKeys(m.extra)
    requires 0 <= i < 4
    requires f == [
      Member("role", Str(lib.lower(m.role))), Member("text", Str(m.text)), Member("pos", Num(Decimal(pos))),
      Member("key", Str(MessageKey(lib, lib.lower(m.role), m.text, m.id))) ][i]
    ensures Get(MessageData(lib, m, pos), f.key) == Effective(m, f.key, f.value)
  {
    var role := lib.lower(m.role);
    var data := [
      Member("role", Str(role)),
      Member("text", Str(m.text)),
      Member("pos", Num(Decimal(pos))),
      Member("key", Str(MessageKey(lib, role, m.text, m.id))),
      Member("source", Str("client")) ];
    assert UniqueKeys(data);
    assert data[i] == f;
    GetAt(data, i);
    var full := if m.id.Some? then Put(data, "msg_id", Str(m.id.value)) else data;
    if m.id.Some? { GetPut(data, "msg_id", Str(m.id.value), f.key); }
    GetExtend(full, m.extra, f.key);
  }

  /** A field as the store keeps it: one too large for the event is none that the transcript can read. */
  function Stored(v: Option<Value>): Option<Value> { if v.Some? then Some(Moved(v.value)) else None }

  lemma {:induction false} GetMoved(ms: seq<Member>, key: string)
    ensures Get(MovedFields(ms), key) == Stored(Get(ms, key))
  {
    if ms != [] && ms[0].key != key {
      GetMoved(ms[1..], key);
      assert MovedFields(ms)[1..] == MovedFields(ms[1..]);
    }
  }

  /** What the client's extra fields leave of a message at `pos`. */
  function EffectivePos(m: ClientMessage, pos: nat): Option<nat> { AsNat(Effective(m, "pos", Num(Decimal(pos)))) }

  function OrEmpty(v: Option<string>): string { if v.Some? then v.value else "" }

  function EffectiveLogged(lib: Library, m: ClientMessage, eventId: string): Logged {
    var role := lib.lower(m.role);
    Logged(eventId,
           OrEmpty(AsStr(Stored(Effective(m, "key", Str(MessageKey(lib, role, m.text, m.id)))))),
           OrEmpty(AsStr(Stored(Effective(m, "role", Str(role))))),
           OrEmpty(AsStr(Stored(Effective(m, "text", Str(m.text))))))
  }

  /** The client's extra fields and the store leave the message where it is and as it is. */
  predicate Harmless(lib: Library, m: ClientMessage, pos: nat) {
    EffectivePos(m, pos) == Some(pos) && Matches(lib, EffectiveLogged(lib, m, ""), m)
  }

  /** Extra fields that name none of the message's own. */
  predicate Plain(m: ClientMessage) {
    && Get(m.extra, "pos").None? && Get(m.extra, "key").None?
    && Get(m.extra, "role").None? && Get(m.extra, "text").None?
  }

  predicate Fits(text: string) { |text| <= BLOB_BYTES }

  /** The text stays in the event, or is nothing but blanks. */
  predicate TextStays(m: ClientMessage) { Fits(m.text) || Trim(m.text) == "" }

  /** The key stays in the event, or else the role does and is known again. */
  predicate KeyStays(lib: Library, m: ClientMessage) {
    var role := lib.lower(m.role);
    Fits(MessageKey(lib, role, m.text, m.id)) || EqIgnoreAsciiCase(if Fits(role) then role else "", m.role)
  }

  /** With no extra field that names one of its own, a message is harmless exactly when its text and its key stay. */
  lemma OtherFieldsHarmless(lib: Library, m: ClientMessage, pos: nat)
    requires Plain(m)
    ensures Harmless(lib, m, pos) <==> TextStays(m) && KeyStays(lib, m)
  {
    NumberOfDecimal(pos);
  }

  lemma GetStamped(ms: seq<Member>, key: string)
    requires !Reserved(key)
    ensures Get(MovedFields(OwnFields(ms)), key) == Stored(Get(ms, key))
  {
    GetOwn(ms, key);
    GetMoved(OwnFields(ms), key);
  }

  /** A number is never moved. */
  lemma StoredNumber(v: Option<Value>)
    ensures AsNat(Stored(v)) == AsNat(v)
  {
  }

  /** The event a store makes of a change, as the transcript sees it. */
  lemma ChangeEventDoes(lib: Library, c: Change, messages: seq<ClientMessage>, chat: string, n: nat, id: string,
      now: string)
    requires c.Retracted? || c.pos < |messages|
    requires !c.Retracted? ==> UniqueKeys(messages[c.pos].extra)
    ensures var e := Stamped(ChangeEvent(lib, c, messages), chat, n, id, now);
      if c.Retracted? then Retracts(e.kind) && !Shows(e.kind) && Pos(e) == Some(c.pos)
      else Shows(e.kind) && Pos(e) == EffectivePos(messages[c.pos], c.pos)
           && LoggedOf(e) == EffectiveLogged(lib, messages[c.pos], id)
  {
    var made := ChangeEvent(lib, c, messages);
    hide Get, Put, MessageData, Effective, OwnFields, MovedFields, AsNat, AsStr, Stored;
    GetStamped(made.data, "pos");
    StoredNumber(Get(made.data, "pos"));
    if c.Retracted? {
      RetractedAt(lib, c, messages);
    } else {
      GetStamped(made.data, "key");
      GetStamped(made.data, "role");
      GetStamped(made.data, "text");
      ChangeFields(lib, c, messages);
    }
  }

  lemma RetractedAt(lib: Library, c: Change, messages: seq<ClientMessage>)
    requires c.Retracted?
    ensures AsNat(Get(ChangeEvent(lib, c, messages).data, "pos")) == Some(c.pos)
  {
    NumberOfDecimal(c.pos);
  }

  /** A field of the event of a change: the event it supersedes, an extra field, or what the message says. */
  ghost predicate FieldOfChange(lib: Library, c: Change, m: ClientMessage, data: seq<Member>, k: string) {
    if c.Edited? && k == "supersedes" then Get(data, k) == Some(Str(c.prior))
    else if Get(m.extra, k).Some? then Get(data, k) == Get(m.extra, k)
    else if k == "role" then Get(data, k) == Some(Str(lib.lower(m.role)))
    else if k == "text" then Get(data, k) == Some(Str(m.text))
    else if k == "pos" then Get(data, k) == Some(Num(Decimal(c.pos)))
    else if k == "key" then exists key :: IsKey(lib, m, key) && Get(data, k) == Some(Str(key))
    else if k == "source" then Get(data, k) == Some(Str("client"))
    else if k == "msg_id" && m.id.Some? then Get(data, k) == Some(Str(m.id.value))
    else Get(data, k) == None
  }

  /** The event of a change, field by field. */
  lemma ChangeEventSays(lib: Library, c: Change, messages: seq<ClientMessage>)
    requires c.Retracted? || (c.pos < |messages| && UniqueKeys(messages[c.pos].extra))
    ensures var e := ChangeEvent(lib, c, messages);
      && e.ts == None
      && match c
         case New(p) => e.kind == "message" && forall k :: FieldOfChange(lib, c, messages[p], e.data, k)
         case Edited(p, _) => e.kind == "message.edited" && forall k :: FieldOfChange(lib, c, messages[p], e.data, k)
         case Retracted(p, prior) =>
           && e.kind == "message.retracted"
           && e.data == [Member("pos", Num(Decimal(p))), Member("retracts", Str(prior))]
  {
    if !c.Retracted? {
      var m := messages[c.pos];
      var data := ChangeEvent(lib, c, messages).data;
      forall k ensures FieldOfChange(lib, c, m, data, k) {
        MessageDataSays(lib, m, c.pos, k);
        if c.Edited? { GetPut(MessageData(lib, m, c.pos), "supersedes", Str(c.prior), k); }
      }
    }
  }

  lemma MessageDataSays(lib: Library, m: ClientMessage, pos: nat, k: string)
    requires UniqueKeys(m.extra)
    ensures FieldOfChange(lib, New(pos), m, MessageData(lib, m, pos), k)
  {
    var role := lib.lower(m.role);
    var key := MessageKey(lib, role, m.text, m.id);
    var data := [
      Member("role", Str(role)),
      Member("text", Str(m.text)),
      Member("pos", Num(Decimal(pos))),
      Member("key", Str(key)),
      Member("source", Str("client")) ];
    assert IsKey(lib, m, key);
    GetOfFive(data, k);
    var full := if m.id.Some? then Put(data, "msg_id", Str(m.id.value)) else data;
    if m.id.Some? { GetPut(data, "msg_id", Str(m.id.value), k); }
    GetExtend(full, m.extra, k);
    assert MessageData(lib, m, pos) == Extend(full, m.extra);
    hide Get, Extend, Put, MessageData, IsKey, MessageKey;
  }

  lemma GetOfFive(data: seq<Member>, k: string)
    requires |data| == 5 && UniqueKeys(data)
    ensures Get(data, k) ==
      if k == data[0].key then Some(data[0].value)
      else if k == data[1].key then Some(data[1].value)
      else if k == data[2].key then Some(data[2].value)
      else if k == data[3].key then Some(data[3].value)
      else if k == data[4].key then Some(data[4].value)
      else None
  {
    if i :| 0 <= i < 5 && k == data[i].key { GetAt(data, i); } else { GetAbsent(data, k); }
  }

  /** Naming the event it supersedes leaves the fields of a message's event alone. */
  lemma ChangeFields(lib: Library, c: Change, messages: seq<ClientMessage>)
    requires !c.Retracted? && c.pos < |messages| && UniqueKeys(messages[c.pos].extra)
    ensures var data, m := ChangeEvent(lib, c, messages).data, messages[c.pos];
      var role := lib.lower(m.role);
      && Get(data, "pos") == Effective(m, "pos", Num(Decimal(c.pos)))
      && Get(data, "key") == Effective(m, "key", Str(MessageKey(lib, role, m.text, m.id)))
      && Get(data, "role") == Effective(m, "role", Str(role))
      && Get(data, "text") == Effective(m, "text", Str(m.text))
  {
    hide Get, Put, MessageData, Effective;
    MessageFields(lib, messages[c.pos], c.pos);
    if c.Edited? {
      var data := MessageData(lib, messages[c.pos], c.pos);
      GetPut(data, "supersedes", Str(c.prior), "pos");
      GetPut(data, "supersedes", Str(c.prior), "key");
      GetPut(data, "supersedes", Str(c.prior), "role");
      GetPut(data, "supersedes", Str(c.prior), "text");
    }
  }

  lemma MessageFields(lib: Library, m: ClientMessage, pos: nat)
    requires UniqueKeys(m.extra)
    ensures var data, role := MessageData(lib, m, pos), lib.lower(m.role);
      && Get(data, "pos") == Effective(m, "pos", Num(Decimal(pos)))
      && Get(data, "key") == Effective(m, "key", Str(MessageKey(lib, role, m.text, m.id)))
      && Get(data, "role") == Effective(m, "role", Str(role))
      && Get(data, "text") == Effective(m, "text", Str(m.text))
  {
    FieldOfData(lib, m, pos, 0, Member("role", Str(lib.lower(m.role))));
    FieldOfData(lib, m, pos, 1, Member("text", Str(m.text)));
    FieldOfData(lib, m, pos, 2, Member("pos", Num(Decimal(pos))));
    FieldOfData(lib, m, pos, 3, Member("key", Str(MessageKey(lib, lib.lower(m.role), m.text, m.id))));
  }

  // ----- where the events of a request land -----

  /** The position that the event of a change speaks of. */
  function Lands(c: Change, messages: seq<ClientMessage>): Option<nat>
    requires c.Retracted? || c.pos < |messages|
  {
    if c.Retracted? then Some(c.pos) else EffectivePos(messages[c.pos], c.pos)
  }

  /** The last of the changes whose event speaks of `p`. */
  function LastAt(cs: seq<Change>, messages: seq<ClientMessage>, p: nat): Option<Change>
    requires ForMessages(cs, messages)
  {
    if cs == [] then None
    else if Lands(cs[|cs| - 1], messages) == Some(p) then Some(cs[|cs| - 1])
    else LastAt(cs[..|cs| - 1], messages, p)
  }

  lemma {:induction false} LastAtIs(cs: seq<Change>, messages: seq<ClientMessage>, p: nat)
    requires ForMessages(cs, messages)
    ensures LastAt(cs, messages, p).Some? ==> LastAt(cs, messages, p).value in cs
    ensures LastAt(cs, messages, p).Some? ==>
      var c := LastAt(cs, messages, p).value; (c.Retracted? || c.pos < |messages|) && Lands(c, messages) == Some(p)
    ensures LastAt(cs, messages, p).None? <==> forall i | 0 <= i < |cs| :: Lands(cs[i], messages) != Some(p)
  {
    if cs != [] {
      var front := cs[..|cs| - 1];
      LastAtIs(front, messages, p);
      assert forall i | 0 <= i < |front| :: front[i] == cs[i];
    }
  }

  ghost predicate SameAt(before: Slots, shown: Slots, p: nat) {
    (p in shown <==> p in before) && (p in before ==> shown[p] == before[p])
  }

  /** The event carries the change out as far as the client's extra fields let it. */
  ghost predicate CarriesOut(lib: Library, e: Event, c: Change, messages: seq<ClientMessage>)
    requires c.Retracted? || c.pos < |messages|
  {
    && Pos(e) == Lands(c, messages)
    && if c.Retracted? then Retracts(e.kind) && !Shows(e.kind)
       else Shows(e.kind) && LoggedOf(e) == EffectiveLogged(lib, messages[c.pos], e.id)
  }

  /** What `p` shows once the events of the changes are logged: what the last one about it says. */
  ghost predicate ShownAfter(lib: Library, before: Slots, after: Slots, cs: seq<Change>, messages: seq<ClientMessage>,
      p: nat)
    requires ForMessages(cs, messages)
  {
    var last := LastAt(cs, messages, p);
    LastAtIs(cs, messages, p);
    if last.None? then SameAt(before, after, p)
    else if last.value.Retracted? then p !in after
    else p in after && after[p].(eventId := "") == EffectiveLogged(lib, messages[last.value.pos], "")
  }

  lemma TranscriptPush(events: seq<Event>, e: Event)
    ensures TranscriptOf(events + [e]) == Apply(TranscriptOf(events), e)
  {
    assert (events + [e])[..|events|] == events;
  }

  lemma {:induction false} EventsLand(lib: Library, events: seq<Event>, es: seq<Event>, cs: seq<Change>,
      messages: seq<ClientMessage>, p: nat)
    requires ForMessages(cs, messages)
    requires |es| == |cs| && forall i | 0 <= i < |cs| :: CarriesOut(lib, es[i], cs[i], messages)
    ensures ShownAfter(lib, TranscriptOf(events), TranscriptOf(events + es), cs, messages, p)
    decreases |cs|
  {
    hide TranscriptOf, Apply, ShownAfter, CarriesOut;
    if cs == [] {
      NothingLands(lib, events, messages, p);
      assert events + es == events;
    } else {
      var n := |cs| - 1;
      EventsLand(lib, events, es[..n], cs[..n], messages, p);
      LastApart(events, es);
      TranscriptPush(events + es[..n], es[n]);
      OneMoreLands(lib, TranscriptOf(events), TranscriptOf(events + es[..n]), cs, messages, p, es[n]);
    }
  }

  lemma NothingLands(lib: Library, events: seq<Event>, messages: seq<ClientMessage>, p: nat)
    ensures ShownAfter(lib, TranscriptOf(events), TranscriptOf(events), [], messages, p)
  {
  }

  lemma LastApart(events: seq<Event>, es: seq<Event>)
    requires es != []
    ensures events + es == events + es[..|es| - 1] + [es[|es| - 1]]
  {
  }

  lemma OneMoreLands(lib: Library, before: Slots, shown: Slots, cs: seq<Change>, messages: seq<ClientMessage>, p: nat,
      e: Event)
    requires cs != [] && ForMessages(cs, messages) && CarriesOut(lib, e, cs[|cs| - 1], messages)
    requires ShownAfter(lib, before, shown, cs[..|cs| - 1], messages, p)
    ensures ShownAfter(lib, before, Apply(shown, e), cs, messages, p)
  {
    if Pos(e) != Some(p) { assert SameAt(shown, Apply(shown, e), p); }
  }

  // ----- when a request settles -----

  ghost predicate ShowsExactly(lib: Library, logged: Slots, messages: seq<ClientMessage>) {
    && (forall p: nat :: p in logged <==> p < |messages|)
    && (forall p: nat | p < |messages| :: SaysAs(lib, logged[p], messages[p]))
  }

  /** The transcript is what was sent, as far as `p` goes. */
  ghost predicate RightAt(lib: Library, logged: Slots, messages: seq<ClientMessage>, p: nat) {
    (p in logged <==> p < |messages|) && (p < |messages| ==> Matches(lib, logged[p], messages[p]))
  }

  /** A position needs a change exactly when the transcript is not right there. */
  lemma ChangedWhereWrong(lib: Library, slots: SlotList, logged: Slots, messages: seq<ClientMessage>, p: nat)
    requires Represents(slots, logged)
    ensures HasPosition(Compare(lib, slots, messages), p) <==> !RightAt(lib, logged, messages, p)
  {
    ChangesAre(lib, slots, messages);
    var cs := Compare(lib, slots, messages);
    assert p in logged <==> At(slots, p).Some?;
    if HasPosition(cs, p) {
      var i :| 0 <= i < |cs| && cs[i].pos == p;
      assert RightChange(lib, slots, messages, cs[i]);
    }
  }

  /** When the transcript shows the messages, there is nothing left to change. */
  lemma NothingToChange(lib: Library, slots: SlotList, logged: Slots, messages: seq<ClientMessage>)
    requires Represents(slots, logged)
    ensures Compare(lib, slots, messages) == [] <==> ShowsExactly(lib, logged, messages)
  {
    var cs := Compare(lib, slots, messages);
    forall x, m ensures Matches(lib, x, m) <==> SaysAs(lib, x, m) { MatchesIs(lib, x, m); }
    hide Matches, SaysAs, Compare;
    forall p: nat ensures HasPosition(cs, p) <==> !RightAt(lib, logged, messages, p) {
      ChangedWhereWrong(lib, slots, logged, messages, p);
    }
    if cs != [] { assert HasPosition(cs, cs[0].pos); }
    if cs == [] {
      forall p: nat
        ensures p in logged <==> p < |messages|
        ensures p < |messages| ==> SaysAs(lib, logged[p], messages[p])
      {
        assert !HasPosition(cs, p) && RightAt(lib, logged, messages, p);
      }
    }
  }

  ghost predicate ProperExtras(messages: seq<ClientMessage>) {
    forall p | 0 <= p < |messages| :: UniqueKeys(messages[p].extra)
  }

  /** What the log holds at `p` in the end matches: what the last event about it says, or what was there. */
  ghost predicate SettlesAt(lib: Library, cs: seq<Change>, messages: seq<ClientMessage>, p: nat)
    requires ForMessages(cs, messages)
  {
    var last := LastAt(cs, messages, p);
    LastAtIs(cs, messages, p);
    if last.None? then !HasPosition(cs, p)
    else last.value.Retracted?
         || (p < |messages| && Matches(lib, EffectiveLogged(lib, messages[last.value.pos], ""), messages[p]))
  }

  ghost predicate Settles(lib: Library, cs: seq<Change>, messages: seq<ClientMessage>)
    requires ForMessages(cs, messages)
  {
    forall p: nat :: SettlesAt(lib, cs, messages, p)
  }

  /** The log after one request: its changes, stamped by the store, behind what was there. */
  ghost predicate OneRequest(lib: Library, chat: string, messages: seq<ClientMessage>, before: seq<Event>,
      after: seq<Event>) {
    var cs := ChangesOf(lib, before, messages);
    && ForMessages(cs, messages)
    && exists first: nat, ids: seq<string>, now: string | |ids| == |cs| ::
        after == before + StampAll(ChangeEvents(lib, cs, messages), chat, first, ids, now)
  }

  lemma RequestLands(lib: Library, chat: string, messages: seq<ClientMessage>, before: seq<Event>, after: seq<Event>,
      p: nat)
    requires OneRequest(lib, chat, messages, before, after) && ProperExtras(messages)
    ensures ShownAfter(lib, TranscriptOf(before), TranscriptOf(after), ChangesOf(lib, before, messages), messages, p)
  {
    var cs := ChangesOf(lib, before, messages);
    var first: nat, ids: seq<string>, now: string :| |ids| == |cs| &&
        after == before + StampAll(ChangeEvents(lib, cs, messages), chat, first, ids, now);
    var es := StampAll(ChangeEvents(lib, cs, messages), chat, first, ids, now);
    forall i | 0 <= i < |cs| ensures CarriesOut(lib, es[i], cs[i], messages) {
      ChangeEventDoes(lib, cs[i], messages, chat, first + i, ids[i], now);
    }
    EventsLand(lib, before, es, cs, messages, p);
  }

  /** After a request the transcript is right at a position exactly when the request settles there. */
  lemma RightWhereSettled(lib: Library, chat: string, messages: seq<ClientMessage>, before: seq<Event>,
      after: seq<Event>, p: nat)
    requires OneRequest(lib, chat, messages, before, after) && ProperExtras(messages)
    ensures RightAt(lib, TranscriptOf(after), messages, p) <==>
      SettlesAt(lib, ChangesOf(lib, before, messages), messages, p)
    ensures HasPosition(ChangesOf(lib, after, messages), p) <==> !RightAt(lib, TranscriptOf(after), messages, p)
  {
    var cs := ChangesOf(lib, before, messages);
    RequestLands(lib, chat, messages, before, after, p);
    ListRepresents(before);
    ListRepresents(after);
    ChangedWhereWrong(lib, ListOf(before), TranscriptOf(before), messages, p);
    ChangedWhereWrong(lib, ListOf(after), TranscriptOf(after), messages, p);
    LastAtIs(cs, messages, p);
    ChangesAre(lib, ListOf(before), messages);
    var last := LastAt(cs, messages, p);
    if last.Some? && last.value.Retracted? {
      var i :| 0 <= i < |cs| && cs[i] == last.value;
      assert RightChange(lib, ListOf(before), messages, cs[i]);
    }
  }

  /**
   Whatever the log holds and whatever the extra fields override: the same request changes nothing more
   if and only if it settles, which its changes and extra fields tell before anything is logged.
   */
  lemma RequestSettles(lib: Library, chat: string, messages: seq<ClientMessage>, before: seq<Event>, after: seq<Event>)
    requires OneRequest(lib, chat, messages, before, after) && ProperExtras(messages)
    ensures ChangesOf(lib, after, messages) == [] <==> Settles(lib, ChangesOf(lib, before, messages), messages)
  {
    var next := ChangesOf(lib, after, messages);
    forall p: nat ensures HasPosition(next, p) <==> !SettlesAt(lib, ChangesOf(lib, before, messages), messages, p) {
      RightWhereSettled(lib, chat, messages, before, after, p);
    }
    if next != [] { assert HasPosition(next, next[0].pos); }
  }

  /** The extra fields leave every message at its position. */
  ghost predicate InPlace(messages: seq<ClientMessage>) {
    forall p: nat | p < |messages| :: EffectivePos(messages[p], p) == Some(p)
  }

  lemma LastInPlace(cs: seq<Change>, messages: seq<ClientMessage>, i: nat)
    requires ForMessages(cs, messages) && AscendingPositions(cs) && InPlace(messages) && i < |cs|
    ensures LastAt(cs, messages, cs[i].pos) == Some(cs[i])
  {
    var p := cs[i].pos;
    LastAtIs(cs, messages, p);
    assert Lands(cs[i], messages) == Some(p);
    var k :| 0 <= k < |cs| && cs[k] == LastAt(cs, messages, p).value;
    assert cs[k].pos == p;
  }

  /** Each message that the changes log is harmless. */
  ghost predicate HarmlessChanges(lib: Library, cs: seq<Change>, messages: seq<ClientMessage>)
    requires ForMessages(cs, messages)
  {
    forall i | 0 <= i < |cs| && !cs[i].Retracted? :: Harmless(lib, messages[cs[i].pos], cs[i].pos)
  }

  lemma SettlesAtChange(lib: Library, cs: seq<Change>, messages: seq<ClientMessage>, i: nat)
    requires ForMessages(cs, messages) && AscendingPositions(cs) && InPlace(messages) && i < |cs|
    ensures SettlesAt(lib, cs, messages, cs[i].pos) <==>
            cs[i].Retracted? || Harmless(lib, messages[cs[i].pos], cs[i].pos)
  {
    hide LastAt, Matches;
    LastInPlace(cs, messages, i);
  }

  lemma SettlesElsewhere(lib: Library, cs: seq<Change>, messages: seq<ClientMessage>, p: nat)
    requires ForMessages(cs, messages) && InPlace(messages) && !HasPosition(cs, p)
    ensures SettlesAt(lib, cs, messages, p)
  {
    hide LastAt;
    LastAtIs(cs, messages, p);
  }

  lemma SettlesInPlace(lib: Library, cs: seq<Change>, messages: seq<ClientMessage>)
    requires ForMessages(cs, messages) && AscendingPositions(cs) && InPlace(messages)
    ensures Settles(lib, cs, messages) <==> HarmlessChanges(lib, cs, messages)
  {
    hide SettlesAt, Harmless, AscendingPositions;
    forall i | 0 <= i < |cs|
    ensures SettlesAt(lib, cs, messages, cs[i].pos) <==>
            cs[i].Retracted? || Harmless(lib, messages[cs[i].pos], cs[i].pos)
    {
      SettlesAtChange(lib, cs, messages, i);
    }
    if HarmlessChanges(lib, cs, messages) {
      forall p: nat ensures SettlesAt(lib, cs, messages, p) {
        if HasPosition(cs, p) {
          var i :| 0 <= i < |cs| && cs[i].pos == p;
        } else {
          SettlesElsewhere(lib, cs, messages, p);
        }
      }
    }
  }

  /** With every message at its position, a request settles exactly when each message it logs is harmless. */
  lemma ExtraFieldsDecide(lib: Library, chat: string, messages: seq<ClientMessage>, before: seq<Event>,
      after: seq<Event>)
    requires OneRequest(lib, chat, messages, before, after) && ProperExtras(messages) && InPlace(messages)
    ensures ChangesOf(lib, after, messages) == [] <==> HarmlessChanges(lib, ChangesOf(lib, before, messages), messages)
  {
    RequestSettles(lib, chat, messages, before, after);
    ChangesAre(lib, ListOf(before), messages);
    SettlesInPlace(lib, ChangesOf(lib, before, messages), messages);
  }

  ghost predicate AllHarmless(lib: Library, messages: seq<ClientMessage>) {
    forall p: nat | p < |messages| :: UniqueKeys(messages[p].extra) && Harmless(lib, messages[p], p)
  }

  /**
   After the events of a request's changes follow any log, the transcript has exactly the request's
   positions, each with the message sent there, and the same request changes nothing more.
   */
  lemma RoundTrip(lib: Library, events: seq<Event>, messages: seq<ClientMessage>,
                  chat: string, first: nat, ids: seq<string>, now: string)
    requires AllHarmless(lib, messages) && |ids| == |ChangesOf(lib, events, messages)|
    ensures ForMessages(ChangesOf(lib, events, messages), messages)
    ensures var es := StampAll(ChangeEvents(lib, ChangesOf(lib, events, messages), messages), chat, first, ids, now);
      && (forall p: nat :: p in TranscriptOf(events + es) <==> p < |messages|)
      && (forall p: nat | p < |messages| ::
            var logged, m := TranscriptOf(events + es)[p], messages[p];
            Trim(logged.text) == Trim(m.text) && (SameLetters(logged.role, m.role) || IsKey(lib, m, logged.key)))
      && ChangesOf(lib, events + es, messages) == []
  {
    ChangesAre(lib, ListOf(events), messages);
    var es := StampAll(ChangeEvents(lib, ChangesOf(lib, events, messages), messages), chat, first, ids, now);
    assert OneRequest(lib, chat, messages, events, events + es);
    ExtraFieldsDecide(lib, chat, messages, events, events + es);
    ListRepresents(events + es);
    NothingToChange(lib, ListOf(events + es), TranscriptOf(events + es), messages);
  }

  // ----- a request that never settles -----

  /** No other message is put at this one's position. */
  ghost predicate Alone(messages: seq<ClientMessage>, p: nat) {
    forall q: nat | q < |messages| && EffectivePos(messages[q], q) == Some(p) :: q == p
  }

  lemma LoggedAgain(lib: Library, chat: string, messages: seq<ClientMessage>, before: seq<Event>, after: seq<Event>,
      p: nat)
    requires OneRequest(lib, chat, messages, before, after) && ProperExtras(messages)
    requires p < |messages| && Alone(messages, p) && !Harmless(lib, messages[p], p)
    requires HasPosition(ChangesOf(lib, before, messages), p)
    ensures HasPosition(ChangesOf(lib, after, messages), p)
  {
    RightWhereSettled(lib, chat, messages, before, after, p);
    ChangesAre(lib, ListOf(before), messages);
    NotSettledAt(lib, ListOf(before), messages, p);
  }

  lemma NotSettledAt(lib: Library, slots: SlotList, messages: seq<ClientMessage>, p: nat)
    requires p < |messages| && Alone(messages, p) && !Harmless(lib, messages[p], p)
    requires var cs := Compare(lib, slots, messages); ForMessages(cs, messages) && HasPosition(cs, p)
    ensures !SettlesAt(lib, Compare(lib, slots, messages), messages, p)
  {
    var cs := Compare(lib, slots, messages);
    ChangesRight(lib, slots, messages);
    LastAtIs(cs, messages, p);
    hide LastAt, Compare;
    var last := LastAt(cs, messages, p);
    if last.Some? {
      var i :| 0 <= i < |cs| && cs[i] == last.value;
      assert RightChange(lib, slots, messages, cs[i]);
    }
  }

  /** The log before and after each of several identical requests, one right behind the other. */
  ghost predicate Requests(lib: Library, chat: string, messages: seq<ClientMessage>, logs: seq<seq<Event>>) {
    forall i: nat | i + 1 < |logs| :: OneRequest(lib, chat, messages, logs[i], logs[i + 1])
  }

  /** A message that its extra fields keep from settling is logged again by every further request. */
  lemma {:induction false} EveryRequestLogsAgain(lib: Library, chat: string, messages: seq<ClientMessage>,
      logs: seq<seq<Event>>, n: nat, p: nat)
    requires Requests(lib, chat, messages, logs) && ProperExtras(messages) && n < |logs|
    requires p < |messages| && Alone(messages, p) && !Harmless(lib, messages[p], p)
    requires HasPosition(ChangesOf(lib, logs[0], messages), p)
    ensures HasPosition(ChangesOf(lib, logs[n], messages), p)
  {
    if n > 0 {
      var i: nat := n - 1;
      assert OneRequest(lib, chat, messages, logs[i], logs[i + 1]);
      hide Requests, OneRequest, ProperExtras, Alone, Harmless, HasPosition, ChangesOf;
      EveryRequestLogsAgain(lib, chat, messages, logs, i, p);
      LoggedAgain(lib, chat, messages, logs[i], logs[n], p);
    }
  }

  /** An input: one message to a new chat whose extra field gives another text than the message's own. */
  lemma OtherTextLogsAgain(lib: Library, chat: string, m: ClientMessage, text: string, logs: seq<seq<Event>>, n: nat)
    requires m.extra == [Member("text", Str(text))] && Trim(if Fits(text) then text else "") != Trim(m.text)
    requires Requests(lib, chat, [m], logs) && n < |logs| && logs[0] == []
    ensures HasPosition(ChangesOf(lib, logs[n], [m]), 0)
  {
    assert !Harmless(lib, m, 0);
    NewToEmpty(lib, [m], 0);
    EveryRequestLogsAgain(lib, chat, [m], logs, n, 0);
  }

  lemma NewToEmpty(lib: Library, messages: seq<ClientMessage>, p: nat)
    requires p < |messages|
    ensures HasPosition(ChangesOf(lib, [], messages), p)
  {
    ListRepresents([]);
    ChangedWhereWrong(lib, ListOf([]), TranscriptOf([]), messages, p);
  }

  // ----- the requests the engine makes -----

  /** Every message the engine makes of a client's: its extra fields are others than the message's own. */
  ghost predicate AllPlain(messages: seq<ClientMessage>) {
    ProperExtras(messages) && forall p | 0 <= p < |messages| :: Plain(messages[p])
  }

  lemma PlainInPlace(messages: seq<ClientMessage>)
    requires AllPlain(messages)
    ensures InPlace(messages) && forall p: nat | p < |messages| :: Alone(messages, p)
  {
    forall p: nat | p < |messages| ensures EffectivePos(messages[p], p) == Some(p) { NumberOfDecimal(p); }
  }

  /**
   For any log: the same request changes nothing more if and only if the text and the key of each message it
   logs stay.
   */
  lemma LongTextsDecide(lib: Library, chat: string, messages: seq<ClientMessage>, before: seq<Event>, after: seq<Event>)
    requires OneRequest(lib, chat, messages, before, after) && AllPlain(messages)
    ensures var cs := ChangesOf(lib, before, messages);
      ChangesOf(lib, after, messages) == [] <==>
        forall i | 0 <= i < |cs| && !cs[i].Retracted? ::
          TextStays(messages[cs[i].pos]) && KeyStays(lib, messages[cs[i].pos])
  {
    var cs := ChangesOf(lib, before, messages);
    PlainInPlace(messages);
    ExtraFieldsDecide(lib, chat, messages, before, after);
    hide TextStays, KeyStays, Harmless, ChangesOf, OneRequest, Plain, InPlace;
    forall i | 0 <= i < |cs| && !cs[i].Retracted?
      ensures Harmless(lib, messages[cs[i].pos], cs[i].pos) <==>
        TextStays(messages[cs[i].pos]) && KeyStays(lib, messages[cs[i].pos])
    {
      OtherFieldsHarmless(lib, messages[cs[i].pos], cs[i].pos);
    }
  }

  /** A new chat: a text too large for its event is logged again by every request that sends it. */
  lemma LongTextLogsAgain(lib: Library, chat: string, messages: seq<ClientMessage>, logs: seq<seq<Event>>, n: nat,
      p: nat)
    requires Requests(lib, chat, messages, logs) && n < |logs| && logs[0] == []
    requires AllPlain(messages) && p < |messages| && !TextStays(messages[p])
    ensures HasPosition(ChangesOf(lib, logs[n], messages), p)
  {
    PlainInPlace(messages);
    OtherFieldsHarmless(lib, messages[p], p);
    NewToEmpty(lib, messages, p);
    EveryRequestLogsAgain(lib, chat, messages, logs, n, p);
  }
}
