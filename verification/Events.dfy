/**
 The events of a chat's log (agents/src/memory/events.rs) and the line each one is written as.
 The kind's own fields keep the order their map iterates in.
 */
module Events {
  import opened Wrappers
  import opened Text
  import opened Json

  const EVENT_VERSION: nat := 1

  datatype Event = Event(v: nat, id: string, chat: string, seqNo: nat, ts: string, kind: string, data: seq<Member>)

  /** An event that no store has stamped yet. */
  datatype NewEvent = NewEvent(kind: string, data: seq<Member>, ts: Option<string>)

  predicate Reserved(key: string) {
    key == "v" || key == "id" || key == "chat" || key == "seq" || key == "ts" || key == "kind"
  }

  /** The fields that do not name a field of the event itself. */
  function OwnFields(ms: seq<Member>): (r: seq<Member>)
    ensures forall i | 0 <= i < |r| :: r[i] in ms && !Reserved(r[i].key)
  {
    if ms == [] then []
    else
      assert ms == [ms[0]] + ms[1..];
      (if Reserved(ms[0].key) then [] else [ms[0]]) + OwnFields(ms[1..])
  }

  // ----- large fields -----

  /** The longest text that stays in an event. */
  const BLOB_BYTES: nat := 8 * 1024

  type Blobs = map<string, string>

  /** A blob is named by the digest of its text. */
  function BlobRef(text: string): string { "sha256:" + text }

  predicate Large(v: Value) { v.Str? && |v.s| > BLOB_BYTES }

  function BlobField(text: string): Value {
    Obj([Member("blob", Str(BlobRef(text))), Member("size", Num(Decimal(|text|)))])
  }

  function Moved(v: Value): Value { if Large(v) then BlobField(v.s) else v }

  function MovedFields(ms: seq<Member>): (r: seq<Member>)
    ensures |r| == |ms| && forall i | 0 <= i < |r| :: r[i] == Member(ms[i].key, Moved(ms[i].value))
  {
    seq(|ms|, i requires 0 <= i < |ms| => Member(ms[i].key, Moved(ms[i].value)))
  }

  /** The blobs once the large ones of these fields have been moved. */
  function FieldBlobs(blobs: Blobs, ms: seq<Member>): Blobs {
    if ms == [] then blobs else
      var before, v := FieldBlobs(blobs, ms[..|ms| - 1]), ms[|ms| - 1].value;
      if Large(v) then before[BlobRef(v.s) := v.s] else before
  }

  /** The blobs once the first `k` events of an append are stamped. */
  function BlobsUpTo(blobs: Blobs, news: seq<NewEvent>, k: nat): Blobs
    requires k <= |news|
  {
    if k == 0 then blobs else FieldBlobs(BlobsUpTo(blobs, news, k - 1), OwnFields(news[k - 1].data))
  }

  function AllBlobs(blobs: Blobs, news: seq<NewEvent>): Blobs { BlobsUpTo(blobs, news, |news|) }

  lemma BlobsOneMore(blobs: Blobs, news: seq<NewEvent>, k: nat)
    requires k <= |news|
    ensures k < |news| ==>
      BlobsUpTo(blobs, news, k + 1) == FieldBlobs(BlobsUpTo(blobs, news, k), OwnFields(news[k].data))
    ensures k == 0 ==> BlobsUpTo(blobs, news, k) == blobs
    ensures k == |news| ==> BlobsUpTo(blobs, news, k) == AllBlobs(blobs, news)
  {
  }

  /** Every blob is the text it is named for. */
  ghost predicate TrueBlobs(blobs: Blobs) { forall ref | ref in blobs :: ref == BlobRef(blobs[ref]) }

  /** What was moved is the text that its reference finds. */
  ghost predicate Kept(blobs: Blobs, v: Value) { Large(v) ==> BlobRef(v.s) in blobs && blobs[BlobRef(v.s)] == v.s }

  /** Puts each large text of these fields into a blob and its reference into the field. */
  method MoveLarge(fields: seq<Member>, before: Blobs) returns (moved: seq<Member>, blobs: Blobs)
    ensures moved == MovedFields(fields) && blobs == FieldBlobs(before, fields)
  {
    moved, blobs := [], before;
    for i := 0 to |fields|
      invariant moved == MovedFields(fields)[..i]
      invariant blobs == FieldBlobs(before, fields[..i])
    {
      assert fields[..i + 1][..i] == fields[..i];
      var value := fields[i].value;
      if value.Str? && |value.s| > BLOB_BYTES {
        blobs := blobs[BlobRef(value.s) := value.s];
        value := BlobField(value.s);
      }
      moved := moved + [Member(fields[i].key, value)];
    }
    assert fields[..|fields|] == fields;
  }

  lemma RefTells(a: string, b: string)
    requires BlobRef(a) == BlobRef(b)
    ensures a == b
  {
    assert BlobRef(a)[7..] == a && BlobRef(b)[7..] == b;
  }

  lemma {:induction false} FieldBlobsKeep(blobs: Blobs, ms: seq<Member>)
    requires TrueBlobs(blobs)
    ensures var after := FieldBlobs(blobs, ms);
      && TrueBlobs(after) && (forall ref | ref in blobs :: ref in after && after[ref] == blobs[ref])
      && forall i | 0 <= i < |ms| :: Kept(after, ms[i].value)
  {
    if ms != [] {
      var front, v := ms[..|ms| - 1], ms[|ms| - 1].value;
      FieldBlobsKeep(blobs, front);
      var before, after := FieldBlobs(blobs, front), FieldBlobs(blobs, ms);
      forall ref | ref in before ensures ref in after && after[ref] == before[ref] {
        if Large(v) && ref == BlobRef(v.s) { RefTells(before[ref], v.s); }
      }
      forall i | 0 <= i < |front| ensures Kept(after, ms[i].value) { assert Kept(before, front[i].value); }
    }
  }

  /**
   No append loses a text: every field too large for its event is found by the reference in its place, and
   so is every one that was moved before.
   */
  lemma AllBlobsKeep(blobs: Blobs, news: seq<NewEvent>)
    requires TrueBlobs(blobs)
    ensures var after := AllBlobs(blobs, news);
      && TrueBlobs(after) && (forall ref | ref in blobs :: ref in after && after[ref] == blobs[ref])
      && forall i, m | 0 <= i < |news| && m in OwnFields(news[i].data) :: Kept(after, m.value)
  {
    BlobsUpToKeep(blobs, news, |news|);
  }

  lemma {:induction false} BlobsUpToKeep(blobs: Blobs, news: seq<NewEvent>, k: nat)
    requires TrueBlobs(blobs) && k <= |news|
    ensures var after := BlobsUpTo(blobs, news, k);
      && TrueBlobs(after) && (forall ref | ref in blobs :: ref in after && after[ref] == blobs[ref])
      && forall i, m | 0 <= i < k && m in OwnFields(news[i].data) :: Kept(after, m.value)
  {
    if k > 0 {
      var before, after, own := BlobsUpTo(blobs, news, k - 1), BlobsUpTo(blobs, news, k), OwnFields(news[k - 1].data);
      BlobsUpToKeep(blobs, news, k - 1);
      FieldBlobsKeep(before, own);
      hide FieldBlobs, OwnFields, BlobRef, TrueBlobs;
      forall i, m | 0 <= i < k && m in OwnFields(news[i].data) ensures Kept(after, m.value) {
        if i < k - 1 { assert Kept(before, m.value); }
      }
    }
  }

  /** The event a store makes of a new one. */
  function Stamped(n: NewEvent, chat: string, seqNo: nat, id: string, now: string): Event {
    var ts := if n.ts.Some? then n.ts.value else now;
    Event(EVENT_VERSION, id, chat, seqNo, ts, n.kind, MovedFields(OwnFields(n.data)))
  }

  /** Stamps one event, and moves its large fields into blobs. */
  method Stamp(made: NewEvent, chat: string, seqNo: nat, id: string, now: string, before: Blobs)
    returns (event: Event, blobs: Blobs)
    ensures event == Stamped(made, chat, seqNo, id, now) && event.seqNo == seqNo
    ensures blobs == FieldBlobs(before, OwnFields(made.data))
  {
    var data;
    data, blobs := MoveLarge(OwnFields(made.data), before);
    event := Event(EVENT_VERSION, id, chat, seqNo, if made.ts.Some? then made.ts.value else now, made.kind, data);
  }

  function StampAll(news: seq<NewEvent>, chat: string, first: nat, ids: seq<string>, now: string): (es: seq<Event>)
    requires |ids| == |news|
    ensures |es| == |news|
    ensures forall i | 0 <= i < |es| :: es[i] == Stamped(news[i], chat, first + i, ids[i], now)
  {
    seq(|news|, i requires 0 <= i < |news| => Stamped(news[i], chat, first + i, ids[i], now))
  }

  // ----- what a stamped event says, field by field -----

  /** A string of more than 8 KiB gives way to its reference and its length; any other value stays. */
  ghost predicate StoredAs(v: Value, stored: Value) {
    stored ==
    if v.Str? && |v.s| > 8192
    then Obj([Member("blob", Str("sha256:" + v.s)), Member("size", Num(Decimal(|v.s|)))])
    else v
  }

  predicate EventKey(key: string) { key in {"v", "id", "chat", "seq", "ts", "kind"} }

  /** These fields come from those places of the given ones, and none names a field of the event itself. */
  ghost predicate Selects(at: seq<nat>, given: seq<Member>, data: seq<Member>) {
    && |at| == |data| && (forall j, k | 0 <= j < k < |at| :: at[j] < at[k])
    && forall k | 0 <= k < |at| ::
         && at[k] < |given| && !EventKey(given[at[k]].key)
         && data[k].key == given[at[k]].key && StoredAs(given[at[k]].value, data[k].value)
  }

  /** The data is what was given, in its order, but for the event's own names; only large strings are not as given. */
  ghost predicate DataOf(given: seq<Member>, data: seq<Member>) {
    && (exists at :: Selects(at, given, data))
    && forall m | m in given && !EventKey(m.key) ::
         exists k :: 0 <= k < |data| && data[k].key == m.key && StoredAs(m.value, data[k].value)
  }

  /** What an append makes of a new event: its own time or else the clock's, and its data. */
  ghost predicate MadeOf(e: Event, n: NewEvent, chat: string, seqNo: nat, id: string, now: string) {
    && e.v == 1 && e.id == id && e.chat == chat && e.seqNo == seqNo && e.kind == n.kind
    && (if n.ts.Some? then e.ts == n.ts.value else e.ts == now)
    && DataOf(n.data, e.data)
  }

  lemma OwnFrom(ms: seq<Member>, k: nat)
    requires k <= |ms|
    ensures k == |ms| ==> OwnFields(ms[k..]) == []
    ensures k < |ms| ==>
      OwnFields(ms[k..]) == (if Reserved(ms[k].key) then [] else [ms[k]]) + OwnFields(ms[k + 1..])
  {
    if k < |ms| { assert ms[k..][0] == ms[k] && ms[k..][1..] == ms[k + 1..]; }
  }

  /** The places from `k` on of the fields that are kept. */
  lemma {:induction false} OwnPlaces(ms: seq<Member>, k: nat) returns (at: seq<nat>)
    requires k <= |ms|
    ensures var own := OwnFields(ms[k..]);
      |at| == |own| && forall j | 0 <= j < |at| :: k <= at[j] < |ms| && own[j] == ms[at[j]]
    ensures forall i, j | 0 <= i < j < |at| :: at[i] < at[j]
    decreases |ms| - k
  {
    OwnFrom(ms, k);
    hide *;
    at := [];
    if k < |ms| {
      at := OwnPlaces(ms, k + 1);
      if !Reserved(ms[k].key) { at := [k] + at; }
    }
  }

  lemma {:induction false} OwnFieldIn(ms: seq<Member>, m: Member)
    requires m in ms && !Reserved(m.key)
    ensures m in OwnFields(ms)
  {
    if ms[0] != m { OwnFieldIn(ms[1..], m); }
  }

  lemma KeysAndValues(key: string, v: Value)
    ensures Reserved(key) <==> EventKey(key)
    ensures StoredAs(v, Moved(v))
  {
  }

  lemma OwnIsData(given: seq<Member>)
    ensures DataOf(given, MovedFields(OwnFields(given)))
  {
    var own := OwnFields(given);
    var data := MovedFields(own);
    var at := OwnPlaces(given, 0);
    assert given[0..] == given;
    forall key, v ensures (Reserved(key) <==> EventKey(key)) && StoredAs(v, Moved(v)) { KeysAndValues(key, v); }
    hide OwnFields, Reserved, EventKey, StoredAs, Moved, MovedFields;
    assert Selects(at, given, data);
    forall m | m in given && !EventKey(m.key)
      ensures exists k :: 0 <= k < |data| && data[k].key == m.key && StoredAs(m.value, data[k].value)
    {
      OwnFieldIn(given, m);
      var k :| 0 <= k < |own| && own[k] == m;
      assert data[k].key == m.key;
    }
  }

  lemma StampedMeans(n: NewEvent, chat: string, seqNo: nat, id: string, now: string)
    ensures MadeOf(Stamped(n, chat, seqNo, id, now), n, chat, seqNo, id, now)
  {
    OwnIsData(n.data);
    hide DataOf, OwnFields, MovedFields;
  }

  /** The events are made of the new ones one by one, numbered from `first` on. */
  ghost predicate AllMadeOf(es: seq<Event>, news: seq<NewEvent>, chat: string, first: nat, ids: seq<string>,
      now: string) {
    |es| == |news| == |ids| && forall i | 0 <= i < |news| :: MadeOf(es[i], news[i], chat, first + i, ids[i], now)
  }

  lemma StampAllMeans(news: seq<NewEvent>, chat: string, first: nat, ids: seq<string>, now: string)
    requires |ids| == |news|
    ensures AllMadeOf(StampAll(news, chat, first, ids, now), news, chat, first, ids, now)
  {
    hide Stamped, MadeOf;
    forall i | 0 <= i < |news|
      ensures MadeOf(StampAll(news, chat, first, ids, now)[i], news[i], chat, first + i, ids[i], now)
    {
      StampedMeans(news[i], chat, first + i, ids[i], now);
    }
  }

  /** Each text of more than 8 KiB in a field that is kept is found by its reference, and so is what was before. */
  ghost predicate TextsKept(before: Blobs, news: seq<NewEvent>, after: Blobs) {
    && (forall ref | ref in before :: ref in after && after[ref] == before[ref])
    && forall i, m | 0 <= i < |news| && m in news[i].data && !EventKey(m.key) && m.value.Str? && |m.value.s| > 8192 ::
         "sha256:" + m.value.s in after && after["sha256:" + m.value.s] == m.value.s
  }

  lemma TextsAreKept(blobs: Blobs, news: seq<NewEvent>)
    requires TrueBlobs(blobs)
    ensures TextsKept(blobs, news, AllBlobs(blobs, news))
  {
    AllBlobsKeep(blobs, news);
    var after := AllBlobs(blobs, news);
    forall i, m | 0 <= i < |news| && m in news[i].data && !Reserved(m.key) ensures Kept(after, m.value) {
      OwnFieldIn(news[i].data, m);
    }
  }

  ghost predicate ValidNew(n: NewEvent) { ValidMembers(n.data) }

  ghost predicate ValidEvent(e: Event) {
    ValidMembers(e.data) && forall i | 0 <= i < |e.data| :: !Reserved(e.data[i].key)
  }

  lemma {:induction false} OwnFieldsUnique(ms: seq<Member>)
    requires ValidMembers(ms)
    ensures ValidMembers(OwnFields(ms))
    decreases |ms|
  {
    if ms != [] {
      OwnFieldsUnique(ms[1..]);
      var rest := OwnFields(ms[1..]);
      forall j | 0 <= j < |rest| ensures rest[j].key != ms[0].key {
        assert rest[j] in ms[1..];
        var k :| 0 <= k < |ms[1..]| && ms[1..][k] == rest[j];
        assert ms[k + 1] == rest[j];
      }
    }
  }

  lemma StampedValid(n: NewEvent, chat: string, seqNo: nat, id: string, now: string)
    requires ValidNew(n)
    ensures ValidEvent(Stamped(n, chat, seqNo, id, now))
  {
    OwnFieldsUnique(n.data);
    var own := OwnFields(n.data);
    forall i | 0 <= i < |own| ensures Valid(Moved(own[i].value)) { MovedValid(own[i].value); }
  }

  lemma MovedValid(v: Value)
    requires Valid(v)
    ensures Valid(Moved(v))
  {
    if Large(v) { DecimalToken(|v.s|); }
  }

  // ----- the line of an event -----

  function Header(e: Event): seq<Member> {
    [ Member("v", Num(Decimal(e.v))),
      Member("id", Str(e.id)),
      Member("chat", Str(e.chat)),
      Member("seq", Num(Decimal(e.seqNo))),
      Member("ts", Str(e.ts)),
      Member("kind", Str(e.kind)) ]
  }

  function EventJson(e: Event): Value { Obj(Header(e) + e.data) }

  function Line(e: Event): string { Print(EventJson(e)) }

  function Get(ms: seq<Member>, key: string): Option<Value> {
    if ms == [] then None
    else if ms[0].key == key then Some(ms[0].value)
    else Get(ms[1..], key)
  }

  function AsNat(v: Option<Value>): Option<nat> {
    if v.Some? && v.value.Num? then ParseNat(v.value.token) else None
  }

  function AsStr(v: Option<Value>): Option<string> {
    if v.Some? && v.value.Str? then Some(v.value.s) else None
  }

  /** The event in an object: every field of the event itself must be there, the others are its data. */
  function FromMembers(ms: seq<Member>): Option<Event> {
    var v, id, chat := AsNat(Get(ms, "v")), AsStr(Get(ms, "id")), AsStr(Get(ms, "chat"));
    var seqNo, ts, kind := AsNat(Get(ms, "seq")), AsStr(Get(ms, "ts")), AsStr(Get(ms, "kind"));
    if v.Some? && id.Some? && chat.Some? && seqNo.Some? && ts.Some? && kind.Some?
    then Some(Event(v.value, id.value, chat.value, seqNo.value, ts.value, kind.value, OwnFields(ms)))
    else None
  }

  /** The event a line holds, if it holds one. */
  function Decode(line: string): Option<Event> {
    match Parse(line)
    case Done(Obj(ms), rest) => if rest == [] then FromMembers(ms) else None
    case _ => None
  }

  lemma DecimalToken(n: nat)
    ensures Token(Decimal(n))
  {
  }

  lemma EventJsonValid(e: Event)
    requires ValidEvent(e)
    ensures Valid(EventJson(e))
  {
    DecimalToken(e.v);
    DecimalToken(e.seqNo);
    var h := Header(e);
    assert UniqueKeys(h);
    forall i, j | 0 <= i < j < |h + e.data| ensures (h + e.data)[i].key != (h + e.data)[j].key {
      if i < |h| <= j { assert Reserved(h[i].key); }
    }
  }

  lemma {:induction false} OwnFieldsKept(ms: seq<Member>)
    requires forall i | 0 <= i < |ms| :: !Reserved(ms[i].key)
    ensures OwnFields(ms) == ms
  {
    if ms != [] {
      OwnFieldsKept(ms[1..]);
      assert ms == [ms[0]] + ms[1..];
    }
  }

  lemma {:induction false} OwnFieldsSkip(h: seq<Member>, ms: seq<Member>)
    requires forall i | 0 <= i < |h| :: Reserved(h[i].key)
    ensures OwnFields(h + ms) == OwnFields(ms)
  {
    if h == [] {
      assert h + ms == ms;
    } else {
      assert (h + ms)[1..] == h[1..] + ms;
      OwnFieldsSkip(h[1..], ms);
    }
  }

  lemma {:induction false} GetAt(ms: seq<Member>, i: nat)
    requires i < |ms| && forall j | 0 <= j < i :: ms[j].key != ms[i].key
    ensures Get(ms, ms[i].key) == Some(ms[i].value)
  {
    if i > 0 { GetAt(ms[1..], i - 1); }
  }

  lemma HeaderField(e: Event, i: nat, m: Member)
    requires i < 6 && Header(e)[i] == m
    ensures Get(Header(e) + e.data, m.key) == Some(m.value)
  {
    var h := Header(e);
    assert UniqueKeys(h);
    GetAt(h + e.data, i);
  }

  lemma FieldsMakeEvent(ms: seq<Member>, e: Event)
    requires Get(ms, "v") == Some(Num(Decimal(e.v))) && Get(ms, "seq") == Some(Num(Decimal(e.seqNo)))
    requires Get(ms, "id") == Some(Str(e.id)) && Get(ms, "chat") == Some(Str(e.chat))
    requires Get(ms, "ts") == Some(Str(e.ts)) && Get(ms, "kind") == Some(Str(e.kind))
    requires OwnFields(ms) == e.data
    ensures FromMembers(ms) == Some(e)
  {
    NumberOfDecimal(e.v);
    NumberOfDecimal(e.seqNo);
  }

  lemma HeaderRead(e: Event)
    requires ValidEvent(e)
    ensures FromMembers(Header(e) + e.data) == Some(e)
  {
    HeaderField(e, 0, Member("v", Num(Decimal(e.v))));
    HeaderField(e, 1, Member("id", Str(e.id)));
    HeaderField(e, 2, Member("chat", Str(e.chat)));
    HeaderField(e, 3, Member("seq", Num(Decimal(e.seqNo))));
    HeaderField(e, 4, Member("ts", Str(e.ts)));
    HeaderField(e, 5, Member("kind", Str(e.kind)));
    OwnFieldsSkip(Header(e), e.data);
    OwnFieldsKept(e.data);
    FieldsMakeEvent(Header(e) + e.data, e);
  }

  /** Reading an event's line gives the event back. */
  lemma DecodeLine(e: Event)
    requires ValidEvent(e)
    ensures Decode(Line(e)) == Some(e)
  {
    EventJsonValid(e);
    ParsePrint(EventJson(e), []);
    assert Line(e) + [] == Line(e);
    HeaderRead(e);
  }

  /** An event's line is one JSON object: the event's own fields, and then its data. */
  lemma LineFields(e: Event)
    requires ValidEvent(e)
    ensures Parse(Line(e)) == Done(Obj([
      Member("v", Num(Decimal(e.v))), Member("id", Str(e.id)), Member("chat", Str(e.chat)),
      Member("seq", Num(Decimal(e.seqNo))), Member("ts", Str(e.ts)), Member("kind", Str(e.kind)) ] + e.data), "")
  {
    EventJsonValid(e);
    ParsePrint(EventJson(e), []);
    assert Line(e) + [] == Line(e);
  }

  /** A line cut short holds no event. */
  lemma CutLineUnreadable(e: Event, k: nat)
    requires ValidEvent(e) && k < |Line(e)|
    ensures Decode(Line(e)[..k]) == None
  {
    EventJsonValid(e);
    PrefixUnreadable(Header(e) + e.data, k);
  }

  /** An event's line holds no line break, and it is not blank. */
  lemma LineShape(e: Event)
    requires ValidEvent(e)
    ensures Line(e) != [] && Line(e)[0] == '{'
    ensures forall i | 0 <= i < |Line(e)| :: Line(e)[i] != '\n'
  {
    EventJsonValid(e);
    PrintPrintable(EventJson(e));
    PrintStarts(EventJson(e));
  }
}
