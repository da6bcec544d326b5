/**
 Runs of operations on the notes file (agents/src/memory/notes.rs): what each one makes of the file and the
 number beside it, and what holds whatever comes after.
 */
module NoteRuns {
  import opened Wrappers
  import opened Notes

  /** The notes of the file, and the number kept beside it. */
  datatype File = File(notes: seq<Note>, seqNo: nat) {
    predicate Valid() { Ascending(notes) && UpTo(notes, seqNo) }

    function NextId(): nat { Highest(notes, seqNo) + 1 }
  }

  datatype Op =
    | Add(text: string, scope: string, owner: Option<string>, status: Status, pinned: bool, author: string,
          sources: seq<string>, extra: Extra)
    | Replace(id: nat, text: string, status: Status, author: string, sources: seq<string>)
    | Forget(id: nat, status: Status, author: string)
    | ProposeForFact(text: string, scope: string, owner: Option<string>, fact: string, forget: bool,
                     sources: seq<string>, extra: Extra)
    | MarkMoved(id: nat, path: string)
    | Update(id: nat, change: Option<Status>, pin: Option<bool>)

  /** The note an operation adds, if it adds one. */
  function Added(f: File, op: Op, now: nat): Option<Note> {
    match op
    case Add(text, scope, owner, status, pinned, author, sources, extra) =>
      Some(NewNote(f.NextId(), text, scope, owner, status, pinned, author, sources, extra, now))
    case Replace(id, text, status, author, sources) =>
      if !IsNamedLive(f.notes, id) then None
      else Some(Successor(Named(f.notes, id).value, f.NextId(), text, status, author, sources, now))
    case Forget(id, status, author) =>
      if !IsNamedLive(f.notes, id) || !status.Proposed? then None
      else Some(ForgetProposal(Named(f.notes, id).value, f.NextId(), author, now))
    case ProposeForFact(text, scope, owner, fact, forget, sources, extra) =>
      Some(FactProposal(f.NextId(), text, scope, owner, fact, forget, sources, extra, now))
    case MarkMoved(_, _) => None
    case Update(_, _, _) => None
  }

  /** Whether the operation finds the note it names. */
  predicate Finds(f: File, op: Op) {
    match op
    case Replace(id, _, _, _, _) => IsNamedLive(f.notes, id)
    case Forget(id, _, _) => IsNamedLive(f.notes, id)
    case MarkMoved(id, _) => Named(f.notes, id).Some?
    case Update(id, _, _) => Named(f.notes, id).Some?
    case _ => true
  }

  /** The note put in the place of the one of its number. */
  function Put(notes: seq<Note>, n: Note): seq<Note> {
    var at := Find(notes, n.id);
    if at < |notes| then notes[at := n] else notes
  }

  /** The note a confirmed proposal names is retired. */
  function Settled(notes: seq<Note>, target: Option<Note>, forget: bool, now: nat): seq<Note> {
    if target.None? then notes else Put(notes, Retired(target.value, if forget then Invalidated else Superseded, now))
  }

  /** The notes there were, after the operation. */
  function Changed(f: File, op: Op, now: nat): seq<Note>
    requires Finds(f, op)
  {
    match op
    case Replace(id, _, status, _, _) =>
      if status.Proposed? then f.notes else Put(f.notes, Retired(Named(f.notes, id).value, Superseded, now))
    case Forget(id, status, _) =>
      if status.Proposed? then f.notes else Put(f.notes, Retired(Named(f.notes, id).value, Invalidated, now))
    case MarkMoved(id, path) => Put(f.notes, MovedTo(Named(f.notes, id).value, path, now))
    case Update(id, status, pinned) =>
      var n := Named(f.notes, id).value;
      var target := ConfirmTarget(f.notes, n, status);
      Put(Settled(f.notes, target, n.forget, now), UpdatedNote(n, target, status, pinned, now))
    case _ => f.notes
  }

  /** What a write leaves. */
  function Written(notes: seq<Note>, seqNo: nat, days: nat, now: nat): File {
    var kept := Retain(notes, days, now);
    File(kept, Highest(kept, seqNo))
  }

  function After(f: File, op: Op, days: nat, now: nat): File {
    if !Finds(f, op) then f
    else
      var added := Added(f, op, now);
      Written(Changed(f, op, now) + (if added.Some? then [added.value] else []), f.seqNo, days, now)
  }

  datatype Event = Event(op: Op, days: nat, at: nat)

  function Run(f: File, events: seq<Event>): File {
    if events == [] then f else
      var last := events[|events| - 1];
      After(Run(f, events[..|events| - 1]), last.op, last.days, last.at)
  }

  // ----- every operation keeps the file in order -----

  lemma PutKeeps(notes: seq<Note>, n: Note)
    requires Ascending(notes)
    ensures Ascending(Put(notes, n)) && (forall bound: nat :: UpTo(notes, bound) ==> UpTo(Put(notes, n), bound))
    ensures forall x | x in notes && x.id != n.id :: x in Put(notes, n)
    ensures forall x | x in Put(notes, n) :: x in notes || x == n
    ensures Named(notes, n.id).Some? ==> n in Put(notes, n)
  {
    var at := Find(notes, n.id);
    if at < |notes| {
      ReplacedAt(notes, at, n);
      ReplacedBound(notes, at, n);
      forall x ensures x in Put(notes, n) <==> (x in notes && x != notes[at]) || x == n {
        assert x in SetOf(Put(notes, n)) <==> x in Put(notes, n);
        assert x in SetOf(notes) <==> x in notes;
      }
    }
  }

  /** What a write leaves of an orderly list, with the number beside it. */
  lemma WrittenIs(notes: seq<Note>, seqNo: nat, days: nat, now: nat)
    requires Ascending(notes)
    ensures var f := Written(notes, seqNo, days, now);
      && f.Valid() && f.seqNo >= seqNo && (forall n :: n in f.notes <==> n in notes && Survives(n, days, now))
      && (UpTo(notes, seqNo) ==> f.seqNo == seqNo)
  {
    RetainIs(notes, days, now);
    RetainKeeps(notes, days, now);
    HighestBounds(Retain(notes, days, now));
  }

  /** Writing a new note under the next number makes that the number beside the file, unless the write drops it. */
  lemma PushedNumber(notes: seq<Note>, seqNo: nat, n: Note, days: nat, now: nat)
    requires Ascending(notes) && UpTo(notes, seqNo) && n.id == seqNo + 1 && n.updatedAt == now && n.invalidAt.None?
    ensures Written(notes + [n], seqNo, days, now).Valid()
    ensures Written(notes + [n], seqNo, days, now).seqNo == if IsDead(n) && days == 0 then seqNo else n.id
  {
    PushedLast(notes, n);
    WrittenIs(notes + [n], seqNo, days, now);
    HighestBounds(Retain(notes + [n], days, now));
    assert Survives(n, days, now) <==> !(IsDead(n) && days == 0);
    assert n in notes + [n];
  }

  lemma NextIdIs(f: File)
    requires f.Valid()
    ensures f.NextId() == f.seqNo + 1
  {
    HighestBounds(f.notes);
  }

  lemma SettledKeeps(notes: seq<Note>, target: Option<Note>, forget: bool, now: nat)
    requires Ascending(notes)
    ensures var settled := Settled(notes, target, forget, now);
      && Ascending(settled) && (forall bound: nat :: UpTo(notes, bound) ==> UpTo(settled, bound))
      && forall x | x in notes && (target.None? || x.id != target.value.id) :: x in settled
  {
    if target.Some? { PutKeeps(notes, Retired(target.value, if forget then Invalidated else Superseded, now)); }
  }

  lemma ChangedKeeps(f: File, op: Op, now: nat)
    requires f.Valid() && Finds(f, op)
    ensures Ascending(Changed(f, op, now)) && UpTo(Changed(f, op, now), f.seqNo)
  {
    match op
    case Replace(id, _, _, _, _) => PutKeeps(f.notes, Retired(Named(f.notes, id).value, Superseded, now));
    case Forget(id, _, _) => PutKeeps(f.notes, Retired(Named(f.notes, id).value, Invalidated, now));
    case MarkMoved(id, path) => PutKeeps(f.notes, MovedTo(Named(f.notes, id).value, path, now));
    case Update(id, status, pinned) =>
      var n := Named(f.notes, id).value;
      var target := ConfirmTarget(f.notes, n, status);
      SettledKeeps(f.notes, target, n.forget, now);
      PutKeeps(Settled(f.notes, target, n.forget, now), UpdatedNote(n, target, status, pinned, now));
    case _ =>
  }

  /** The number beside the file grows by one with each note added, unless it is dead from the start with no history. */
  predicate TakesNumber(f: File, e: Event) {
    Finds(f, e.op) && Added(f, e.op, e.at).Some? && !(IsDead(Added(f, e.op, e.at).value) && e.days == 0)
  }

  lemma AfterKeeps(f: File, e: Event)
    requires f.Valid()
    ensures After(f, e.op, e.days, e.at).Valid()
    ensures After(f, e.op, e.days, e.at).seqNo == f.seqNo + (if TakesNumber(f, e) then 1 else 0)
  {
    if Finds(f, e.op) {
      hide Changed, Ascending, Written, Find, UpTo;
      var changed, added := Changed(f, e.op, e.at), Added(f, e.op, e.at);
      ChangedKeeps(f, e.op, e.at);
      NextIdIs(f);
      if added.Some? {
        PushedNumber(changed, f.seqNo, added.value, e.days, e.at);
      } else {
        assert changed + [] == changed;
        WrittenIs(changed, f.seqNo, e.days, e.at);
      }
    }
  }

  // ----- numbers -----

  lemma RunKeeps(f: File, events: seq<Event>)
    requires f.Valid()
    ensures Run(f, events).Valid() && Run(f, events).seqNo >= f.seqNo
  {
    if events != [] {
      RunKeeps(f, events[..|events| - 1]);
      AfterKeeps(Run(f, events[..|events| - 1]), events[|events| - 1]);
    }
  }

  /**
   The next number is the same at two points of a run if and only if no operation between them added a
   note, but for notes that were dead from the start with no history kept: only those give theirs back.
   */
  lemma NumberGivenAgain(f: File, events: seq<Event>, i: nat)
    requires f.Valid() && i <= |events|
    ensures Run(f, events).NextId() >= Run(f, events[..i]).NextId()
    ensures Run(f, events).NextId() == Run(f, events[..i]).NextId() <==>
      forall k | i <= k < |events| :: !TakesNumber(Run(f, events[..k]), events[k])
  {
    hide Run, TakesNumber, File.Valid;
    RunKeeps(f, events);
    RunKeeps(f, events[..i]);
    NextIdIs(Run(f, events));
    NextIdIs(Run(f, events[..i]));
    SeqNoGrows(f, events, i);
  }

  lemma {:induction false} SeqNoGrows(f: File, events: seq<Event>, i: nat)
    requires f.Valid() && i <= |events|
    ensures Run(f, events).seqNo >= Run(f, events[..i]).seqNo
    ensures Run(f, events).seqNo == Run(f, events[..i]).seqNo <==>
      forall k | i <= k < |events| :: !TakesNumber(Run(f, events[..k]), events[k])
  {
    hide After, TakesNumber, File.Valid;
    if i == |events| {
      assert events[..i] == events;
    } else {
      var n := |events| - 1;
      var front := events[..n];
      SeqNoGrows(f, front, i);
      RunKeeps(f, front);
      AfterKeeps(Run(f, front), events[n]);
      assert front[..i] == events[..i];
      forall k | i <= k < n ensures front[..k] == events[..k] && front[k] == events[k] {}
    }
  }

  /** Two notes in a row added dead to a file without history get the same number. */
  lemma NumberGivenTwice(f: File, op: Op, days: nat, at: nat)
    requires f.Valid() && op.Add? && DeadStatus(op.status) && days == 0
    ensures var after := After(f, op, days, at);
      after.Valid() && Added(after, op, at).value.id == Added(f, op, at).value.id == f.seqNo + 1
  {
    AfterKeeps(f, Event(op, days, at));
    NextIdIs(f);
    NextIdIs(After(f, op, days, at));
  }

  // ----- proposals to forget -----

  /** The note is live in the list. */
  ghost predicate LiveIn(notes: seq<Note>, id: nat) { exists t :: t in notes && t.id == id && IsLive(t) }

  /** The note is gone from the list, or dead in it. */
  ghost predicate Ended(notes: seq<Note>, id: nat) { forall x | x in notes && x.id == id :: IsDead(x) }

  predicate ProposesToForget(n: Note) { n.status.Proposed? && n.forget && !AboutFact(n) }

  /** A proposal to forget that names nothing any more. */
  predicate Orphan(n: Note) { n.status.Proposed? && n.forget && n.about.None? }

  ghost predicate HasOrphan(notes: seq<Note>, id: nat) { exists n :: n in notes && n.id == id && Orphan(n) }

  lemma TargetIs(notes: seq<Note>, n: Note, status: Option<Status>)
    requires Ascending(notes)
    ensures var target := ConfirmTarget(notes, n, status);
      && (target.Some? <==>
            && n.status.Proposed? && IsLiveWord(status)
            && n.about.Some? && n.about.value.OfNote? && LiveIn(notes, n.about.value.id))
      && (target.Some? ==> target.value in notes && IsLive(target.value) && Named(notes, target.value.id) == target)
  {
    if n.about.Some? && n.about.value.OfNote? { NamedIs(notes, n.about.value.id); }
  }

  /** Confirming a proposal to forget a note ends it if and only if the note is live; else it is left an orphan. */
  lemma ConfirmedForget(f: File, id: nat, status: Status, pinned: Option<bool>, days: nat, now: nat)
    requires f.Valid() && Named(f.notes, id).Some? && LiveStatus(status) && ProposesToForget(Named(f.notes, id).value)
    ensures var n, after := Named(f.notes, id).value, After(f, Update(id, Some(status), pinned), days, now).notes;
      && (Ended(after, id) <==> n.about.Some? && LiveIn(f.notes, n.about.value.id))
      && (HasOrphan(after, id) <==> !Ended(after, id))
  {
    var op := Update(id, Some(status), pinned);
    var n := Named(f.notes, id).value;
    var target := ConfirmTarget(f.notes, n, Some(status));
    var u := UpdatedNote(n, target, Some(status), pinned, now);
    NamedIs(f.notes, id);
    if n.about.Some? { NamedIs(f.notes, n.about.value.id); }
    assert target.Some? <==> n.about.Some? && LiveIn(f.notes, n.about.value.id);
    UpdatedIn(f, id, Some(status), pinned, days, now);
  }

  /** After an update the note of that number is the updated one, if the write keeps it. */
  lemma UpdatedIn(f: File, id: nat, status: Option<Status>, pinned: Option<bool>, days: nat, now: nat)
    requires f.Valid() && Named(f.notes, id).Some?
    ensures var n := Named(f.notes, id).value;
      var u := UpdatedNote(n, ConfirmTarget(f.notes, n, status), status, pinned, now);
      forall x: Note | x.id == id ::
        x in After(f, Update(id, status, pinned), days, now).notes <==> x == u && Survives(u, days, now)
  {
    var op, n := Update(id, status, pinned), Named(f.notes, id).value;
    var u := UpdatedNote(n, ConfirmTarget(f.notes, n, status), status, pinned, now);
    var changed := Changed(f, op, now);
    hide Changed, UpdatedNote, ConfirmTarget, Named, Written, Survives, Ascending, UpTo;
    NamedIs(f.notes, id);
    UpdatedId(n, ConfirmTarget(f.notes, n, status), status, pinned, now);
    UpdatedPut(f, n, status, pinned, now);
    ChangedKeeps(f, op, now);
    assert changed + [] == changed;
    WrittenIs(changed, f.seqNo, days, now);
    NamedIs(changed, id);
  }

  lemma UpdatedPut(f: File, n: Note, status: Option<Status>, pinned: Option<bool>, now: nat)
    requires f.Valid() && Named(f.notes, n.id) == Some(n)
    ensures UpdatedNote(n, ConfirmTarget(f.notes, n, status), status, pinned, now)
      in Changed(f, Update(n.id, status, pinned), now)
  {
    hide UpdatedNote, ConfirmTarget, Settled, Put, Named, UpTo, Ascending;
    var target := ConfirmTarget(f.notes, n, status);
    var u := UpdatedNote(n, target, status, pinned, now);
    var settled := Settled(f.notes, target, n.forget, now);
    UpdatedId(n, target, status, pinned, now);
    assert n in settled && Ascending(settled) by {
      NamedIs(f.notes, n.id);
      TargetIs(f.notes, n, status);
      SettledKeeps(f.notes, target, n.forget, now);
    }
    assert u in Put(settled, u) by {
      NamedIs(settled, n.id);
      PutKeeps(settled, u);
    }
  }

  lemma UpdatedId(n: Note, target: Option<Note>, status: Option<Status>, pinned: Option<bool>, now: nat)
    ensures UpdatedNote(n, target, status, pinned, now).id == n.id
  {
  }

  /** A note that is neither live nor dead is left alone by every operation that does not name it. */
  lemma LeftAlone(f: File, op: Op, x: Note, days: nat, now: nat)
    requires f.Valid() && x in f.notes && !IsLive(x) && !IsDead(x)
    requires (op.MarkMoved? || op.Update?) ==> op.id != x.id
    ensures x in After(f, op, days, now).notes
  {
    if Finds(f, op) {
      ChangedHas(f, op, x, now);
      AfterHas(f, op, x, days, now);
    }
  }

  lemma ChangedHas(f: File, op: Op, x: Note, now: nat)
    requires f.Valid() && x in f.notes && !IsLive(x) && Finds(f, op)
    requires (op.MarkMoved? || op.Update?) ==> op.id != x.id
    ensures x in Changed(f, op, now)
  {
    hide Put, Find, Named, ConfirmTarget, Ascending, UpTo;
    NamedIs(f.notes, x.id);
    match op
    case Replace(id, _, _, _, _) =>
      NamedIs(f.notes, id);
      PutKeeps(f.notes, Retired(Named(f.notes, id).value, Superseded, now));
    case Forget(id, _, _) =>
      NamedIs(f.notes, id);
      PutKeeps(f.notes, Retired(Named(f.notes, id).value, Invalidated, now));
    case MarkMoved(id, path) =>
      NamedIs(f.notes, id);
      PutKeeps(f.notes, MovedTo(Named(f.notes, id).value, path, now));
    case Update(id, status, pinned) =>
      var n := Named(f.notes, id).value;
      var target := ConfirmTarget(f.notes, n, status);
      NamedIs(f.notes, id);
      TargetIs(f.notes, n, status);
      SettledKeeps(f.notes, target, n.forget, now);
      PutKeeps(Settled(f.notes, target, n.forget, now), UpdatedNote(n, target, status, pinned, now));
    case _ =>
  }

  lemma AfterHas(f: File, op: Op, x: Note, days: nat, now: nat)
    requires f.Valid() && Finds(f, op)
    ensures Survives(x, days, now) && x in Changed(f, op, now) ==> x in After(f, op, days, now).notes
    ensures x in After(f, op, days, now).notes ==> x in Changed(f, op, now) || Added(f, op, now) == Some(x)
  {
    var changed, added := Changed(f, op, now), Added(f, op, now);
    var written := changed + (if added.Some? then [added.value] else []);
    RetainKeeps(written, days, now);
  }

  /** The operations that end an orphan: it is given another status that is not a confirmation, or marked as moved. */
  predicate EndsOrphan(op: Op, id: nat) {
    || (op.MarkMoved? && op.id == id)
    || (op.Update? && op.id == id && op.change.Some? && !LiveStatus(op.change.value) && !op.change.value.Proposed?)
  }

  lemma OrphanStep(f: File, e: Event, id: nat)
    requires f.Valid() && HasOrphan(f.notes, id)
    ensures HasOrphan(After(f, e.op, e.days, e.at).notes, id) <==> !EndsOrphan(e.op, id)
  {
    hide After, Named, Find, File.Valid, Ascending;
    var n :| n in f.notes && n.id == id && Orphan(n);
    NamedOf(f, n);
    if e.op.Update? && e.op.id == id {
      UpdatedIn(f, id, e.op.change, e.op.pin, e.days, e.at);
      OrphanUpdated(f.notes, n, e.op.change, e.op.pin, e.at);
    } else if e.op.MarkMoved? && e.op.id == id {
      MovedEnds(f, id, e.op.path, e.days, e.at);
    } else {
      LeftAlone(f, e.op, n, e.days, e.at);
    }
  }

  lemma NamedOf(f: File, n: Note)
    requires f.Valid() && n in f.notes
    ensures Named(f.notes, n.id) == Some(n)
  {
    NamedIs(f.notes, n.id);
  }

  lemma OrphanUpdated(notes: seq<Note>, n: Note, status: Option<Status>, pinned: Option<bool>, now: nat)
    requires Orphan(n)
    ensures var u := UpdatedNote(n, ConfirmTarget(notes, n, status), status, pinned, now);
      Orphan(u) <==> status.None? || LiveStatus(status.value) || status.value.Proposed?
  {
  }

  lemma MovedEnds(f: File, id: nat, path: string, days: nat, now: nat)
    requires f.Valid() && Named(f.notes, id).Some?
    ensures Ended(After(f, MarkMoved(id, path), days, now).notes, id)
  {
    var op, moved := MarkMoved(id, path), MovedTo(Named(f.notes, id).value, path, now);
    PutKeeps(f.notes, moved);
    NamedIs(Put(f.notes, moved), id);
    forall x | x in After(f, op, days, now).notes && x.id == id ensures IsDead(x) {
      AfterHas(f, op, x, days, now);
    }
  }

  /**
   An orphan stays proposed through any run in which it is not turned down or marked as moved: no
   confirmation ends it, and neither does anything done to other notes.
   */
  lemma {:induction false} OrphanStays(f: File, events: seq<Event>, id: nat)
    requires f.Valid() && HasOrphan(f.notes, id)
    requires forall i | 0 <= i < |events| :: !EndsOrphan(events[i].op, id)
    ensures HasOrphan(Run(f, events).notes, id)
  {
    if events != [] {
      var front := events[..|events| - 1];
      OrphanStays(f, front, id);
      RunKeeps(f, front);
      OrphanStep(Run(f, front), events[|events| - 1], id);
    }
  }

  lemma RunOfFour(f: File, a: Event, b: Event, c: Event, d: Event)
    ensures Run(f, [a, b, c, d]) ==
      After(After(After(After(f, a.op, a.days, a.at), b.op, b.days, b.at), c.op, c.days, c.at), d.op, d.days, d.at)
  {
    hide After;
    assert [a][..0] == [] && [a, b][..1] == [a] && [a, b, c][..2] == [a, b] && [a, b, c, d][..3] == [a, b, c];
    assert Run(f, []) == f;
    assert Run(f, [a]) == After(f, a.op, a.days, a.at);
    assert Run(f, [a, b]) == After(Run(f, [a]), b.op, b.days, b.at);
    assert Run(f, [a, b, c]) == After(Run(f, [a, b]), c.op, c.days, c.at);
  }

  /** A note is added, proposed to be forgotten, and forgotten at once; then the proposal is confirmed. */
  function OrphanMaking(add: Op, author: string, status: Status, days: nat, at: nat): seq<Event>
    requires add.Add?
  {
    [ Event(add, days, at), Event(Forget(1, Proposed, author), days, at), Event(Forget(1, Confirmed, author), days, at),
      Event(Update(2, Some(status), None), days, at) ]
  }

  /** From the empty file this leaves the proposal an orphan. */
  lemma OrphanReached(add: Op, author: string, status: Status, days: nat, at: nat)
    requires add.Add? && LiveStatus(add.status) && LiveStatus(status)
    ensures HasOrphan(Run(File([], 0), OrphanMaking(add, author, status, days, at)).notes, 2)
  {
    var es, n := OrphanMaking(add, author, status, days, at), Added(File([], 0), add, at).value;
    RunOfFour(File([], 0), es[0], es[1], es[2], es[3]);
    AddedToEmpty(add, days, at);
    ProposedAfter(n, author, days, at);
    ForgottenAfter(n, author, days, at);
    DeadConfirmed(n, author, status, days, at);
  }

  lemma DeadConfirmed(n: Note, author: string, status: Status, days: nat, at: nat)
    requires n.id == 1 && IsLive(n) && LiveStatus(status)
    ensures var p := ForgetProposal(n, 2, author, at);
      var f := After(File([n, p], 2), Forget(1, Confirmed, author), days, at);
      HasOrphan(After(f, Update(2, Some(status), None), days, at).notes, 2)
  {
    var p := ForgetProposal(n, 2, author, at);
    var f := After(File([n, p], 2), Forget(1, Confirmed, author), days, at);
    ForgottenAfter(n, author, days, at);
    hide After;
    NamedOf(f, p);
    ConfirmedForget(f, 2, status, None, days, at);
  }

  lemma AddedToEmpty(add: Op, days: nat, at: nat)
    requires add.Add? && LiveStatus(add.status)
    ensures Added(File([], 0), add, at).value.id == 1
    ensures After(File([], 0), add, days, at) == File([Added(File([], 0), add, at).value], 1)
  {
    var n := Added(File([], 0), add, at).value;
    assert [] + [n] == [n];
    RetainOne([], n, days, at);
  }

  lemma RetainOne(notes: seq<Note>, n: Note, days: nat, now: nat)
    ensures Retain(notes + [n], days, now) == Retain(notes, days, now) + (if Survives(n, days, now) then [n] else [])
    ensures HighestIn(notes + [n]) == if HighestIn(notes) <= n.id then n.id else HighestIn(notes)
  {
    assert (notes + [n])[..|notes|] == notes;
  }

  lemma ProposedAfter(n: Note, author: string, days: nat, at: nat)
    requires n.id == 1 && IsLive(n)
    ensures After(File([n], 1), Forget(1, Proposed, author), days, at) == File([n, ForgetProposal(n, 2, author, at)], 2)
  {
    var p := ForgetProposal(n, 2, author, at);
    assert p.id == 2 && !IsDead(p) && !IsDead(n);
    ProposedIs(n, author, days, at);
    hide After, ForgetProposal, IsDead, IsLive;
    assert [n] + [p] == [n, p] && [] + [n] == [n];
    RetainOne([], n, days, at);
    RetainOne([n], p, days, at);
  }

  lemma ProposedIs(n: Note, author: string, days: nat, at: nat)
    requires n.id == 1 && IsLive(n)
    ensures After(File([n], 1), Forget(1, Proposed, author), days, at)
      == Written([n] + [ForgetProposal(n, 2, author, at)], 1, days, at)
  {
    var f := File([n], 1);
    NextIdIs(f);
    assert Find([n], 1) == 0;
    hide Written, File.NextId, Find, ForgetProposal, Retired, IsLive;
    assert IsNamedLive(f.notes, 1);
  }

  /** The note is not live any more, and the proposal to forget it is still there. */
  lemma ForgottenAfter(n: Note, author: string, days: nat, at: nat)
    requires n.id == 1 && IsLive(n)
    ensures var p := ForgetProposal(n, 2, author, at);
      var f := After(File([n, p], 2), Forget(1, Confirmed, author), days, at);
      f.Valid() && p in f.notes && !LiveIn(f.notes, 1)
  {
    var p, gone := ForgetProposal(n, 2, author, at), Retired(n, Invalidated, at);
    assert gone.id == 1 && p.id == 2 && !IsLive(gone) && !IsDead(p);
    hide After, Written, ForgetProposal, Retired, LiveIn, File.Valid, IsLive, IsDead;
    ForgottenIs(n, p, author, days, at);
    DeadAndNot(gone, p, days, at);
  }

  lemma DeadAndNot(gone: Note, p: Note, days: nat, at: nat)
    requires gone.id == 1 && p.id == 2 && !IsLive(gone) && !IsDead(p)
    ensures var f := Written([gone, p], 2, days, at); f.Valid() && p in f.notes && !LiveIn(f.notes, 1)
  {
    WrittenIs([gone, p], 2, days, at);
    hide Written;
    assert p == [gone, p][1];
  }

  lemma ForgottenIs(n: Note, p: Note, author: string, days: nat, at: nat)
    requires n.id == 1 && IsLive(n)
    ensures After(File([n, p], 2), Forget(1, Confirmed, author), days, at)
      == Written([Retired(n, Invalidated, at), p], 2, days, at)
  {
    hide Written;
    var gone := Retired(n, Invalidated, at);
    assert Find([n, p], 1) == 0;
    assert [n, p][0 := gone] == [gone, p] && [gone, p] + [] == [gone, p];
  }

  // ----- the notes as a set -----

  /** The notes after a replacement: a proposal only joins them; a newer text takes the old one's place. */
  ghost function ReplacedSet(notes: set<Note>, prior: Note, note: Note, now: nat): set<Note> {
    if note.status.Proposed? then notes + {note} else notes - {prior} + {Retired(prior, Superseded, now)} + {note}
  }

  ghost function ReplacedLive(notes: set<Note>, prior: Note, note: Note): set<Note> {
    if note.status.Proposed? then LiveOf(notes) else LiveOf(notes) - {prior} + Alive(note)
  }

  /** The notes after an update: the named one changes, and at most its live target is retired. */
  ghost function UpdatedSet(notes: set<Note>, n: Note, target: Option<Note>, status: Option<Status>,
      pinned: Option<bool>, now: nat): set<Note> {
    notes - Gone(target) + Retirement(target, n.forget, now) - {n} + {UpdatedNote(n, target, status, pinned, now)}
  }

  ghost function UpdatedLive(notes: set<Note>, n: Note, target: Option<Note>, status: Option<Status>,
      pinned: Option<bool>, now: nat): set<Note> {
    LiveOf(notes) - Gone(target) - {n} + Alive(UpdatedNote(n, target, status, pinned, now))
  }

  /** The live target of a confirmed proposal, and what it becomes. */
  function Gone(target: Option<Note>): set<Note> { if target.Some? then {target.value} else {} }

  function Retirement(target: Option<Note>, forget: bool, now: nat): set<Note> {
    if target.Some? then {Retired(target.value, if forget then Invalidated else Superseded, now)} else {}
  }

  lemma WrittenSet(notes: seq<Note>, seqNo: nat, days: nat, now: nat)
    requires Ascending(notes)
    ensures var after := SetOf(Written(notes, seqNo, days, now).notes);
      after == Surviving(SetOf(notes), days, now) && LiveOf(after) == LiveOf(SetOf(notes))
  {
    RetainIs(notes, days, now);
    LiveSurvive(SetOf(notes), days, now);
  }

  lemma AddedSet(f: File, n: Note, days: nat, now: nat)
    requires f.Valid() && n.id == f.seqNo + 1
    ensures var after := SetOf(Written(f.notes + [n], f.seqNo, days, now).notes);
      && after == Surviving(SetOf(f.notes) + {n}, days, now)
      && LiveOf(after) == LiveOf(SetOf(f.notes)) + Alive(n)
  {
    PushedLast(f.notes, n);
    WrittenSet(f.notes + [n], f.seqNo, days, now);
    LiveSwapped(SetOf(f.notes), n, n);
  }

  /** Put in the place of the note of its number, a note takes that one's place in the set. */
  lemma PutSet(notes: seq<Note>, prior: Note, n: Note)
    requires Ascending(notes) && Named(notes, n.id) == Some(prior)
    ensures Ascending(Put(notes, n)) && (forall bound: nat :: UpTo(notes, bound) ==> UpTo(Put(notes, n), bound))
    ensures SetOf(Put(notes, n)) == SetOf(notes) - {prior} + {n}
    ensures LiveOf(SetOf(Put(notes, n))) == LiveOf(SetOf(notes)) - {prior} + Alive(n)
  {
    ReplacedAt(notes, Find(notes, n.id), n);
    ReplacedBound(notes, Find(notes, n.id), n);
  }

  lemma ReplacedFile(f: File, prior: Note, note: Note, days: nat, now: nat)
    requires f.Valid() && Named(f.notes, prior.id) == Some(prior) && note.id == f.seqNo + 1
    ensures var next := if note.status.Proposed? then f.notes else Put(f.notes, Retired(prior, Superseded, now));
      var after := SetOf(Written(next + [note], f.seqNo, days, now).notes);
      && after == Surviving(ReplacedSet(SetOf(f.notes), prior, note, now), days, now)
      && LiveOf(after) == ReplacedLive(SetOf(f.notes), prior, note)
  {
    var next := if note.status.Proposed? then f.notes else Put(f.notes, Retired(prior, Superseded, now));
    if !note.status.Proposed? { PutSet(f.notes, prior, Retired(prior, Superseded, now)); }
    hide Put, Named, Written, Surviving, SetOf, LiveOf;
    AddedSet(File(next, f.seqNo), note, days, now);
    assert note.status.Proposed? ==> Alive(note) == {};
  }

  lemma UpdatedFile(f: File, id: nat, status: Option<Status>, pinned: Option<bool>, days: nat, now: nat)
    requires f.Valid() && Named(f.notes, id).Some?
    ensures var n := Named(f.notes, id).value;
      var target := ConfirmTarget(f.notes, n, status);
      var after := SetOf(After(f, Update(id, status, pinned), days, now).notes);
      && after == Surviving(UpdatedSet(SetOf(f.notes), n, target, status, pinned, now), days, now)
      && LiveOf(after) == UpdatedLive(SetOf(f.notes), n, target, status, pinned, now)
  {
    hide ConfirmTarget, UpdatedNote, Put, Written, Surviving, SetOf, LiveOf, UpTo, Ascending, Named, Settled;
    var n := Named(f.notes, id).value;
    var target := ConfirmTarget(f.notes, n, status);
    var u := UpdatedNote(n, target, status, pinned, now);
    NamedIs(f.notes, id);
    TargetIs(f.notes, n, status);
    UpdatedId(n, target, status, pinned, now);
    SettledSet(f.notes, n, target, n.forget, now);
    PutSet(Settled(f.notes, target, n.forget, now), n, u);
    WrittenSet(Put(Settled(f.notes, target, n.forget, now), u), f.seqNo, days, now);
    assert Changed(f, Update(id, status, pinned), now) + [] == Put(Settled(f.notes, target, n.forget, now), u);
  }

  lemma SettledSet(notes: seq<Note>, n: Note, target: Option<Note>, forget: bool, now: nat)
    requires Ascending(notes) && Named(notes, n.id) == Some(n)
    requires target.Some? ==> Named(notes, target.value.id) == target && target.value.id != n.id
    ensures var settled := Settled(notes, target, forget, now);
      && Ascending(settled) && Named(settled, n.id) == Some(n)
      && SetOf(settled) == SetOf(notes) - Gone(target) + Retirement(target, forget, now)
      && LiveOf(SetOf(settled)) == LiveOf(SetOf(notes)) - Gone(target)
  {
    var settled := Settled(notes, target, forget, now);
    SettledKeeps(notes, target, forget, now);
    NamedIs(notes, n.id);
    NamedIs(settled, n.id);
    if target.Some? {
      PutSet(notes, target.value, Retired(target.value, if forget then Invalidated else Superseded, now));
    }
  }
}
