/**
 The notes file with its number file beside it (agents/src/memory/notes.rs), one writer at a time. Each
 method is one operation with the lock held; the clock and the days of history are its parameters.
 */
module NoteStores {
  import opened Wrappers
  import opened Text
  import opened Notes
  import opened NoteRuns

  datatype Change = Change(note: Note, superseded: Option<Note>, forgotten: Option<Note>)

  class NoteStore {
    var lines: seq<Note>
    var seqNo: nat
    /** Every number given to a note so far. */
    ghost var issued: set<nat>

    ghost predicate Valid()
      reads this
    {
      && Ascending(lines)
      && UpTo(lines, seqNo)
      && (forall id | id in issued :: id <= seqNo)
    }

    /** The notes there are. */
    ghost function Contents(): set<Note>
      reads this
    {
      SetOf(lines)
    }

    /** The notes and the number beside them. */
    ghost function OnDisk(): File
      reads this
    {
      File(lines, seqNo)
    }

    constructor ()
      ensures Valid() && OnDisk() == File([], 0) && issued == {}
    {
      lines, seqNo, issued := [], 0, {};
    }

    method Read() returns (notes: seq<Note>)
      ensures notes == Fold(lines)
    {
      notes := [];
      for i := 0 to |lines|
        invariant notes == Fold(lines[..i])
      {
        assert lines[..i + 1][..i] == lines[..i];
        notes := PutNote(notes, lines[i]);
      }
      assert lines[..|lines|] == lines;
    }

    method HighestOf(notes: seq<Note>) returns (h: nat)
      ensures h == Highest(notes, seqNo)
    {
      h := 0;
      for i := 0 to |notes|
        invariant h == HighestIn(notes[..i])
      {
        assert notes[..i + 1][..i] == notes[..i];
        if notes[i].id > h { h := notes[i].id; }
      }
      assert notes[..|notes|] == notes;
      if seqNo > h { h := seqNo; }
    }

    /** Keeps what is to be kept as the whole file, and then remembers the highest number. */
    method Write(notes: seq<Note>, days: nat, now: nat)
      requires Ascending(notes) && Ascending(lines)
      modifies this`lines, this`seqNo
      ensures OnDisk() == Written(notes, old(seqNo), days, now)
      ensures Ascending(lines) && Contents() == Surviving(SetOf(notes), days, now)
      ensures LiveOf(Contents()) == LiveOf(SetOf(notes))
      ensures seqNo >= old(seqNo)
      ensures UpTo(lines, seqNo)
      ensures UpTo(notes, old(seqNo)) ==> seqNo == old(seqNo)
    {
      var kept: seq<Note> := [];
      for i := 0 to |notes|
        invariant kept == Retain(notes[..i], days, now)
      {
        assert notes[..i + 1][..i] == notes[..i];
        if Survives(notes[i], days, now) { kept := kept + [notes[i]]; }
      }
      assert notes[..|notes|] == notes;
      RetainIs(notes, days, now);
      RetainKeeps(notes, days, now);
      HighestBounds(kept);
      LiveSurvive(SetOf(notes), days, now);
      var highest := HighestOf(kept);
      lines := kept;
      seqNo := highest;
    }

    /** Puts a new note into the file, under the number after the highest one given. */
    method Push(notes: seq<Note>, n: Note, days: nat, now: nat)
      requires Valid() && Ascending(notes) && UpTo(notes, seqNo)
      requires n.id == seqNo + 1 && n.updatedAt == now && n.invalidAt.None?
      modifies this
      ensures Valid() && OnDisk() == Written(notes + [n], old(seqNo), days, now)
      ensures seqNo == if IsDead(n) && days == 0 then old(seqNo) else n.id
      ensures issued == old(issued) + (if IsDead(n) && days == 0 then {} else {n.id}) && n.id !in old(issued)
    {
      hide IsDead, Written, Survives, SetOf, Surviving, LiveOf;
      PushedNumber(notes, seqNo, n, days, now);
      PushedLast(notes, n);
      Write(notes + [n], days, now);
      if !(IsDead(n) && days == 0) { issued := issued + {n.id}; }
    }

    method NextId(notes: seq<Note>) returns (id: nat)
      requires UpTo(notes, seqNo)
      ensures id == seqNo + 1 == File(notes, seqNo).NextId()
    {
      HighestBounds(notes);
      var highest := HighestOf(notes);
      id := highest + 1;
    }

    /** Adds a note, and changes no other. */
    method AddWith(text: string, scope: string, owner: Option<string>, status: Status, pinned: bool, author: string,
        sources: seq<string>, extra: Extra, days: nat, now: nat) returns (note: Note)
      requires Valid()
      modifies this
      ensures Valid()
      ensures OnDisk() == After(old(OnDisk()), Op.Add(text, scope, owner, status, pinned, author, sources, extra),
        days, now)
      ensures note == Note(note.id, scope, owner, Trim(text), status, pinned, now, None, None, sources, author, None,
                           None, false, extra.user, extra.kind, now)
      ensures note.id == old(seqNo) + 1 && note.id !in old(issued)
      ensures seqNo == if DeadStatus(status) && days == 0 then old(seqNo) else note.id
      ensures issued == old(issued) + (if DeadStatus(status) && days == 0 then {} else {note.id})
      ensures Contents() == Surviving(old(Contents()) + {note}, days, now)
      ensures LiveOf(Contents()) == old(LiveOf(Contents())) + Alive(note)
    {
      hide Written, Surviving, LiveOf, SetOf, Fold;
      var notes := Read();
      FoldWritten(lines);
      var id := NextId(notes);
      note := NewNote(id, text, scope, owner, status, pinned, author, sources, extra, now);
      AddedSet(OnDisk(), note, days, now);
      Push(notes, note, days, now);
    }

    /** Marks the note named superseded or invalidated, in the list. */
    static method Retire(notes: seq<Note>, id: nat, status: Status, now: nat) returns (next: seq<Note>, retired: Note)
      requires Ascending(notes) && Named(notes, id).Some? && !LiveStatus(status)
      ensures retired == Named(notes, id).value.(status := status, invalidAt := Some(now), updatedAt := now)
      ensures next == Put(notes, retired)
      ensures Ascending(next) && SameOthers(notes, next, id)
      ensures forall bound: nat :: UpTo(notes, bound) ==> UpTo(next, bound)
      ensures SetOf(next) == SetOf(notes) - {Named(notes, id).value} + {retired}
      ensures LiveOf(SetOf(next)) == LiveOf(SetOf(notes)) - {Named(notes, id).value}
    {
      var at := Find(notes, id);
      retired := Retired(notes[at], status, now);
      ReplacedAt(notes, at, retired);
      ReplacedBound(notes, at, retired);
      next := notes[at := retired];
    }

    /** A newer text takes the place of the live note named, or only proposes to. */
    method Replace(id: nat, text: string, status: Status, author: string, sources: seq<string>, days: nat, now: nat)
      returns (r: Option<Change>)
      requires Valid()
      modifies this
      ensures Valid()
      ensures OnDisk() == After(old(OnDisk()), Op.Replace(id, text, status, author, sources), days, now)
      ensures r.Some? <==> IsNamedLive(old(lines), id)
      ensures r.None? ==> lines == old(lines) && seqNo == old(seqNo) && issued == old(issued)
      ensures r.Some? ==>
        var prior := Named(old(lines), id).value;
        && (prior in old(Contents()) && prior.id == id && (prior.status.Confirmed? || prior.status.Active?))
        && r.value.note == Note(
             old(seqNo) + 1, prior.scope, prior.owner, Trim(text), status, prior.pinned, now, None,
             if status.Proposed? then None else Some(id), sources, author, None,
             if status.Proposed? then Some(OfNote(id)) else None, false, prior.user, prior.kind, now)
        && r.value.superseded ==
             (if status.Proposed? then None
              else Some(prior.(status := Superseded, invalidAt := Some(now), updatedAt := now)))
        && r.value.forgotten == None
        && Contents() == Surviving(ReplacedSet(old(Contents()), prior, r.value.note, now), days, now)
        && LiveOf(Contents()) == ReplacedLive(old(Contents()), prior, r.value.note)
      ensures r.Some? ==>
        && r.value.note.id !in old(issued)
        && issued == old(issued) + (if DeadStatus(status) && days == 0 then {} else {r.value.note.id})
    {
      hide Written, Surviving, LiveOf, SetOf, Fold, Put, Named, Find, ReplacedSet, ReplacedLive;
      var notes := Read();
      FoldWritten(lines);
      if !IsNamedLive(notes, id) { return None; }
      NamedThere(notes, id);
      var prior, before := Named(notes, id).value, OnDisk();
      var next := NextId(notes);
      var note := Successor(prior, next, text, status, author, sources, now);
      var superseded := None;
      if !status.Proposed? {
        var retired;
        notes, retired := Retire(notes, id, Superseded, now);
        superseded := Some(retired);
      }
      Push(notes, note, days, now);
      ReplacedFile(before, prior, note, days, now);
      r := Some(Change(note, superseded, None));
    }

    /** Forgets the live note named, or only proposes to. */
    method Forget(id: nat, status: Status, author: string, days: nat, now: nat) returns (r: Option<Change>)
      requires Valid()
      modifies this
      ensures Valid()
      ensures OnDisk() == After(old(OnDisk()), Op.Forget(id, status, author), days, now)
      ensures r.Some? <==> IsNamedLive(old(lines), id)
      ensures r.None? ==> lines == old(lines) && seqNo == old(seqNo) && issued == old(issued)
      ensures r.Some? && status.Proposed? ==>
        var prior := Named(old(lines), id).value;
        && (prior in old(Contents()) && prior.id == id && (prior.status.Confirmed? || prior.status.Active?))
        && r.value == Change(
             Note(old(seqNo) + 1, prior.scope, prior.owner, prior.text, Proposed, prior.pinned, now, None, None, [],
                  author, None, Some(OfNote(id)), true, prior.user, prior.kind, now), None, None)
        && issued == old(issued) + {r.value.note.id} && r.value.note.id !in old(issued)
        && Contents() == Surviving(old(Contents()) + {r.value.note}, days, now)
        && LiveOf(Contents()) == old(LiveOf(Contents()))
      ensures r.Some? && !status.Proposed? ==>
        var prior := Named(old(lines), id).value;
        var gone := prior.(status := Invalidated, invalidAt := Some(now), updatedAt := now);
        && r.value == Change(gone, None, Some(gone)) && issued == old(issued) && seqNo == old(seqNo)
        && Contents() == Surviving(old(Contents()) - {prior} + {gone}, days, now)
        && LiveOf(Contents()) == old(LiveOf(Contents())) - {prior}
    {
      hide Written, Surviving, LiveOf, SetOf, Fold, Put, Named, Find, Ascending, UpTo;
      var notes := Read();
      FoldWritten(lines);
      if !IsNamedLive(notes, id) { return None; }
      NamedThere(notes, id);
      var prior := Named(notes, id).value;
      if status.Proposed? {
        var next := NextId(notes);
        var proposal := ForgetProposal(prior, next, author, now);
        AddedSet(OnDisk(), proposal, days, now);
        Push(notes, proposal, days, now);
        return Some(Change(proposal, None, None));
      }
      var gone;
      notes, gone := Retire(notes, id, Invalidated, now);
      assert notes + [] == notes;
      Write(notes, days, now);
      r := Some(Change(gone, None, Some(gone)));
    }

    /** Adds a proposal that names a fact: no note changes. */
    method ProposeForFact(text: string, scope: string, owner: Option<string>, fact: string, forget: bool,
        sources: seq<string>, extra: Extra, days: nat, now: nat) returns (note: Note)
      requires Valid()
      modifies this
      ensures Valid()
      ensures OnDisk() ==
        After(old(OnDisk()), Op.ProposeForFact(text, scope, owner, fact, forget, sources, extra), days, now)
      ensures note == Note(note.id, scope, owner, Trim(text), Proposed, false, now, None, None, sources, "model", None,
                           Some(OfFact(fact)), forget, extra.user, extra.kind, now)
      ensures note.id == old(seqNo) + 1 == seqNo
      ensures note.id !in old(issued) && issued == old(issued) + {note.id}
      ensures Contents() == Surviving(old(Contents()) + {note}, days, now)
      ensures LiveOf(Contents()) == old(LiveOf(Contents()))
    {
      hide Written, Surviving, LiveOf, SetOf, Fold;
      var notes := Read();
      FoldWritten(lines);
      var id := NextId(notes);
      note := FactProposal(id, text, scope, owner, fact, forget, sources, extra, now);
      AddedSet(OnDisk(), note, days, now);
      Push(notes, note, days, now);
    }

    /** The note became a file of a project's memory. */
    method MarkMoved(id: nat, path: string, days: nat, now: nat) returns (r: Option<Note>)
      requires Valid()
      modifies this
      ensures Valid() && issued == old(issued) && seqNo == old(seqNo)
      ensures OnDisk() == After(old(OnDisk()), Op.MarkMoved(id, path), days, now)
      ensures r.Some? <==> Named(old(lines), id).Some?
      ensures r.None? ==> lines == old(lines)
      ensures r.Some? ==>
        var n := Named(old(lines), id).value;
        && n in old(Contents()) && n.id == id
        && r.value == n.(status := Moved, movedTo := Some(path), updatedAt := now)
        && Contents() == Surviving(old(Contents()) - {n} + {r.value}, days, now)
        && LiveOf(Contents()) == old(LiveOf(Contents())) - {n}
    {
      hide Written, Surviving, LiveOf, SetOf, Fold, Ascending, UpTo;
      var notes := Read();
      FoldWritten(lines);
      var at := Find(notes, id);
      if at == |notes| { return None; }
      NamedThere(notes, id);
      var moved := MovedTo(notes[at], path, now);
      ReplacedAt(notes, at, moved);
      ReplacedBound(notes, at, moved);
      notes := notes[at := moved];
      assert notes + [] == notes;
      Write(notes, days, now);
      r := Some(moved);
    }

    /** Retires the live note that a confirmed proposal names. */
    static method Settle(notes: seq<Note>, n: Note, status: Option<Status>, now: nat)
      returns (next: seq<Note>, target: Option<Note>, superseded: Option<Note>, forgotten: Option<Note>)
      requires Ascending(notes)
      ensures target == ConfirmTarget(notes, n, status) && next == Settled(notes, target, n.forget, now)
      ensures superseded == if target.Some? && !n.forget then Some(Retired(target.value, Superseded, now)) else None
      ensures forgotten == if target.Some? && n.forget then Some(Retired(target.value, Invalidated, now)) else None
    {
      hide Find, Put, ConfirmTarget, Named, Ascending, UpTo, SetOf, LiveOf;
      target := ConfirmTarget(notes, n, status);
      next, superseded, forgotten := notes, None, None;
      if target.Some? {
        TargetIs(notes, n, status);
        var retired;
        next, retired := Retire(notes, target.value.id, if n.forget then Invalidated else Superseded, now);
        if n.forget { forgotten := Some(retired); } else { superseded := Some(retired); }
      }
    }

    /** Confirms, turns down, invalidates, pins or unpins the note named. */
    method Update(id: nat, status: Option<Status>, pinned: Option<bool>, days: nat, now: nat)
        returns (r: Option<Change>)
      requires Valid()
      modifies this
      ensures Valid() && issued == old(issued) && seqNo == old(seqNo)
      ensures OnDisk() == After(old(OnDisk()), Op.Update(id, status, pinned), days, now)
      ensures r.Some? <==> Named(old(lines), id).Some?
      ensures r.None? ==> lines == old(lines)
      ensures r.Some? ==>
        var n := Named(old(lines), id).value;
        var target := ConfirmTarget(old(lines), n, status);
        && Contents() == Surviving(UpdatedSet(old(Contents()), n, target, status, pinned, now), days, now)
        && LiveOf(Contents()) == UpdatedLive(old(Contents()), n, target, status, pinned, now)
        && Reports(r.value, n, target, status, pinned, now)
      ensures r.Some? && ProposesToForget(Named(old(lines), id).value) && status.Some? && LiveStatus(status.value) ==>
        var about := Named(old(lines), id).value.about;
        && (Ended(lines, id) <==> about.Some? && LiveIn(old(lines), about.value.id))
        && (HasOrphan(lines, id) <==> !Ended(lines, id))
    {
      hide Surviving, LiveOf, SetOf, Fold, Find, Named, ConfirmTarget, Ascending, UpTo, UpdatedNote, UpdatedSet,
        UpdatedLive, Retired, Written, Put, Settled, Ended, HasOrphan, LiveIn, ProposesToForget;
      var notes := Read();
      FoldWritten(lines);
      if Named(notes, id).None? { return None; }
      var n, before := Named(notes, id).value, OnDisk();
      var target, superseded, forgotten;
      notes, target, superseded, forgotten := Settle(notes, n, status, now);
      var note := UpdatedNote(n, target, status, pinned, now);
      ChangedKeeps(before, Op.Update(id, status, pinned), now);
      notes := Put(notes, note);
      UpdatedFile(before, id, status, pinned, days, now);
      if status.Some? && LiveStatus(status.value) && ProposesToForget(n) {
        ConfirmedForget(before, id, status.value, pinned, days, now);
      }
      assert notes + [] == notes;
      Write(notes, days, now);
      var reported := if n.forget && forgotten.Some? then note.(status := Confirmed, invalidAt := None) else note;
      r := Some(Change(reported, superseded, forgotten));
    }
  }

  /** The lists are alike but for the note named, whose number stays. */
  predicate SameOthers(notes: seq<Note>, next: seq<Note>, id: nat) {
    && |next| == |notes|
    && forall i | 0 <= i < |notes| :: next[i].id == notes[i].id && (notes[i].id != id ==> next[i] == notes[i])
  }

  /** What the caller of an update hears: a confirmed proposal to forget is shown as confirmed. */
  ghost predicate Reports(c: Change, n: Note, target: Option<Note>, status: Option<Status>, pinned: Option<bool>,
      now: nat) {
    var u := UpdatedNote(n, target, status, pinned, now);
    && c.note == (if n.forget && target.Some? then u.(status := Confirmed, invalidAt := None) else u)
    && c.superseded == (if target.Some? && !n.forget then Some(Retired(target.value, Superseded, now)) else None)
    && c.forgotten == (if target.Some? && n.forget then Some(Retired(target.value, Invalidated, now)) else None)
  }
}
