/**
 Durable notes (agents/src/memory/notes.rs): the current notes, one line each, and the highest number
 ever given to one. A note's id is its number; times are numbers of seconds.
 */
module Notes {
  import opened Wrappers
  import opened Numbers
  import opened Lists
  import opened Text

  /** What a proposal is about: a note, or a fact of a project's memory. */
  datatype Target = OfNote(id: nat) | OfFact(name: string)

  /** What has become of a note; any other word is allowed, and is neither live nor dead. */
  datatype Status = Confirmed | Active | Proposed | Superseded | Invalidated | Moved | Other(name: string)

  datatype Note = Note(
    id: nat,
    scope: string,
    owner: Option<string>,
    text: string,
    status: Status,
    pinned: bool,
    validFrom: nat,
    invalidAt: Option<nat>,
    supersedes: Option<nat>,
    sources: seq<string>,
    author: string,
    movedTo: Option<string>,
    about: Option<Target>,
    forget: bool,
    user: Option<string>,
    kind: Option<string>,
    updatedAt: nat)

  datatype Extra = Extra(user: Option<string>, kind: Option<string>)

  predicate LiveStatus(status: Status) { status.Confirmed? || status.Active? }

  predicate DeadStatus(status: Status) { status.Superseded? || status.Invalidated? || status.Moved? }

  predicate IsLive(n: Note) { LiveStatus(n.status) }

  predicate IsDead(n: Note) { DeadStatus(n.status) }

  /** Whether a write still keeps the note: dead ones for `days` only. */
  predicate Survives(n: Note, days: nat, now: nat) {
    !IsDead(n) || (days > 0 && (if n.invalidAt.Some? then n.invalidAt.value else n.updatedAt) > now - days * 86400)
  }

  // ----- the file -----

  predicate Ascending(notes: seq<Note>) {
    forall i, j | 0 <= i < j < |notes| :: notes[i].id < notes[j].id
  }

  /** A line of the file takes the place of an earlier line of the same note. */
  function PutNote(notes: seq<Note>, n: Note): seq<Note> {
    if notes == [] || n.id < notes[0].id then [n] + notes
    else if n.id == notes[0].id then [n] + notes[1..]
    else [notes[0]] + PutNote(notes[1..], n)
  }

  function Fold(lines: seq<Note>): seq<Note> {
    if lines == [] then [] else PutNote(Fold(lines[..|lines| - 1]), lines[|lines| - 1])
  }

  lemma HeadAndTail(notes: seq<Note>)
    requires Ascending(notes) && notes != []
    ensures Ascending(notes[1..])
    ensures forall x :: x in notes <==> x == notes[0] || x in notes[1..]
    ensures forall x | x in notes[1..] :: notes[0].id < x.id
  {
    assert notes == [notes[0]] + notes[1..];
    forall x | x in notes[1..] ensures notes[0].id < x.id {
      var k :| 0 <= k < |notes| - 1 && notes[1..][k] == x;
      assert notes[k + 1] == x;
    }
  }

  lemma Prepended(n: Note, rest: seq<Note>)
    requires Ascending(rest) && forall x | x in rest :: n.id < x.id
    ensures Ascending([n] + rest)
  {
    forall j | 0 <= j < |rest| ensures n.id < rest[j].id { assert rest[j] in rest; }
  }

  lemma {:induction false} PutNoteIs(notes: seq<Note>, n: Note)
    requires Ascending(notes)
    ensures Ascending(PutNote(notes, n))
    ensures forall x :: x in PutNote(notes, n) <==> x == n || (x in notes && x.id != n.id)
  {
    if notes == [] {
    } else {
      HeadAndTail(notes);
      if n.id < notes[0].id {
        Prepended(n, notes);
      } else if n.id == notes[0].id {
        Prepended(n, notes[1..]);
      } else {
        PutNoteIs(notes[1..], n);
        Prepended(notes[0], PutNote(notes[1..], n));
      }
    }
  }

  /** No later line is about the same note. */
  ghost predicate NewestLine(lines: seq<Note>, n: Note) {
    exists i :: 0 <= i < |lines| && lines[i] == n && forall j | i < j < |lines| :: lines[j].id != n.id
  }

  lemma NewestOfMore(lines: seq<Note>, last: Note, n: Note)
    ensures NewestLine(lines + [last], n) <==> n == last || (NewestLine(lines, n) && n.id != last.id)
  {
    var all := lines + [last];
    if n == last { assert all[|lines|] == n; }
    if NewestLine(lines, n) && n.id != last.id {
      var i :| 0 <= i < |lines| && lines[i] == n && forall j | i < j < |lines| :: lines[j].id != n.id;
      assert all[i] == n;
    }
    if NewestLine(all, n) && n != last {
      var i :| 0 <= i < |all| && all[i] == n && forall j | i < j < |all| :: all[j].id != n.id;
      assert lines[i] == n && all[|lines|] == last;
      forall j | i < j < |lines| ensures lines[j].id != n.id { assert all[j] == lines[j]; }
    }
  }

  lemma {:induction false} FoldIs(lines: seq<Note>)
    ensures Ascending(Fold(lines))
    ensures forall n :: n in Fold(lines) <==> NewestLine(lines, n)
  {
    if lines != [] {
      var front, last := lines[..|lines| - 1], lines[|lines| - 1];
      assert lines == front + [last];
      FoldIs(front);
      PutNoteIs(Fold(front), last);
      forall n ensures n in Fold(lines) <==> NewestLine(lines, n) { NewestOfMore(front, last, n); }
    }
  }

  lemma {:induction false} PutNoteLast(notes: seq<Note>, n: Note)
    requires forall i | 0 <= i < |notes| :: notes[i].id < n.id
    ensures PutNote(notes, n) == notes + [n]
  {
    if notes != [] {
      PutNoteLast(notes[1..], n);
      assert notes == [notes[0]] + notes[1..];
    }
  }

  /** A file as the engine writes it reads as it stands. */
  lemma {:induction false} FoldWritten(lines: seq<Note>)
    requires Ascending(lines)
    ensures Fold(lines) == lines
  {
    if lines != [] {
      FoldWritten(lines[..|lines| - 1]);
      PutNoteLast(lines[..|lines| - 1], lines[|lines| - 1]);
    }
  }

  // ----- numbers -----

  function HighestIn(notes: seq<Note>): nat {
    if notes == [] then 0 else Max(HighestIn(notes[..|notes| - 1]), notes[|notes| - 1].id)
  }

  /** The highest number ever given: in the notes, or remembered beside them. */
  function Highest(notes: seq<Note>, kept: nat): nat { Max(HighestIn(notes), kept) }

  lemma {:induction false} HighestBounds(notes: seq<Note>)
    ensures forall n | n in notes :: n.id <= HighestIn(notes)
    ensures HighestIn(notes) == 0 || exists n :: n in notes && n.id == HighestIn(notes)
  {
    if notes != [] {
      var front, last := notes[..|notes| - 1], notes[|notes| - 1];
      HighestBounds(front);
      assert notes == front + [last];
    }
  }

  /** No note has a number above `bound`. */
  predicate UpTo(notes: seq<Note>, bound: nat) { forall n | n in notes :: n.id <= bound }

  // ----- what a write keeps -----

  function Retain(notes: seq<Note>, days: nat, now: nat): seq<Note> {
    if notes == [] then [] else
      Retain(notes[..|notes| - 1], days, now) +
      (if Survives(notes[|notes| - 1], days, now) then [notes[|notes| - 1]] else [])
  }

  function SetOf(notes: seq<Note>): set<Note> { set n | n in notes }

  function Surviving(notes: set<Note>, days: nat, now: nat): set<Note> { set n | n in notes && Survives(n, days, now) }

  function LiveOf(notes: set<Note>): set<Note> { set n | n in notes && IsLive(n) }

  lemma {:induction false} RetainKeeps(notes: seq<Note>, days: nat, now: nat)
    ensures forall n :: n in Retain(notes, days, now) <==> n in notes && Survives(n, days, now)
  {
    if notes != [] {
      var front, last := notes[..|notes| - 1], notes[|notes| - 1];
      RetainKeeps(front, days, now);
      assert notes == front + [last];
    }
  }

  lemma {:induction false} RetainIs(notes: seq<Note>, days: nat, now: nat)
    ensures SetOf(Retain(notes, days, now)) == Surviving(SetOf(notes), days, now)
    ensures Ascending(notes) ==> Ascending(Retain(notes, days, now))
  {
    RetainKeeps(notes, days, now);
    if notes != [] && Ascending(notes) {
      var front, last := notes[..|notes| - 1], notes[|notes| - 1];
      RetainIs(front, days, now);
      RetainKeeps(front, days, now);
      var r := Retain(front, days, now);
      forall i | 0 <= i < |r| ensures r[i].id < last.id {
        assert r[i] in r;
        var k :| 0 <= k < |front| && front[k] == r[i];
        assert notes[k] == r[i];
      }
    }
  }

  /** A write never drops a live note, and makes none live. */
  lemma LiveSurvive(notes: set<Note>, days: nat, now: nat)
    ensures LiveOf(Surviving(notes, days, now)) == LiveOf(notes)
  {
  }

  /**
   The number beside the notes is at or above a new note's after the write, unless that note is dead
   from the start and no history is kept: only then is the number given again.
   */
  lemma NumberRemembered(notes: seq<Note>, kept: nat, n: Note, days: nat, now: nat)
    requires n.id == Highest(notes, kept) + 1 && n.updatedAt == now && n.invalidAt.None?
    ensures var after := Retain(notes + [n], days, now);
      Highest(after, Highest(after, kept)) >= n.id <==> !(IsDead(n) && days == 0)
  {
    var after := Retain(notes + [n], days, now);
    RetainIs(notes + [n], days, now);
    HighestBounds(after);
    HighestBounds(notes);
    assert n in SetOf(notes + [n]);
    if Survives(n, days, now) {
      assert n in SetOf(after);
    } else {
      forall x | x in after ensures x.id <= HighestIn(notes) {
        assert x in SetOf(after);
        assert x in notes;
      }
    }
  }

  // ----- changing one note in the list -----

  /** Where the note of number `id` stands. */
  function Find(notes: seq<Note>, id: nat): (i: nat)
    ensures i <= |notes| && (i < |notes| ==> notes[i].id == id)
    ensures forall j | 0 <= j < i :: notes[j].id != id
  {
    FirstWhere(notes, (n: Note) => n.id == id)
  }

  /** The note of number `id`, if there is one. */
  function Named(notes: seq<Note>, id: nat): (n: Option<Note>)
    ensures n.Some? ==> n.value.id == id
  {
    if Find(notes, id) < |notes| then Some(notes[Find(notes, id)]) else None
  }

  predicate IsNamedLive(notes: seq<Note>, id: nat) {
    Named(notes, id).Some? && IsLive(Named(notes, id).value)
  }

  lemma NamedIs(notes: seq<Note>, id: nat)
    requires Ascending(notes)
    ensures Named(notes, id).None? <==> forall n | n in notes :: n.id != id
    ensures forall n :: Named(notes, id) == Some(n) <==> n in notes && n.id == id
  {
    forall n | n in notes && n.id == id ensures Named(notes, id) == Some(n) {
      var i :| 0 <= i < |notes| && notes[i] == n;
      assert Find(notes, id) <= i;
    }
  }

  lemma NamedThere(notes: seq<Note>, id: nat)
    requires Named(notes, id).Some?
    ensures var n := Named(notes, id).value; n in notes && n in SetOf(notes) && n.id == id
  {
  }

  lemma LiveSwapped(notes: set<Note>, n: Note, next: Note)
    ensures LiveOf(notes + {next}) == LiveOf(notes) + Alive(next)
    ensures LiveOf(notes - {n} + {next}) == LiveOf(notes) - {n} + Alive(next)
  {
  }

  function Alive(n: Note): set<Note> { if IsLive(n) then {n} else {} }

  lemma ReplacedAt(notes: seq<Note>, i: nat, n: Note)
    requires Ascending(notes) && i < |notes| && n.id == notes[i].id
    ensures var next := notes[i := n];
      && Ascending(next) && SetOf(next) == SetOf(notes) - {notes[i]} + {n}
      && LiveOf(SetOf(next)) == LiveOf(SetOf(notes)) - {notes[i]} + Alive(n)
  {
    var next := notes[i := n];
    forall x ensures x in SetOf(next) <==> x in SetOf(notes) - {notes[i]} + {n} {
      if x in SetOf(notes) && x != notes[i] {
        var k :| 0 <= k < |notes| && notes[k] == x;
        assert next[k] == x;
      }
      if x in SetOf(next) && x != n {
        var k :| 0 <= k < |next| && next[k] == x;
        assert k != i;
        assert notes[k].id != notes[i].id;
      }
      if x == n { assert next[i] == n; }
    }
    assert SetOf(next) == SetOf(notes) - {notes[i]} + {n};
    LiveSwapped(SetOf(notes), notes[i], n);
  }

  lemma ReplacedBound(notes: seq<Note>, i: nat, n: Note)
    requires i < |notes| && n.id == notes[i].id
    ensures forall bound: nat :: UpTo(notes, bound) ==> UpTo(notes[i := n], bound)
  {
    assert notes[i] in notes;
  }

  lemma PushedLast(notes: seq<Note>, n: Note)
    requires Ascending(notes) && forall x | x in notes :: x.id < n.id
    ensures Ascending(notes + [n]) && SetOf(notes + [n]) == SetOf(notes) + {n}
  {
    forall i | 0 <= i < |notes| ensures notes[i].id < n.id { assert notes[i] in notes; }
  }

  // ----- what the operations make of a note -----

  /** A note that is superseded, invalidated or the like, from now on. */
  function Retired(n: Note, status: Status, now: nat): Note {
    n.(status := status, invalidAt := Some(now), updatedAt := now)
  }

  /** A note as it is added. */
  function NewNote(id: nat, text: string, scope: string, owner: Option<string>, status: Status, pinned: bool,
      author: string, sources: seq<string>, extra: Extra, now: nat): Note {
    Note(id, scope, owner, Trim(text), status, pinned, now, None, None, sources, author, None, None, false,
         extra.user, extra.kind, now)
  }

  /** A proposal that names a fact, which is no note. */
  function FactProposal(id: nat, text: string, scope: string, owner: Option<string>, fact: string, forget: bool,
      sources: seq<string>, extra: Extra, now: nat): Note {
    Note(id, scope, owner, Trim(text), Proposed, false, now, None, None, sources, "model", None, Some(OfFact(fact)),
         forget, extra.user, extra.kind, now)
  }

  /** A note that became a file of a project's memory. */
  function MovedTo(n: Note, path: string, now: nat): Note {
    n.(status := Moved, movedTo := Some(path), updatedAt := now)
  }

  /** A newer text for a note: its scope, owner, pin, user and kind carry over. */
  function Successor(prior: Note, id: nat, text: string, status: Status, author: string, sources: seq<string>,
      now: nat): Note {
    var proposed := status == Proposed;
    prior.(id := id, text := Trim(text), status := status, validFrom := now, invalidAt := None,
          supersedes := if proposed then None else Some(prior.id), sources := sources, author := author,
          movedTo := None, about := if proposed then Some(OfNote(prior.id)) else None, forget := false,
          updatedAt := now)
  }

  /** A proposal to forget a note. */
  function ForgetProposal(prior: Note, id: nat, author: string, now: nat): Note {
    prior.(id := id, status := Proposed, validFrom := now, invalidAt := None, supersedes := None, sources := [],
          author := author, movedTo := None, about := Some(OfNote(prior.id)), forget := true, updatedAt := now)
  }

  predicate Confirms(n: Note, status: Option<Status>) {
    status.Some? && n.status == Proposed && LiveStatus(status.value)
  }

  /** The live note that confirming a proposal retires, if there is one. */
  function ConfirmTarget(notes: seq<Note>, n: Note, status: Option<Status>): Option<Note> {
    if !Confirms(n, status) || n.about.None? || n.about.value.OfFact? then None
    else
      var at := Find(notes, n.about.value.id);
      if at < |notes| && IsLive(notes[at]) then Some(notes[at]) else None
  }

  /** The note itself after an update. */
  function UpdatedNote(n: Note, target: Option<Note>, status: Option<Status>, pinned: Option<bool>, now: nat): Note {
    var invalidated := if status == Some(Invalidated) then n.(invalidAt := Some(now)) else n;
    var changed :=
      if status.None? then invalidated
      else if Confirms(n, status) && !(n.about.Some? && n.about.value.OfFact?) then
        var settled := invalidated.(about := None);
        if target.Some? && n.forget then settled.(status := Invalidated, invalidAt := Some(now))
        else if target.Some? then settled.(supersedes := Some(target.value.id), status := status.value)
        else if n.forget then settled
        else settled.(status := status.value)
      else invalidated.(status := status.value);
    changed.(pinned := if pinned.Some? then pinned.value else n.pinned, updatedAt := now)
  }

  // ----- what a change of the notes does to the live ones -----

  predicate IsLiveWord(s: Option<Status>) { s == Some(Confirmed) || s == Some(Active) }

  /** Field by field: what confirming a proposal settles, and what any other status does. */
  lemma UpdateMeans(n: Note, target: Option<Note>, status: Option<Status>, pinned: Option<bool>, now: nat)
    ensures var u := UpdatedNote(n, target, status, pinned, now);
      var settles := n.status.Proposed? && IsLiveWord(status) && !(n.about.Some? && n.about.value.OfFact?);
      && u.updatedAt == now && u.pinned == (if pinned.Some? then pinned.value else n.pinned)
      && u.about == (if settles then None else n.about)
      && u.supersedes == (if settles && target.Some? && !n.forget then Some(target.value.id) else n.supersedes)
      && u.invalidAt ==
           (if (settles && target.Some? && n.forget) || status == Some(Invalidated) then Some(now) else n.invalidAt)
      && u.status ==
           (if status.None? || (settles && n.forget && target.None?) then n.status
            else if settles && n.forget then Invalidated else status.value)
      && u == n.(status := u.status, pinned := u.pinned, invalidAt := u.invalidAt, supersedes := u.supersedes,
                 about := u.about, updatedAt := now)
  {
  }

  ghost predicate LastsTo(n: Note, days: nat, now: nat) {
    if n.status.Superseded? || n.status.Invalidated? || n.status.Moved?
    then days > 0 && (if n.invalidAt.Some? then n.invalidAt.value else n.updatedAt) + days * 86400 > now
    else true
  }

  /** A write keeps what is not dead, and what died within the days of history. */
  lemma RetainMeans(notes: seq<Note>, days: nat, now: nat)
    ensures forall n :: n in Retain(notes, days, now) <==> n in notes && LastsTo(n, days, now)
  {
    RetainKeeps(notes, days, now);
  }

  /** An update names one note: only its status, its pin and its links change. */
  lemma UpdateChanges(n: Note, target: Option<Note>, status: Option<Status>, pinned: Option<bool>, now: nat)
    requires Confirms(n, status) || target.None?
    requires target.Some? ==> n.about.Some? && n.about.value.OfNote?
    ensures var u := UpdatedNote(n, target, status, pinned, now);
      && u == n.(status := u.status, pinned := u.pinned, invalidAt := u.invalidAt, supersedes := u.supersedes,
                 about := u.about, updatedAt := now)
      && (pinned.None? ==> u.pinned == n.pinned)
      && (target.None? ==> u.supersedes == n.supersedes)
      && (IsLive(u) <==>
          if status.None? then IsLive(n)
          else LiveStatus(status.value) && !(Confirms(n, status) && n.forget && !AboutFact(n)))
  {
  }

  predicate AboutFact(n: Note) { n.about.Some? && n.about.value.OfFact? }

  /**
   Proposing a newer text and then confirming it makes the note that replacing at once would have made,
   but for the time of its last change; what happens to the old note is the same.
   */
  lemma ConfirmedReplacement(notes: set<Note>, prior: Note, id: nat, text: string, author: string, sources: seq<string>,
      days: nat, proposedAt: nat, now: nat)
    requires prior in notes && IsLive(prior) && (forall n | n in notes :: n.id < id)
    ensures var p := Successor(prior, id, text, Proposed, author, sources, proposedAt);
      var confirmed := UpdatedNote(p, Some(prior), Some(Confirmed), None, now);
      var between := Surviving(notes + {p}, days, proposedAt);
      && LiveOf(between) == LiveOf(notes)
      && p in between && prior in between
      && confirmed == Successor(prior, id, text, Confirmed, author, sources, proposedAt).(updatedAt := now)
      && confirmed == Note(id, prior.scope, prior.owner, Trim(text), Confirmed, prior.pinned, proposedAt, None,
                           Some(prior.id), sources, author, None, None, false, prior.user, prior.kind, now)
      && LiveOf(Surviving(between - {p} - {prior} + {Retired(prior, Superseded, now), confirmed}, days, now))
         == LiveOf(notes) - {prior} + {confirmed}
  {
    var p := Successor(prior, id, text, Proposed, author, sources, proposedAt);
    var confirmed := UpdatedNote(p, Some(prior), Some(Confirmed), None, now);
    var between := Surviving(notes + {p}, days, proposedAt);
    assert p.about == Some(OfNote(prior.id)) && Confirms(p, Some(Confirmed));
    assert confirmed.supersedes == Some(prior.id);
    assert !IsDead(p) && !IsDead(prior) && !IsLive(p);
    assert p in between && prior in between;
    LiveSurvive(notes + {p}, days, proposedAt);
    LiveSurvive(between - {p} - {prior} + {Retired(prior, Superseded, now), confirmed}, days, now);
  }
}
