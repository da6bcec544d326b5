/**
 Whole runs of a chat's log (agents/src/memory/store.rs): appends, crashes in the middle of an
 append's write, and deletes, with segments closed whenever the open one is full.
 */
module LogRuns {
  import opened Numbers
  import opened Events
  import opened Log
  import opened Folders

  /** The sequence number the next event gets. */
  function NextSeq(events: seq<Event>): nat {
    if events == [] then 1 else events[|events| - 1].seqNo + 1
  }

  /** The log without its files. */
  function Deleted(f: Folder): Folder { f - ClosedNames(f) - {OPEN} }

  lemma DeletedReads(f: Folder)
    ensures Good(Deleted(f)) && ClosedNames(Deleted(f)) == {} && ReadFolder(Deleted(f)) == EMPTY_LOG
    ensures OPEN !in Deleted(f)
  {
    var g := Deleted(f);
    assert ClosedNames(g) == {};
    SegmentsAre(g);
    assert NamesUpTo(0) == [];
    assert OpenText(g) == "";
  }

  /** A folder that no chat has written to yet. */
  lemma NewFolderReads(f: Folder)
    requires f == map[]
    ensures Good(f) && ReadFolder(f) == EMPTY_LOG
  {
    assert Deleted(f) == f;
    DeletedReads(f);
  }

  /** The folder an append writes to reads as the folder did before. */
  lemma ReadyReads(f: Folder, segmentBytes: nat)
    requires segmentBytes > 0 && Good(f) && HasRoom(f, segmentBytes)
    ensures Good(Ready(f, segmentBytes)) && ReadFolder(Ready(f, segmentBytes)) == ReadFolder(f)
  {
    if |OpenText(f)| >= segmentBytes {
      RotatedNames(f);
      RotationReadsSame(f);
    }
  }

  /** The folder after an append of `es`. */
  function Appended(f: Folder, segmentBytes: nat, es: seq<Event>): Folder
    requires segmentBytes > 0
  {
    var ready := Ready(f, segmentBytes);
    Written(ready, es, WriteLength(ready, es))
  }

  /** The folder when only the first `bytes` bytes of the append's write have reached the file. */
  function CutShort(f: Folder, segmentBytes: nat, es: seq<Event>, bytes: nat): Folder
    requires segmentBytes > 0
  {
    var ready := Ready(f, segmentBytes);
    Written(ready, es, Min(bytes, WriteLength(ready, es)))
  }

  /** A text to which a cut line's line break is added, if it lacks one. */
  ghost function LineEnded(text: string): string {
    if text != "" && text[|text| - 1] != '\n' then text + "\n" else text
  }

  /** All files but the open one stay, and when that is full it is there as the next closed one. */
  ghost predicate FilesKeptAs(f: Folder, g: Folder, open: string, next: string, full: bool) {
    && (forall name | name in f && name != open :: name in g && g[name] == f[name])
    && g.Keys == f.Keys + {open} + (if full then {next} else {})
    && (full ==> open in f && next !in f && g[next] == f[open])
  }

  ghost predicate FilesKept(f: Folder, g: Folder, full: bool) {
    FilesKeptAs(f, g, OPEN, ClosedName(|ClosedNames(f)| + 1), full)
  }

  /** An append closes the open segment exactly when that has reached the size, and writes behind what is left. */
  lemma AppendedFiles(f: Folder, segmentBytes: nat, es: seq<Event>)
    requires segmentBytes > 0 && Good(f) && HasRoom(f, segmentBytes)
    ensures var g, full := Appended(f, segmentBytes, es), |FileText(f, OPEN)| >= segmentBytes;
      && FilesKept(f, g, full)
      && g[OPEN] == (if full then "" else LineEnded(FileText(f, OPEN))) + Buffer(es)
  {
    hide OPEN, ClosedNames, ClosedName, Good, HasRoom, Buffer;
    CutFiles(f, segmentBytes, es, WriteLength(Ready(f, segmentBytes), es));
  }

  /** Cut short, it leaves the same closed files, and of what it writes so many bytes. */
  lemma CutFiles(f: Folder, segmentBytes: nat, es: seq<Event>, bytes: nat)
    requires segmentBytes > 0 && Good(f) && HasRoom(f, segmentBytes)
    ensures var g, full := CutShort(f, segmentBytes, es, bytes), |FileText(f, OPEN)| >= segmentBytes;
      && FilesKept(f, g, full)
      && var text := if full then "" else FileText(f, OPEN);
         var all := LineEnded(text) + Buffer(es);
         g[OPEN] == all[..Min(|text| + bytes, |all|)]
  {
    hide OPEN, Ready, ClosedNames, ClosedName, Good, HasRoom, Repair, Buffer, LineEnded;
    var ready := Ready(f, segmentBytes);
    ReadyFiles(f, segmentBytes);
    var text := OpenText(ready);
    WrittenText(text, es, bytes);
  }

  lemma ReadyFiles(f: Folder, segmentBytes: nat)
    requires segmentBytes > 0 && Good(f) && HasRoom(f, segmentBytes)
    ensures var ready, full := Ready(f, segmentBytes), |FileText(f, OPEN)| >= segmentBytes;
      && FilesKept(f, ready[OPEN := ""], full)
      && OpenText(ready) == if full then "" else FileText(f, OPEN)
  {
    hide ClosedName, ClosedNames, Good, HasRoom, Rotated, FilesKeptAs, OPEN;
    if |OpenText(f)| >= segmentBytes {
      NewName(f, segmentBytes);
      FullFiles(f);
    } else {
      SameNames(f, OPEN, ClosedName(|ClosedNames(f)| + 1));
    }
  }

  lemma SameNames(f: Folder, name: string, next: string)
    ensures FilesKeptAs(f, f[name := ""], name, next, false)
  {
    assert f[name := ""].Keys == f.Keys + {name} + {};
  }

  lemma FullFiles(f: Folder)
    requires OPEN in f && ClosedName(|ClosedNames(f)| + 1) !in f
    ensures FilesKept(f, Rotated(f)[OPEN := ""], true) && OpenText(Rotated(f)) == ""
  {
    hide ClosedName, ClosedNames, OPEN, FilesKeptAs;
    GivenName(f, OPEN, ClosedName(|ClosedNames(f)| + 1));
  }

  lemma GivenName(f: Folder, name: string, next: string)
    requires name in f && next !in f
    ensures var ready := f[next := f[name]] - {name};
      name !in ready && FilesKeptAs(f, ready[name := ""], name, next, true)
  {
  }

  lemma NewName(f: Folder, segmentBytes: nat)
    requires segmentBytes > 0 && Good(f) && HasRoom(f, segmentBytes) && |OpenText(f)| >= segmentBytes
    ensures ClosedName(|ClosedNames(f)| + 1) !in f
  {
    NextNameIsNew(f);
  }

  lemma WrittenText(text: string, es: seq<Event>, bytes: nat)
    ensures var all, out := LineEnded(text) + Buffer(es), Repair(text) + Buffer(es);
      && all == text + out
      && all[..Min(|text| + bytes, |all|)] == text + out[..Min(bytes, |out|)]
  {
    var all, out := LineEnded(text) + Buffer(es), Repair(text) + Buffer(es);
    hide Buffer;
    assert LineEnded(text) == text + Repair(text);
    assert all == text + out;
  }

  // ----- steps -----

  datatype Op =
    | Append(news: seq<NewEvent>, ids: seq<string>, now: string)
      /** The process dies when `bytes` bytes of the append's write have reached the file. */
    | Crash(news: seq<NewEvent>, ids: seq<string>, now: string, bytes: nat)
    | Delete

  /** Each new event has an id waiting for it. */
  predicate Sized(op: Op) { op.Delete? || |op.ids| == |op.news| }

  ghost predicate ValidOp(op: Op) {
    Sized(op) && (!op.Delete? ==> forall i | 0 <= i < |op.news| :: ValidNew(op.news[i]))
  }

  /** The events an operation means to write, numbered on from the last one the files hold. */
  ghost function Stamping(f: Folder, chat: string, op: Op): seq<Event>
    requires Sized(op) && !op.Delete?
  {
    StampAll(op.news, chat, NextSeq(ReadFolder(f).events), op.ids, op.now)
  }

  /** What an operation makes of the chat's files. */
  ghost function StepFolder(f: Folder, chat: string, segmentBytes: nat, op: Op): Folder
    requires segmentBytes > 0 && Sized(op)
  {
    if op.Delete? then Deleted(f)
    else if op.news == [] then f
    else if op.Append? then Appended(f, segmentBytes, Stamping(f, chat, op))
    else CutShort(f, segmentBytes, Stamping(f, chat, op), op.bytes)
  }

  /** The files and what the chat has been told of: the events that must be read back. */
  datatype State = State(folder: Folder, log: seq<Event>, crashes: nat)

  const START: State := State(map[], [], 0)

  /** The events whose whole line is among the first `k` bytes an append to `text` writes. */
  function Survivors(text: string, es: seq<Event>, k: nat): seq<Event> {
    if k < |Repair(text)| then [] else es[..Complete(es, k - |Repair(text)|)]
  }

  lemma SurvivorsRead(before: ReadLog, text: string, es: seq<Event>, k: nat)
    ensures CutRead(before, text, es, k).events == before.events + Survivors(text, es, k)
    ensures before.skipped <= CutRead(before, text, es, k).skipped <= before.skipped + 1
    ensures Survivors(text, es, k) <= es
  {
  }

  /** What the chat has been told of after an operation. */
  ghost function StepLog(s: State, chat: string, segmentBytes: nat, op: Op): seq<Event>
    requires segmentBytes > 0 && Sized(op)
  {
    if op.Delete? then []
    else if op.news == [] then s.log
    else
      var es, ready := Stamping(s.folder, chat, op), Ready(s.folder, segmentBytes);
      s.log + if op.Append? then es else Survivors(OpenText(ready), es, Min(op.bytes, WriteLength(ready, es)))
  }

  ghost function Step(s: State, chat: string, segmentBytes: nat, op: Op): State
    requires segmentBytes > 0 && Sized(op)
  {
    State(StepFolder(s.folder, chat, segmentBytes, op), StepLog(s, chat, segmentBytes, op),
          if op.Delete? then 0 else if op.Crash? && op.news != [] then s.crashes + 1 else s.crashes)
  }

  ghost function Run(chat: string, segmentBytes: nat, ops: seq<Op>): State
    requires segmentBytes > 0 && forall i | 0 <= i < |ops| :: Sized(ops[i])
  {
    if ops == [] then START else Step(Run(chat, segmentBytes, ops[..|ops| - 1]), chat, segmentBytes, ops[|ops| - 1])
  }

  lemma RunOneMore(chat: string, segmentBytes: nat, ops: seq<Op>, i: nat)
    requires segmentBytes > 0 && i < |ops| && forall j | 0 <= j < |ops| :: Sized(ops[j])
    ensures Run(chat, segmentBytes, ops[..i + 1]) == Step(Run(chat, segmentBytes, ops[..i]), chat, segmentBytes, ops[i])
  {
    hide Step;
    assert ops[..i + 1][..i] == ops[..i];
  }

  ghost predicate NumberedFromOne(events: seq<Event>) {
    forall i | 0 <= i < |events| :: events[i].seqNo == i + 1
  }

  ghost predicate Faithful(s: State) {
    && Good(s.folder)
    && ReadFolder(s.folder).events == s.log
    && ReadFolder(s.folder).skipped <= s.crashes
    && NumberedFromOne(s.log)
  }

  lemma StampAllValid(news: seq<NewEvent>, chat: string, first: nat, ids: seq<string>, now: string)
    requires |ids| == |news| && forall i | 0 <= i < |news| :: ValidNew(news[i])
    ensures ValidEvents(StampAll(news, chat, first, ids, now))
  {
    forall i | 0 <= i < |news| ensures ValidEvent(StampAll(news, chat, first, ids, now)[i]) {
      StampedValid(news[i], chat, first + i, ids[i], now);
    }
  }

  lemma NumberedOn(log: seq<Event>, es: seq<Event>, part: seq<Event>)
    requires NumberedFromOne(log) && part <= es
    requires forall i | 0 <= i < |es| :: es[i].seqNo == |log| + 1 + i
    ensures NumberedFromOne(log + part)
  {
  }

  lemma CutFaithful(s: State, es: seq<Event>, k: nat)
    requires Faithful(s) && ValidEvents(es) && k <= WriteLength(s.folder, es)
    requires forall i | 0 <= i < |es| :: es[i].seqNo == |s.log| + 1 + i
    ensures Faithful(State(Written(s.folder, es, k), s.log + Survivors(OpenText(s.folder), es, k), s.crashes + 1))
  {
    WrittenReads(s.folder, es, k);
    SurvivorsRead(ReadFolder(s.folder), OpenText(s.folder), es, k);
    NumberedOn(s.log, es, Survivors(OpenText(s.folder), es, k));
  }

  lemma WholeFaithful(s: State, es: seq<Event>)
    requires Faithful(s) && ValidEvents(es)
    requires forall i | 0 <= i < |es| :: es[i].seqNo == |s.log| + 1 + i
    ensures Faithful(State(Written(s.folder, es, WriteLength(s.folder, es)), s.log + es, s.crashes))
  {
    AppendedReads(s.folder, es);
    NumberedOn(s.log, es, es);
  }

  lemma ReadyFaithful(s: State, segmentBytes: nat)
    requires segmentBytes > 0 && Faithful(s) && HasRoom(s.folder, segmentBytes)
    ensures Faithful(s.(folder := Ready(s.folder, segmentBytes)))
  {
    ReadyReads(s.folder, segmentBytes);
  }

  /** The number read from the files is the one after the last event the chat was told of. */
  lemma NumberReread(s: State, chat: string, op: Op)
    requires Faithful(s) && ValidOp(op) && !op.Delete?
    ensures NextSeq(ReadFolder(s.folder).events) == |s.log| + 1
    ensures var es := Stamping(s.folder, chat, op);
      ValidEvents(es) && forall i | 0 <= i < |es| :: es[i].seqNo == |s.log| + 1 + i
  {
    StampAllValid(op.news, chat, NextSeq(ReadFolder(s.folder).events), op.ids, op.now);
  }

  lemma StepFaithful(s: State, chat: string, segmentBytes: nat, op: Op)
    requires segmentBytes > 0 && Faithful(s) && ValidOp(op) && HasRoom(s.folder, segmentBytes)
    ensures Faithful(Step(s, chat, segmentBytes, op))
  {
    hide Ready, Written, ReadFolder, ClosedNames, Survivors, HasRoom;
    if op.Delete? {
      DeletedReads(s.folder);
    } else if op.news != [] {
      var es, ready := Stamping(s.folder, chat, op), Ready(s.folder, segmentBytes);
      NumberReread(s, chat, op);
      ReadyFaithful(s, segmentBytes);
      if op.Append? {
        WholeFaithful(s.(folder := ready), es);
      } else {
        CutFaithful(s.(folder := ready), es, Min(op.bytes, WriteLength(ready, es)));
      }
    }
  }

  /**
   For every run and every segment size: a read gives exactly the events appended since the last
   delete, in order and numbered from 1; a crashed append adds the events whose lines were complete,
   and there are at most as many unreadable lines as crashes.
   */
  lemma {:induction false} RunFaithful(chat: string, segmentBytes: nat, ops: seq<Op>)
    requires segmentBytes > 0
    requires forall i | 0 <= i < |ops| :: Sized(ops[i]) && ValidOp(ops[i])
    requires forall n | 0 <= n < |ops| :: HasRoom(Run(chat, segmentBytes, ops[..n]).folder, segmentBytes)
    ensures Faithful(Run(chat, segmentBytes, ops))
  {
    if ops == [] {
      NewFolderReads(map[]);
    } else {
      var front := ops[..|ops| - 1];
      forall n | 0 <= n < |front| ensures HasRoom(Run(chat, segmentBytes, front[..n]).folder, segmentBytes) {
        assert front[..n] == ops[..n];
      }
      RunFaithful(chat, segmentBytes, front);
      StepFaithful(Run(chat, segmentBytes, front), chat, segmentBytes, ops[|ops| - 1]);
    }
  }

  // ----- how many segments a run closes -----

  /** An operation closes one segment at most. */
  lemma StepNames(f: Folder, chat: string, segmentBytes: nat, op: Op)
    requires segmentBytes > 0 && Sized(op) && Good(f) && HasRoom(f, segmentBytes)
    ensures |ClosedNames(StepFolder(f, chat, segmentBytes, op))| <= |ClosedNames(f)| + 1
  {
    if op.Delete? {
      DeletedReads(f);
    } else if op.news != [] {
      var ready := Ready(f, segmentBytes);
      if |OpenText(f)| >= segmentBytes { RotatedNames(f); }
      WrittenNames(ready, StepFolder(f, chat, segmentBytes, op)[OPEN]);
    }
  }

  /** No run of up to 9,999 operations runs out of four-digit names, so all of these are faithful. */
  lemma {:induction false} ShortRunFaithful(chat: string, segmentBytes: nat, ops: seq<Op>)
    requires segmentBytes > 0 && |ops| <= MAX_SEGMENTS
    requires forall i | 0 <= i < |ops| :: Sized(ops[i]) && ValidOp(ops[i])
    ensures Faithful(Run(chat, segmentBytes, ops))
    ensures |ClosedNames(Run(chat, segmentBytes, ops).folder)| <= |ops|
  {
    if ops == [] {
      NewFolderReads(map[]);
    } else {
      var front := ops[..|ops| - 1];
      ShortRunFaithful(chat, segmentBytes, front);
      var s := Run(chat, segmentBytes, front);
      StepFaithful(s, chat, segmentBytes, ops[|ops| - 1]);
      StepNames(s.folder, chat, segmentBytes, ops[|ops| - 1]);
    }
  }
}
