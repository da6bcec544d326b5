/**
 Files changed from outside (agents/src/memory/store.rs): when a shared read tells, and what an append
 makes of it that starts from the open segment's size as the chat's cached state has it.
 */
module OutsideEdits {
  import opened Events
  import opened Log
  import opened Folders
  import opened LogRuns
  import opened HotLogs

  // ----- an append that starts from a cached size -----

  /**
   Whether the append gets to write: a segment that counts as full must be there to be closed, and one
   that counts as not empty must have a last byte.
   */
  predicate CanAppend(f: Folder, cached: nat, segmentBytes: nat) {
    if cached >= segmentBytes then OPEN in f else cached > 0 ==> OpenText(f) != ""
  }

  function ReadyFrom(f: Folder, cached: nat, segmentBytes: nat): Folder
    requires CanAppend(f, cached, segmentBytes)
  {
    if cached >= segmentBytes then Rotated(f) else f
  }

  /** The cached size once a full segment is closed. */
  function StartFrom(cached: nat, segmentBytes: nat): nat { if cached >= segmentBytes then 0 else cached }

  /** A cut line is looked for only in a segment that counts as not empty. */
  function RepairFrom(ready: Folder, start: nat): string { if start > 0 then Repair(OpenText(ready)) else "" }

  /** The folder right before the append writes its lines. */
  function PreparedFrom(f: Folder, cached: nat, segmentBytes: nat): Folder
    requires CanAppend(f, cached, segmentBytes)
  {
    var ready := ReadyFrom(f, cached, segmentBytes);
    ready[OPEN := OpenText(ready) + RepairFrom(ready, StartFrom(cached, segmentBytes))]
  }

  /** The size the append then takes the open segment to have. */
  function SizeFrom(f: Folder, cached: nat, segmentBytes: nat): nat
    requires CanAppend(f, cached, segmentBytes)
  {
    var start := StartFrom(cached, segmentBytes);
    start + |RepairFrom(ReadyFrom(f, cached, segmentBytes), start)|
  }

  function AppendedFrom(f: Folder, cached: nat, segmentBytes: nat, es: seq<Event>): Folder
    requires CanAppend(f, cached, segmentBytes)
  {
    var p := PreparedFrom(f, cached, segmentBytes);
    p[OPEN := OpenText(p) + Buffer(es)]
  }

  /** The stamp by which the append knows the hot log it extends, and the one it gives that. */
  function StampBefore(f: Folder, cached: nat, segmentBytes: nat): Stamp
    requires CanAppend(f, cached, segmentBytes)
  {
    Stamp(|ClosedNames(PreparedFrom(f, cached, segmentBytes))|, SizeFrom(f, cached, segmentBytes))
  }

  function StampAfter(before: Stamp, es: seq<Event>): Stamp { before.(openBytes := before.openBytes + |Buffer(es)|) }

  /** What an append leaves that does not get to write: it has made an open segment if there was none. */
  function FailedFrom(f: Folder, cached: nat, segmentBytes: nat): Folder {
    if cached >= segmentBytes then f else f[OPEN := OpenText(f)]
  }

  lemma RotatedOpen(f: Folder)
    ensures OPEN in f ==> OpenText(Rotated(f)) == ""
  {
    ClosedNameIsClosed(|ClosedNames(f)| + 1);
  }

  lemma WrittenWhole(ready: Folder, es: seq<Event>)
    ensures Written(ready, es, WriteLength(ready, es))
      == ready[OPEN := OpenText(ready) + Repair(OpenText(ready)) + Buffer(es)]
  {
    var all := Repair(OpenText(ready)) + Buffer(es);
    assert all[..|all|] == all;
    assert OpenText(ready) + all == OpenText(ready) + Repair(OpenText(ready)) + Buffer(es);
  }

  /** The stamps and the text of an append, by the folder it is ready to write to. */
  lemma AppendedIs(f: Folder, cached: nat, segmentBytes: nat, es: seq<Event>)
    requires CanAppend(f, cached, segmentBytes)
    ensures var ready, start := ReadyFrom(f, cached, segmentBytes), StartFrom(cached, segmentBytes);
      var g, before := AppendedFrom(f, cached, segmentBytes, es), StampBefore(f, cached, segmentBytes);
      && OpenText(g) == OpenText(ready) + RepairFrom(ready, start) + Buffer(es)
      && g == ready[OPEN := OpenText(g)]
      && before == Stamp(|ClosedNames(ready)|, start + |RepairFrom(ready, start)|)
      && StampOf(g) == Stamp(before.closed, |OpenText(g)|)
  {
    var ready := ReadyFrom(f, cached, segmentBytes);
    var p, g := PreparedFrom(f, cached, segmentBytes), AppendedFrom(f, cached, segmentBytes, es);
    WrittenNames(ready, OpenText(p));
    WrittenNames(p, OpenText(g));
  }

  /** With the true size, the append is the one of the runs. */
  lemma FromTrueStart(f: Folder, cached: nat, segmentBytes: nat, es: seq<Event>)
    requires CanAppend(f, cached, segmentBytes)
    requires StartFrom(cached, segmentBytes) == |OpenText(ReadyFrom(f, cached, segmentBytes))|
    ensures var ready := ReadyFrom(f, cached, segmentBytes);
      && AppendedFrom(f, cached, segmentBytes, es) == Written(ready, es, WriteLength(ready, es))
      && StampBefore(f, cached, segmentBytes) == WriteStamp(ready)
  {
    var ready := ReadyFrom(f, cached, segmentBytes);
    AppendedIs(f, cached, segmentBytes, es);
    hide ReadyFrom, AppendedFrom, StampBefore, Written, ClosedNames;
    assert RepairFrom(ready, |OpenText(ready)|) == Repair(OpenText(ready));
    WrittenWhole(ready, es);
  }

  /** Started from the size the open segment has, an append is the one of the runs. */
  lemma FromTrueSize(f: Folder, segmentBytes: nat, es: seq<Event>)
    requires segmentBytes > 0
    ensures var cached, ready := |OpenText(f)|, Ready(f, segmentBytes);
      && CanAppend(f, cached, segmentBytes)
      && AppendedFrom(f, cached, segmentBytes, es) == Appended(f, segmentBytes, es)
      && StampBefore(f, cached, segmentBytes) == WriteStamp(ready)
      && StampAfter(WriteStamp(ready), es) == StampOf(Appended(f, segmentBytes, es))
  {
    var cached, ready := |OpenText(f)|, Ready(f, segmentBytes);
    RotatedOpen(f);
    assert ready == ReadyFrom(f, cached, segmentBytes) && |OpenText(ready)| == StartFrom(cached, segmentBytes);
    FromTrueStart(f, cached, segmentBytes, es);
    WrittenStamp(ready, es);
  }

  lemma ReadyFromReads(f: Folder, cached: nat, segmentBytes: nat)
    requires CanAppend(f, cached, segmentBytes) && Good(f)
    requires cached >= segmentBytes ==> |ClosedNames(f)| < MAX_SEGMENTS
    ensures var ready := ReadyFrom(f, cached, segmentBytes);
      && Good(ready) && ReadFolder(ready) == ReadFolder(f)
      && OpenText(ready) == (if cached >= segmentBytes then "" else OpenText(f))
  {
    if cached >= segmentBytes {
      RotatedOpen(f);
      RotatedNames(f);
      RotationReadsSame(f);
    }
  }

  /** The append's stamp fits the files it leaves when it starts from the true size, and then these read on. */
  lemma FitsFrom(f: Folder, cached: nat, segmentBytes: nat, es: seq<Event>)
    requires CanAppend(f, cached, segmentBytes) && Good(f) && ValidEvents(es)
    requires cached >= segmentBytes ==> |ClosedNames(f)| < MAX_SEGMENTS
    ensures var g, fits := AppendedFrom(f, cached, segmentBytes, es), cached >= segmentBytes || cached == |OpenText(f)|;
      && (StampAfter(StampBefore(f, cached, segmentBytes), es) == StampOf(g) <==> fits)
      && (fits ==> ReadFolder(g) == ReadLog(ReadFolder(f).events + es, ReadFolder(f).skipped))
  {
    var ready, start := ReadyFrom(f, cached, segmentBytes), StartFrom(cached, segmentBytes);
    ReadyFromReads(f, cached, segmentBytes);
    AppendedIs(f, cached, segmentBytes, es);
    hide ReadFolder, ReadyFrom, AppendedFrom, StampBefore, StampOf, Good, ClosedNames;
    if start == |OpenText(ready)| {
      FromTrueStart(f, cached, segmentBytes, es);
      AppendedReads(ready, es);
    }
  }

  // ----- edits -----

  /** After an edit shared reads are right unless some other text is kept hot under the new stamp. */
  lemma OutsideEdit(disk: Disk, hot: seq<HotLog>, chat: string, g: Folder)
    requires HotTrue(disk, hot)
    ensures HotTrue(disk[chat := g], hot) <==>
      forall i | 0 <= i < |hot| && hot[i].chat == chat :: hot[i].stamp != StampOf(g) || hot[i].log == ReadFolder(g)
  {
    var d := disk[chat := g];
    forall i | 0 <= i < |hot| ensures RightIfFits(d, hot[i]) <==>
        (hot[i].chat == chat ==> hot[i].stamp != StampOf(g) || hot[i].log == ReadFolder(g))
    {
      assert RightIfFits(disk, hot[i]);
      if hot[i].chat != chat { assert FolderOf(d, hot[i].chat) == FolderOf(disk, hot[i].chat); }
    }
  }

  /** An edit that changes the stamp leaves the hot logs of a store true that had only changed the files itself. */
  lemma StampChanged(disk: Disk, hot: seq<HotLog>, chat: string, g: Folder)
    requires HotValid(disk, hot) && StampOf(g) != StampOf(FolderOf(disk, chat))
    ensures HotTrue(disk[chat := g], hot)
  {
    forall i | 0 <= i < |hot| ensures RightIfFits(disk, hot[i]) && Fresh(disk, hot[i]) {}
    OutsideEdit(disk, hot, chat, g);
  }

  lemma SameBefore(a: ReadLog, b: ReadLog, es: seq<Event>)
    ensures ReadLog(a.events + es, a.skipped) == ReadLog(b.events + es, b.skipped) <==> a == b
  {
    assert (a.events + es)[..|a.events|] == a.events;
    assert (b.events + es)[..|b.events|] == b.events;
    if a.events + es == b.events + es { assert |a.events| == |b.events|; }
  }

  /**
   An append extends the hot log whose stamp is the one it starts from. When files were changed from
   outside, shared reads stay right if and only if the size it starts from is not that of the open
   segment, so that the extended log fits no files, or the log it extends was right.
   */
  lemma AppendAfterEdit(disk: Disk, hot: seq<HotLog>, chat: string, cached: nat, segmentBytes: nat, es: seq<Event>)
    requires HotTrue(disk, hot) && ValidEvents(es)
    requires var f := FolderOf(disk, chat);
      Good(f) && CanAppend(f, cached, segmentBytes) && (cached >= segmentBytes ==> |ClosedNames(f)| < MAX_SEGMENTS)
    ensures var f := FolderOf(disk, chat);
      var g, before := AppendedFrom(f, cached, segmentBytes, es), StampBefore(f, cached, segmentBytes);
      HotTrue(disk[chat := g], AfterAppend(hot, chat, before, StampAfter(before, es), es)) <==>
        (cached >= segmentBytes || cached == |OpenText(f)| ==>
          forall i | 0 <= i < |hot| && hot[i].chat == chat && hot[i].stamp == before :: hot[i].log == ReadFolder(f))
  {
    var f := FolderOf(disk, chat);
    var g, before := AppendedFrom(f, cached, segmentBytes, es), StampBefore(f, cached, segmentBytes);
    FitsFrom(f, cached, segmentBytes, es);
    hide ReadFolder, StampOf, StampBefore, AppendedFrom, FolderOf, Good;
    if cached >= segmentBytes || cached == |OpenText(f)| {
      ExtendedTrue(disk, hot, chat, before, g, es);
    } else {
      ExtendedElsewhere(disk, hot, chat, before, StampAfter(before, es), g, es);
    }
  }

  /** A hot log that is given a stamp the files do not have harms no shared read. */
  lemma ExtendedElsewhere(disk: Disk, hot: seq<HotLog>, chat: string, before: Stamp, after: Stamp, g: Folder,
      es: seq<Event>)
    requires HotTrue(disk, hot) && after != StampOf(g)
    ensures HotTrue(disk[chat := g], AfterAppend(hot, chat, before, after, es))
  {
    var next := AfterAppend(hot, chat, before, after, es);
    AfterAppendShape(hot, chat, before, after, es);
    hide ReadFolder, StampOf, AfterAppend;
    assert FolderOf(disk[chat := g], chat) == g;
    forall i | 0 <= i < |next| ensures RightIfFits(disk[chat := g], next[i]) {
      if next[i].chat != chat {
        var k :| 0 <= k < |hot| && hot[k] == next[i];
        OtherRight(disk, hot[k], chat, g);
      }
    }
  }

  /** An append that does not get to write changes neither what is read nor the stamp. */
  lemma FailedAppend(disk: Disk, hot: seq<HotLog>, chat: string, cached: nat, segmentBytes: nat)
    requires var f := FolderOf(disk, chat); Good(f) && !CanAppend(f, cached, segmentBytes)
    requires HotTrue(disk, hot)
    ensures var f := FolderOf(disk, chat);
      var g := FailedFrom(f, cached, segmentBytes);
      ReadFolder(g) == ReadFolder(f) && StampOf(g) == StampOf(f) && HotTrue(disk[chat := g], hot)
  {
    var f := FolderOf(disk, chat);
    var g := FailedFrom(f, cached, segmentBytes);
    WrittenNames(f, OpenText(f));
    ClosedLogFrame(f, OpenText(f));
    hide Segments, ReadSegments;
    assert ReadFolder(g) == ReadFolder(f) && StampOf(g) == StampOf(f);
    forall i | 0 <= i < |hot| ensures RightIfFits(disk[chat := g], hot[i]) {
      assert RightIfFits(disk, hot[i]);
      assert hot[i].chat != chat ==> FolderOf(disk[chat := g], hot[i].chat) == FolderOf(disk, hot[i].chat);
    }
  }

  lemma ExtendedTrue(disk: Disk, hot: seq<HotLog>, chat: string, before: Stamp, g: Folder, es: seq<Event>)
    requires HotTrue(disk, hot)
    requires var log := ReadFolder(FolderOf(disk, chat)); ReadFolder(g) == ReadLog(log.events + es, log.skipped)
    ensures HotTrue(disk[chat := g], AfterAppend(hot, chat, before, StampOf(g), es)) <==>
      forall i | 0 <= i < |hot| && hot[i].chat == chat && hot[i].stamp == before ::
          hot[i].log == ReadFolder(FolderOf(disk, chat))
  {
    var at := IndexOf(hot, chat);
    hide ReadFolder, StampOf, RightIfFits;
    if at == |hot| {
      OtherFoldersTrue(disk, hot, chat, g);
    } else if hot[at].stamp == before {
      ExtendedAt(disk, hot, at, g, es);
    } else {
      OthersValid(disk, hot, chat);
      OthersAre(hot, chat);
      OtherFoldersTrue(disk, Others(hot, chat), chat, g);
    }
  }

  lemma OtherFoldersTrue(disk: Disk, hot: seq<HotLog>, chat: string, g: Folder)
    requires HotTrue(disk, hot) && forall i | 0 <= i < |hot| :: hot[i].chat != chat
    ensures HotTrue(disk[chat := g], hot)
  {
    hide RightIfFits;
    forall i | 0 <= i < |hot| ensures RightIfFits(disk[chat := g], hot[i]) { OtherRight(disk, hot[i], chat, g); }
  }

  lemma ExtendedAt(disk: Disk, hot: seq<HotLog>, at: nat, g: Folder, es: seq<Event>)
    requires HotTrue(disk, hot) && at < |hot|
    requires var log := ReadFolder(FolderOf(disk, hot[at].chat)); ReadFolder(g) == ReadLog(log.events + es, log.skipped)
    ensures var h := hot[at];
      HotTrue(disk[h.chat := g], hot[at := HotLog(h.chat, StampOf(g), ReadLog(h.log.events + es, h.log.skipped))]) <==>
        h.log == ReadFolder(FolderOf(disk, h.chat))
  {
    hide ReadFolder, StampOf, RightIfFits, FolderOf;
    var h := hot[at];
    var next := hot[at := HotLog(h.chat, StampOf(g), ReadLog(h.log.events + es, h.log.skipped))];
    ExtendedRight(disk, h, g, es);
    forall i | 0 <= i < |next| && i != at ensures RightIfFits(disk[h.chat := g], next[i]) {
      assert next[i] == hot[i] && hot[i].chat != h.chat;
      OtherRight(disk, hot[i], h.chat, g);
    }
    assert OnePerChat(next);
    assert HotTrue(disk[h.chat := g], next) <==> RightIfFits(disk[h.chat := g], next[at]);
  }

  lemma OtherRight(disk: Disk, h: HotLog, chat: string, g: Folder)
    requires RightIfFits(disk, h) && h.chat != chat
    ensures RightIfFits(disk[chat := g], h)
  {
    assert FolderOf(disk[chat := g], h.chat) == FolderOf(disk, h.chat);
  }

  lemma ExtendedRight(disk: Disk, h: HotLog, g: Folder, es: seq<Event>)
    requires var log := ReadFolder(FolderOf(disk, h.chat)); ReadFolder(g) == ReadLog(log.events + es, log.skipped)
    ensures RightIfFits(disk[h.chat := g], HotLog(h.chat, StampOf(g), ReadLog(h.log.events + es, h.log.skipped))) <==>
            h.log == ReadFolder(FolderOf(disk, h.chat))
  {
    hide ReadFolder, StampOf;
    assert FolderOf(disk[h.chat := g], h.chat) == g;
    SameBefore(h.log, ReadFolder(FolderOf(disk, h.chat)), es);
  }

  /** A chat with nothing but an open segment. */
  lemma OnlyOpen(f: Folder)
    requires f.Keys == {OPEN}
    ensures Good(f) && ReadFolder(f) == ReadText(EMPTY_LOG, f[OPEN]) && StampOf(f) == Stamp(0, |f[OPEN]|)
  {
    ClosedNameIsClosed(1);
    NoClosedNames(f);
    hide ReadText, ClosedNames;
    SegmentsAre(f);
    assert Segments(f) == [] && NamesUpTo(0) == [];
  }

  lemma NoClosedNames(f: Folder)
    requires f.Keys == {OPEN} && !IsClosedName(OPEN)
    ensures ClosedNames(f) == {}
  {
    hide IsClosedName;
    forall name | name in f ensures !IsClosedName(name) {}
  }

  lemma UnreadableAndBlank()
    ensures ReadText(EMPTY_LOG, "x\n") == ReadLog([], 1) && ReadText(EMPTY_LOG, " ") == EMPTY_LOG
  {
    assert LineLength("x\n") == 1 && "x\n"[..1] == "x" && "x\n"[2..] == "";
    assert !AsciiWhitespace("x"[0]);
    assert LineLength(" ") == 1 && " "[..1] == " ";
  }

  /**
   A line that was unreadable, cut to a blank from outside: an append ends the line, which brings back
   the old stamp, and keeps counting it, if and only if the chat's state was read after the edit.
   */
  lemma StaleAfterRepair(chat: string, cached: nat, segmentBytes: nat, es: seq<Event>)
    requires segmentBytes > 2 && ValidEvents(es)
    ensures var hot := [HotLog(chat, Stamp(0, 2), ReadLog([], 1))];
      var f: Folder := map[OPEN := " "];
      && HotValid(map[chat := map[OPEN := "x\n"]], hot)
      && HotTrue(map[chat := f], hot) && CanAppend(f, cached, segmentBytes)
      && var g, before := AppendedFrom(f, cached, segmentBytes, es), StampBefore(f, cached, segmentBytes);
         HotTrue(map[chat := f][chat := g], AfterAppend(hot, chat, before, StampAfter(before, es), es)) <==> cached != 1
  {
    var hot := [HotLog(chat, Stamp(0, 2), ReadLog([], 1))];
    var f: Folder := map[OPEN := " "];
    OnlyOpen(map[OPEN := "x\n"]);
    OnlyOpen(f);
    UnreadableAndBlank();
    AppendAfterEdit(map[chat := f], hot, chat, cached, segmentBytes, es);
    if cached >= segmentBytes { RotatedNames(f); }
    hide ReadText, ReadFolder, Good, ClosedNames;
    var before := StampBefore(f, cached, segmentBytes);
    StampOfBlank(f, cached, segmentBytes);
    assert hot[0].stamp == before <==> cached == 1;
  }

  lemma StampOfBlank(f: Folder, cached: nat, segmentBytes: nat)
    requires f == map[OPEN := " "] && StampOf(f) == Stamp(0, 1) && Good(f) && segmentBytes > 2
    ensures StampBefore(f, cached, segmentBytes) == Stamp(0, 2) <==> cached == 1
  {
    assert Repair(" ") == "\n";
    if cached >= segmentBytes { RotatedNames(f); }
    WrittenNames(ReadyFrom(f, cached, segmentBytes), OpenText(PreparedFrom(f, cached, segmentBytes)));
  }
}
