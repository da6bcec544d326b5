/**
 The built-in event store (agents/src/memory/store.rs): files on disk, the cached state of each chat,
 and the parsed logs of a few hot chats. Each method runs under its chat's lock, so it is one step.
 */
module JsonlStores {
  import opened Wrappers
  import opened Text
  import opened Sorting
  import opened Events
  import opened Log
  import opened Folders
  import opened Numbers
  import opened LogRuns
  import opened HotLogs
  import opened OutsideEdits

  class JsonlStore {
    const segmentBytes: nat
    var disk: Disk
    var chats: map<string, ChatState>
    var hot: seq<HotLog>
    /** The texts of large fields, by their references. */
    var blobs: Blobs

    ghost predicate Valid()
      reads this
    {
      segmentBytes > 0 && StoreValid(disk, chats, hot) && TrueBlobs(blobs)
    }

    /** A store over files that are already there: after a start, or after a crash. */
    constructor (disk: Disk, blobs: Blobs, segmentBytes: nat)
      requires DiskValid(disk) && TrueBlobs(blobs) && segmentBytes > 0
      ensures Valid() && this.disk == disk && this.blobs == blobs && this.segmentBytes == segmentBytes
      ensures chats == map[] && hot == []
    {
      this.disk, this.blobs, this.segmentBytes := disk, blobs, segmentBytes;
      chats, hot := map[], [];
    }

    ghost function Contents(chat: string): ReadLog
      reads this
    {
      ReadFolder(FolderOf(disk, chat))
    }

    lemma FolderGood(chat: string)
      requires Valid()
      ensures Good(FolderOf(disk, chat))
    {
      if chat !in disk { NewFolderReads(map[]); }
    }

    method ClosedSegments(chat: string) returns (names: seq<string>)
      ensures names == Segments(FolderOf(disk, chat))
    {
      var f := FolderOf(disk, chat);
      var rest := f.Keys;
      names := [];
      while rest != {}
        invariant rest <= f.Keys
        invariant forall x :: x in names <==> x in ClosedNames(f) && x !in rest
        invariant forall i, j | 0 <= i < j < |names| :: names[i] != names[j]
      {
        var name :| name in rest;
        rest := rest - {name};
        if IsClosedName(name) {
          assert name !in names;
          names := names + [name];
        }
      }
      SortedSegments(f, names);
      names := Sort(Less, names);
    }

    static lemma SortedSegments(f: Folder, names: seq<string>)
      requires forall x :: x in names <==> x in ClosedNames(f)
      requires forall i, j | 0 <= i < j < |names| :: names[i] != names[j]
      ensures Sort(Less, names) == Segments(f)
    {
      LessIsStrict();
      forall i, j | 0 <= i < j < |names| ensures Less(names[i], names[j]) || Less(names[j], names[i]) {
        LessTotal(names[i], names[j]);
      }
      SortAscending(Less, names);
      SameMembers(Sort(Less, names), names);
      SegmentsAre(f);
      AscendingUnique(Less, Sort(Less, names), Segments(f));
    }

    static method ReadLines(text: string, before: ReadLog) returns (log: ReadLog)
      ensures log == ReadText(before, text)
    {
      log := before;
      var rest := text;
      while rest != ""
        invariant ReadText(log, rest) == ReadText(before, text)
        decreases |rest|
      {
        var n := LineLength(rest);
        var line := rest[..n];
        if !Blank(line) {
          match Decode(line) {
            case Some(e) => log := ReadLog(log.events + [e], log.skipped);
            case None => log := ReadLog(log.events, log.skipped + 1);
          }
        }
        rest := if n == |rest| then "" else rest[n + 1..];
      }
    }

    method Read(chat: string) returns (log: ReadLog)
      ensures log == Contents(chat)
    {
      var f := FolderOf(disk, chat);
      var names := ClosedSegments(chat);
      log := EMPTY_LOG;
      for i := 0 to |names|
        invariant log == ReadSegments(f, names[..i])
      {
        assert names[..i + 1][..i] == names[..i];
        log := ReadLines(FileText(f, names[i]), log);
      }
      assert names[..|names|] == names;
      if OPEN in f {
        log := ReadLines(f[OPEN], log);
      }
    }

    method StampNow(chat: string) returns (stamp: Stamp)
      ensures stamp == StampOf(FolderOf(disk, chat))
    {
      var f := FolderOf(disk, chat);
      var names := ClosedSegments(chat);
      SegmentsAre(f);
      stamp := Stamp(|names|, |OpenText(f)|);
    }

    /** The cached state; a chat that has none gets it from its files. */
    method State(chat: string) returns (state: ChatState)
      requires Valid()
      modifies this`chats
      ensures Valid() && state == StateOf(FolderOf(disk, chat)) && chats == old(chats)[chat := state]
    {
      if chat !in chats {
        var log := Read(chat);
        chats := chats[chat := ChatState(NextSeq(log.events), |OpenText(FolderOf(disk, chat))|)];
      }
      state := chats[chat];
    }

    /** Closes the open segment under the next number. */
    method Rotate(chat: string)
      requires OPEN in FolderOf(disk, chat)
      modifies this`disk
      ensures disk == old(disk)[chat := Rotated(FolderOf(old(disk), chat))]
    {
      var f := FolderOf(disk, chat);
      var names := ClosedSegments(chat);
      SegmentsAre(f);
      var closed := ClosedName(|names| + 1);
      disk := disk[chat := f[closed := f[OPEN]] - {OPEN}];
    }

    /** What a reference in an event stands for. */
    method GetBlob(ref: string) returns (text: Option<string>)
      requires Valid()
      ensures text == if ref in blobs then Some(blobs[ref]) else None
      ensures text.Some? ==> ref == BlobRef(text.value)
    {
      text := if ref in blobs then Some(blobs[ref]) else None;
    }

    /** The events an append writes, and the bytes of their lines. */
    method Encode(chat: string, news: seq<NewEvent>, ids: seq<string>, now: string, first: nat)
      returns (written: seq<Event>, buffer: string)
      requires |ids| == |news|
      modifies this`blobs
      ensures written == StampAll(news, chat, first, ids, now) && buffer == Buffer(written)
      ensures blobs == AllBlobs(old(blobs), news)
    {
      written, buffer := [], "";
      hide Stamped, FieldBlobs, Line;
      for i := 0 to |news|
        invariant written == StampAll(news, chat, first, ids, now)[..i]
        invariant buffer == Buffer(written)
        invariant blobs == BlobsUpTo(old(blobs), news, i)
      {
        var event;
        event, blobs := Events.Stamp(news[i], chat, first + i, ids[i], now, blobs);
        BufferPush(written, event);
        buffer := buffer + Line(event);
        buffer := buffer + "\n";
        written := written + [event];
      }
    }

    static lemma {:induction false} BufferPush(es: seq<Event>, e: Event)
      ensures Buffer(es + [e]) == Buffer(es) + Line(e) + "\n"
      decreases |es|
    {
      if es == [] {
        assert es + [e] == [e];
      } else {
        BufferPush(es[1..], e);
        assert (es + [e])[1..] == es[1..] + [e];
      }
    }

    /** Appends `news` to the chat's log, closing a full segment first and ending a cut line. */
    method Append(chat: string, news: seq<NewEvent>, ids: seq<string>, now: string) returns (written: seq<Event>)
      requires Valid() && |ids| == |news| && forall i | 0 <= i < |news| :: ValidNew(news[i])
      requires news != [] ==> HasRoom(FolderOf(disk, chat), segmentBytes)
      modifies this
      ensures Valid()
      ensures var es := old(Contents(chat)).events;
        AllMadeOf(written, news, chat, if es == [] then 1 else es[|es| - 1].seqNo + 1, ids, now)
      ensures written == StampAll(news, chat, NextSeq(old(Contents(chat)).events), ids, now)
      ensures TextsKept(old(blobs), news, blobs)
      ensures Contents(chat) == ReadLog(old(Contents(chat)).events + written, old(Contents(chat)).skipped)
      ensures FolderOf(disk, chat) ==
              StepFolder(FolderOf(old(disk), chat), chat, segmentBytes, LogRuns.Append(news, ids, now))
      ensures forall c | c != chat :: FolderOf(disk, c) == FolderOf(old(disk), c)
      ensures news == [] ==> hot == old(hot)
      ensures news != [] ==> Extends(old(disk), old(hot), chat, written)
      ensures blobs == AllBlobs(old(blobs), news)
    {
      TextsAreKept(blobs, news);
      StampAllMeans(news, chat, NextSeq(Contents(chat).events), ids, now);
      hide AllMadeOf, TextsKept, FieldBlobs, StepFolder, Extends;
      if news == [] {
        Unwritten(old(Contents(chat)));
        return [];
      }
      written := AppendSome(chat, news, ids, now);
    }

    method AppendSome(chat: string, news: seq<NewEvent>, ids: seq<string>, now: string) returns (written: seq<Event>)
      requires Valid() && |ids| == |news| && forall i | 0 <= i < |news| :: ValidNew(news[i])
      requires HasRoom(FolderOf(disk, chat), segmentBytes) && news != []
      modifies this
      ensures Valid()
      ensures forall c | c != chat :: FolderOf(disk, c) == FolderOf(old(disk), c)
      ensures written == StampAll(news, chat, NextSeq(old(Contents(chat)).events), ids, now)
      ensures Contents(chat) == ReadLog(old(Contents(chat)).events + written, old(Contents(chat)).skipped)
      ensures Extends(old(disk), old(hot), chat, written)
      ensures blobs == AllBlobs(old(blobs), news)
    {
      hide Appended, ReadFolder, Ready, Buffer, AfterAppend, Good, WriteStamp, HotValid, DiskValid, ChatsValid, HasRoom;
      CreateFolder(chat);
      var state := State(chat);
      assert FolderOf(old(disk), chat) == disk[chat];
      written := Commit(chat, news, ids, now, state);
    }

    method Commit(chat: string, news: seq<NewEvent>, ids: seq<string>, now: string, state: ChatState)
      returns (written: seq<Event>)
      requires Valid() && |ids| == |news| && (forall i | 0 <= i < |news| :: ValidNew(news[i])) && news != []
      requires chat in disk && HasRoom(disk[chat], segmentBytes) && state == StateOf(disk[chat])
      modifies this
      ensures Valid() && disk.Keys == old(disk).Keys
      ensures forall c | c in disk && c != chat :: disk[c] == old(disk)[c]
      ensures written == StampAll(news, chat, NextSeq(old(Contents(chat)).events), ids, now)
      ensures Contents(chat) == ReadLog(old(Contents(chat)).events + written, old(Contents(chat)).skipped)
      ensures Extends(old(disk), old(hot), chat, written)
      ensures blobs == AllBlobs(old(blobs), news)
    {
      hide Appended, ReadFolder, Ready, Buffer, AfterAppend, Good, WriteStamp, HotValid, DiskValid, ChatsValid, HasRoom;
      var buffer;
      AllBlobsKeep(blobs, news);
      written, buffer := Encode(chat, news, ids, now, state.nextSeq);
      StampAllValid(news, chat, state.nextSeq, ids, now);
      Write(chat, written, buffer, state);
    }

    /**
     An append whose process dies when `bytes` bytes of its write have reached the file. What is left is
     the disk, over which a new store can be opened.
     */
    method AppendUntil(chat: string, news: seq<NewEvent>, ids: seq<string>, now: string, bytes: nat)
      requires Valid() && |ids| == |news| && forall i | 0 <= i < |news| :: ValidNew(news[i])
      requires news != [] ==> HasRoom(FolderOf(disk, chat), segmentBytes)
      modifies this
      ensures DiskValid(disk) && TrueBlobs(blobs)
      ensures FolderOf(disk, chat) ==
              StepFolder(FolderOf(old(disk), chat), chat, segmentBytes, LogRuns.Crash(news, ids, now, bytes))
      ensures forall c | c != chat :: FolderOf(disk, c) == FolderOf(old(disk), c)
    {
      if news != [] {
        hide ReadFolder, Ready, Buffer, Repair, HotValid, ChatsValid, HasRoom, NextSeq, AllBlobs, TrueBlobs, Good,
            CutShort;
        CreateFolder(chat);
        var state := State(chat);
        assert FolderOf(old(disk), chat) == disk[chat];
        CommitUntil(chat, news, ids, now, state, bytes);
      }
    }

    method CommitUntil(chat: string, news: seq<NewEvent>, ids: seq<string>, now: string, state: ChatState, bytes: nat)
      requires Valid() && |ids| == |news| && (forall i | 0 <= i < |news| :: ValidNew(news[i]))
      requires chat in disk && HasRoom(disk[chat], segmentBytes) && state == StateOf(disk[chat])
      modifies this`disk, this`blobs
      ensures DiskValid(disk) && TrueBlobs(blobs)
      ensures var f := old(disk)[chat];
        var es := StampAll(news, chat, NextSeq(ReadFolder(f).events), ids, now);
        disk == old(disk)[chat := CutShort(f, segmentBytes, es, bytes)]
    {
      hide ReadFolder, Ready, Buffer, Repair, HotValid, ChatsValid, HasRoom, NextSeq, AllBlobs, TrueBlobs, Good,
          CutShort;
      AllBlobsKeep(blobs, news);
      var written, buffer := Encode(chat, news, ids, now, state.nextSeq);
      StampAllValid(news, chat, state.nextSeq, ids, now);
      WriteUntil(chat, written, buffer, state, bytes);
    }

    method WriteUntil(chat: string, written: seq<Event>, buffer: string, state: ChatState, bytes: nat)
      requires segmentBytes > 0 && DiskValid(disk) && chat in disk && HasRoom(disk[chat], segmentBytes)
      requires state.openBytes == |OpenText(disk[chat])| && ValidEvents(written) && buffer == Buffer(written)
      modifies this`disk
      ensures DiskValid(disk)
      ensures disk == old(disk)[chat := CutShort(old(disk)[chat], segmentBytes, written, bytes)]
    {
      CutShortIs(disk[chat], segmentBytes, written, bytes);
      hide ReadFolder, Buffer, Repair, CutShort, Good, HasRoom, ValidEvents;
      if state.openBytes >= segmentBytes {
        Rotate(chat);
      }
      var ready := disk[chat];
      var text := OpenText(ready);
      var out := Repair(text) + buffer;
      disk := disk[chat := ready[OPEN := text + out[..Min(bytes, |out|)]]];
    }

    static lemma CutShortIs(f: Folder, segmentBytes: nat, es: seq<Event>, bytes: nat)
      requires segmentBytes > 0 && Good(f) && HasRoom(f, segmentBytes) && ValidEvents(es)
      ensures Good(CutShort(f, segmentBytes, es, bytes))
      ensures var ready := Ready(f, segmentBytes);
        var out := Repair(OpenText(ready)) + Buffer(es);
        CutShort(f, segmentBytes, es, bytes) == ready[OPEN := OpenText(ready) + out[..Min(bytes, |out|)]]
    {
      hide ReadFolder, Buffer;
      ReadyReads(f, segmentBytes);
      var ready := Ready(f, segmentBytes);
      WrittenReads(ready, es, Min(bytes, WriteLength(ready, es)));
    }

    /** The files and hot logs are those an append of `es` to the given ones leaves. */
    ghost predicate Extends(disk0: Disk, hot0: seq<HotLog>, chat: string, es: seq<Event>)
      reads this
    {
      var f := FolderOf(disk0, chat);
      && segmentBytes > 0
      && FolderOf(disk, chat) == Appended(f, segmentBytes, es)
      && hot == AfterAppend(hot0, chat, WriteStamp(Ready(f, segmentBytes)), StampOf(FolderOf(disk, chat)), es)
    }

    static lemma Unwritten(log: ReadLog)
      ensures ReadLog(log.events + [], log.skipped) == log
    {
    }

    /** An empty folder for a chat that has none. */
    method CreateFolder(chat: string)
      requires Valid()
      modifies this`disk
      ensures Valid() && chat in disk && forall c :: FolderOf(disk, c) == FolderOf(old(disk), c)
    {
      if chat !in disk {
        SameFolderValid(disk, chats, hot, chat);
        disk := disk[chat := map[]];
      }
    }

    /** Closes a full segment and ends a cut line, by the size the state gives; fails where a file is not as it says. */
    method Prepare(chat: string, state: ChatState) returns (ok: bool, openBytes: nat)
      requires chat in disk && segmentBytes > 0
      modifies this`disk
      ensures ok <==> CanAppend(old(disk)[chat], state.openBytes, segmentBytes)
      ensures ok ==> disk == old(disk)[chat := PreparedFrom(old(disk)[chat], state.openBytes, segmentBytes)]
      ensures ok ==> openBytes == SizeFrom(old(disk)[chat], state.openBytes, segmentBytes)
      ensures !ok ==> disk == old(disk)[chat := FailedFrom(old(disk)[chat], state.openBytes, segmentBytes)]
    {
      openBytes := state.openBytes;
      if openBytes >= segmentBytes {
        if OPEN !in disk[chat] {
          assert disk == old(disk)[chat := disk[chat]];
          return false, 0;
        }
        Rotate(chat);
        openBytes := 0;
      }
      var text := OpenText(disk[chat]);
      disk := disk[chat := disk[chat][OPEN := text]];
      if openBytes > 0 {
        if text == "" { return false, 0; }
        if text[|text| - 1] != '\n' {
          disk := disk[chat := disk[chat][OPEN := text + "\n"]];
          openBytes := openBytes + 1;
        }
      }
      ghost var f := old(disk)[chat];
      assert text + "" == text;
      assert disk[chat] == PreparedFrom(f, state.openBytes, segmentBytes) by {
        RotatedOpen(f);
        assert text == OpenText(ReadyFrom(f, state.openBytes, segmentBytes));
      }
      assert disk == old(disk)[chat := disk[chat]];
      ok := true;
    }

    /**
     Writes the lines and brings the caches up to date, starting from the size the state gives: nothing is
     asked of the files, which may have been changed from outside.
     */
    method WriteLines(chat: string, written: seq<Event>, buffer: string, state: ChatState) returns (ok: bool)
      requires chat in disk && segmentBytes > 0 && buffer == Buffer(written)
      modifies this`disk, this`chats, this`hot
      ensures ok <==> CanAppend(old(disk)[chat], state.openBytes, segmentBytes)
      ensures ok ==>
        var f, cached := old(disk)[chat], state.openBytes;
        var before := StampBefore(f, cached, segmentBytes);
        && disk == old(disk)[chat := AppendedFrom(f, cached, segmentBytes, written)]
        && chats == old(chats)[chat := ChatState(NextSeq(written), before.openBytes + |buffer|)]
        && hot == AfterAppend(old(hot), chat, before, StampAfter(before, written), written)
      ensures !ok ==>
        && disk == old(disk)[chat := FailedFrom(old(disk)[chat], state.openBytes, segmentBytes)]
        && chats == old(chats) && hot == old(hot)
    {
      hide PreparedFrom, SizeFrom, FailedFrom, CanAppend, AfterAppend, ClosedNames;
      var openBytes;
      ok, openBytes := Prepare(chat, state);
      if ok {
        var now := StampNow(chat);
        var before := Stamp(now.closed, openBytes);
        disk := disk[chat := disk[chat][OPEN := OpenText(disk[chat]) + buffer]];
        openBytes := openBytes + |buffer|;
        chats := chats[chat := ChatState(NextSeq(written), openBytes)];
        UpdateHot(chat, before, Stamp(before.closed, openBytes), written);
      }
    }

    /** Writes the lines to files that are as the state says. */
    method Write(chat: string, written: seq<Event>, buffer: string, state: ChatState)
      requires Valid() && chat in disk && HasRoom(disk[chat], segmentBytes)
      requires state.openBytes == |OpenText(disk[chat])|
      requires ValidEvents(written) && written != [] && buffer == Buffer(written)
      modifies this`disk, this`chats, this`hot
      ensures Valid()
      ensures disk == old(disk)[chat := Appended(old(disk)[chat], segmentBytes, written)]
      ensures Contents(chat) == ReadLog(old(Contents(chat)).events + written, old(Contents(chat)).skipped)
      ensures hot == AfterAppend(old(hot), chat, WriteStamp(Ready(old(disk)[chat], segmentBytes)), StampOf(disk[chat]),
        written)
    {
      hide Appended, AppendedFrom, ReadFolder, Ready, NextSeq, Buffer, AfterAppend, Good, WriteStamp, HotValid,
        DiskValid, ChatsValid, OpenText, CanAppend, StampBefore, ClosedNames;
      AppendValid(disk, chats, hot, chat, segmentBytes, written);
      FromTrueSize(disk[chat], segmentBytes, written);
      var ok := WriteLines(chat, written, buffer, state);
    }

    /** The first hot log of the chat stands there. */
    static ghost predicate FirstOf(hot: seq<HotLog>, chat: string, at: int) {
      0 <= at < |hot| && hot[at].chat == chat && forall i | 0 <= i < at :: hot[i].chat != chat
    }

    method UpdateHot(chat: string, before: Stamp, after: Stamp, written: seq<Event>)
      modifies this`hot
      ensures hot == AfterAppend(old(hot), chat, before, after, written)
      ensures (forall h | h in old(hot) :: h.chat != chat) ==> hot == old(hot)
      ensures forall at | FirstOf(old(hot), chat, at) ::
        var h := old(hot)[at];
        hot == if h.stamp == before
               then old(hot)[at := HotLog(chat, after, ReadLog(h.log.events + written, h.log.skipped))]
               else old(hot)[..at] + old(hot)[at + 1..]
    {
      var at := IndexOf(hot, chat);
      if at < |hot| {
        if hot[at].stamp == before {
          hot := hot[at := HotLog(chat, after, ReadLog(hot[at].log.events + written, hot[at].log.skipped))];
        } else {
          hot := hot[..at] + hot[at + 1..];
        }
      }
    }

    /**
     The log from the hot ones when its stamp fits the files, else read and kept hot. Files may have been
     changed from outside, as long as no stale hot log fits them.
     */
    method ReadShared(chat: string) returns (log: ReadLog)
      requires HotTrue(disk, hot)
      modifies this`hot
      ensures HotTrue(disk, hot) && log == Contents(chat)
      ensures old(Valid()) ==> Valid()
      ensures var others, f := Others(old(hot), chat), FolderOf(disk, chat);
        hot == (if |others| < 4 then others else others[1..]) +
               [HotLog(chat, Stamp(|ClosedNames(f)|, |FileText(f, OPEN)|), log)]
    {
      var stamp := StampNow(chat);
      PushValid(disk, hot, HotLog(chat, stamp, Contents(chat)));
      var at := IndexOf(hot, chat);
      if at < |hot| {
        var entry := hot[at];
        assert RightIfFits(disk, entry);
        hot := hot[..at] + hot[at + 1..];
        if entry.stamp == stamp {
          hot := hot + [entry];
          return entry.log;
        }
      }
      log := Read(chat);
      hot := hot + [HotLog(chat, stamp, log)];
      if |hot| > HOT_LOGS {
        hot := hot[1..];
      }
    }

    /** Removes the chat's log files, its state and its hot log. */
    method DeleteChat(chat: string) returns (report: DeleteReport)
      requires Valid()
      modifies this`disk, this`chats, this`hot
      ensures Valid() && Contents(chat) == EMPTY_LOG
      ensures chats == old(chats) - {chat} && hot == Others(old(hot), chat)
      ensures disk == old(disk)[chat := Deleted(FolderOf(old(disk), chat))]
      ensures FolderOf(disk, chat) == StepFolder(FolderOf(old(disk), chat), chat, segmentBytes, LogRuns.Delete)
      ensures var f := FolderOf(old(disk), chat);
        && report.files == |ClosedNames(f)| + (if OPEN in f then 1 else 0)
        && report.bytes == TotalBytes(f, Segments(f)) + |OpenText(f)|
    {
      DeleteValid(disk, chats, hot, chat);
      var left: Folder;
      left, report := RemoveFiles(chat);
      disk := disk[chat := left];
      chats := chats - {chat};
      var at := IndexOf(hot, chat);
      if at < |hot| {
        hot := hot[..at] + hot[at + 1..];
      }
    }

    method RemoveFiles(chat: string) returns (left: Folder, report: DeleteReport)
      ensures var f := FolderOf(disk, chat);
        && left == Deleted(f)
        && report.files == |ClosedNames(f)| + (if OPEN in f then 1 else 0)
        && report.bytes == TotalBytes(f, Segments(f)) + |OpenText(f)|
    {
      var f := FolderOf(disk, chat);
      var files := ClosedSegments(chat);
      SegmentsAre(f);
      left, report := RemoveClosed(f, files);
      left, report := RemoveOpen(f, left, report);
    }

    static method RemoveOpen(f: Folder, before: Folder, closed: DeleteReport)
        returns (left: Folder, report: DeleteReport)
      requires before == f - ClosedNames(f)
      ensures left == Deleted(f)
      ensures report == DeleteReport(closed.files + (if OPEN in f then 1 else 0), closed.bytes + |OpenText(f)|)
    {
      left, report := before, closed;
      ClosedNameIsClosed(1);
      if OPEN in left {
        report := DeleteReport(report.files + 1, report.bytes + |left[OPEN]|);
        left := left - {OPEN};
      }
    }

    static method RemoveClosed(f: Folder, files: seq<string>) returns (left: Folder, report: DeleteReport)
      requires Ascending(Less, files) && forall name :: name in files <==> name in ClosedNames(f)
      ensures left == f - ClosedNames(f)
      ensures report == DeleteReport(|files|, TotalBytes(f, files))
    {
      report := DeleteReport(0, 0);
      left := f;
      ghost var removed: set<string> := {};
      for i := 0 to |files|
        invariant left == f - removed && forall name :: name in removed <==> name in files[..i]
        invariant report == DeleteReport(i, TotalBytes(f, files[..i]))
      {
        NotYetRemoved(files, i);
        assert files[i] in files;
        OneMoreFile(f, files, i);
        report := DeleteReport(report.files + 1, report.bytes + |left[files[i]]|);
        left := left - {files[i]};
        removed := removed + {files[i]};
      }
      assert files[..|files|] == files;
    }

    static lemma OneMoreFile(f: Folder, files: seq<string>, i: nat)
      requires i < |files|
      ensures TotalBytes(f, files[..i + 1]) == TotalBytes(f, files[..i]) + |FileText(f, files[i])|
      ensures forall name :: name in files[..i + 1] <==> name in files[..i] || name == files[i]
    {
      assert files[..i + 1] == files[..i] + [files[i]];
      assert files[..i + 1][..i] == files[..i];
    }

    static lemma NotYetRemoved(files: seq<string>, i: nat)
      requires i < |files| && Ascending(Less, files)
      ensures files[i] !in files[..i]
    {
      LessIsStrict();
      forall j | 0 <= j < i ensures files[j] != files[i] { assert Less(files[j], files[i]); }
    }
  }

  /** One operation on a store; after a crash a new store is opened over the files. */
  method FollowOne(store: JsonlStore, chat: string, op: LogRuns.Op) returns (next: JsonlStore)
    requires store.Valid() && Sized(op) && ValidOp(op) && HasRoom(FolderOf(store.disk, chat), store.segmentBytes)
    modifies store
    ensures next == store || fresh(next)
    ensures next.Valid() && next.segmentBytes == store.segmentBytes
    ensures FolderOf(next.disk, chat) == StepFolder(FolderOf(old(store.disk), chat), chat, store.segmentBytes, op)
  {
    hide ReadFolder, StepFolder, HasRoom, StoreValid, FolderOf;
    next := store;
    match op
    case Append(news, ids, now) =>
      var _ := store.Append(chat, news, ids, now);
    case Crash(news, ids, now, bytes) =>
      store.AppendUntil(chat, news, ids, now, bytes);
      next := new JsonlStore(store.disk, store.blobs, store.segmentBytes);
    case Delete =>
      var _ := store.DeleteChat(chat);
  }

  lemma OneMoreOp(chat: string, segmentBytes: nat, ops: seq<LogRuns.Op>, i: nat)
    requires segmentBytes > 0 && i < |ops| <= MAX_SEGMENTS
    requires forall j | 0 <= j < |ops| :: Sized(ops[j]) && ValidOp(ops[j])
    ensures HasRoom(Run(chat, segmentBytes, ops[..i]).folder, segmentBytes)
    ensures Run(chat, segmentBytes, ops[..i + 1]).folder ==
            StepFolder(Run(chat, segmentBytes, ops[..i]).folder, chat, segmentBytes, ops[i])
  {
    ShortRunFaithful(chat, segmentBytes, ops[..i]);
    RunOneMore(chat, segmentBytes, ops, i);
    hide Faithful, StepFolder, StepLog, Run, ValidOp, ClosedNames, OpenText;
  }

  /**
   Any appends, crashed appends and deletes, one after the other, with the store opened anew over the
   files after each crash: what it holds and reads is what the run of these operations says.
   */
  method Follow(chat: string, segmentBytes: nat, ops: seq<LogRuns.Op>) returns (store: JsonlStore)
    requires segmentBytes > 0 && |ops| <= MAX_SEGMENTS
    requires forall i | 0 <= i < |ops| :: Sized(ops[i]) && ValidOp(ops[i])
    ensures fresh(store) && store.Valid() && store.segmentBytes == segmentBytes
    ensures FolderOf(store.disk, chat) == Run(chat, segmentBytes, ops).folder
    ensures store.Contents(chat).events == Run(chat, segmentBytes, ops).log
  {
    hide ReadFolder, StepFolder, HasRoom, StoreValid, ValidOp;
    store := new JsonlStore(map[], map[], segmentBytes);
    for i := 0 to |ops|
      invariant fresh(store) && store.Valid() && store.segmentBytes == segmentBytes
      invariant FolderOf(store.disk, chat) == Run(chat, segmentBytes, ops[..i]).folder
    {
      OneMoreOp(chat, segmentBytes, ops, i);
      store := FollowOne(store, chat, ops[i]);
    }
    assert ops[..|ops|] == ops;
    ShortRunFaithful(chat, segmentBytes, ops);
  }
}
