/**
 The caches of the built-in event store (agents/src/memory/store.rs): the state of each chat and the
 parsed logs of a few hot chats, and why they stay true while the files change.
 */
module HotLogs {
  import opened Lists
  import opened Events
  import opened Log
  import opened Folders
  import opened LogRuns

  const HOT_LOGS: nat := 4

  /** What the log files look like: closed segments, and the open segment's size. */
  datatype Stamp = Stamp(closed: nat, openBytes: nat)

  datatype ChatState = ChatState(nextSeq: nat, openBytes: nat)

  datatype HotLog = HotLog(chat: string, stamp: Stamp, log: ReadLog)

  type Disk = map<string, Folder>

  function FolderOf(disk: Disk, chat: string): Folder { if chat in disk then disk[chat] else map[] }

  function StampOf(f: Folder): Stamp { Stamp(|ClosedNames(f)|, |OpenText(f)|) }

  ghost function StateOf(f: Folder): ChatState { ChatState(NextSeq(ReadFolder(f).events), |OpenText(f)|) }

  /** A hot log whose stamp fits the files holds what a fresh read gives. */
  ghost predicate RightIfFits(disk: Disk, h: HotLog) {
    h.stamp == StampOf(FolderOf(disk, h.chat)) ==> h.log == ReadFolder(FolderOf(disk, h.chat))
  }

  /** The stamp fits, and so the log is right. */
  ghost predicate Fresh(disk: Disk, h: HotLog) {
    h.stamp == StampOf(FolderOf(disk, h.chat)) && RightIfFits(disk, h)
  }

  ghost predicate OnePerChat(hot: seq<HotLog>) {
    forall i, j | 0 <= i < j < |hot| :: hot[i].chat != hot[j].chat
  }

  /** What a shared read needs of the hot logs, also after files were changed from outside. */
  ghost predicate HotTrue(disk: Disk, hot: seq<HotLog>) {
    OnePerChat(hot) && |hot| <= HOT_LOGS && forall i | 0 <= i < |hot| :: RightIfFits(disk, hot[i])
  }

  /** What the store's own operations keep: every hot log fits its files. */
  ghost predicate HotValid(disk: Disk, hot: seq<HotLog>) {
    OnePerChat(hot) && |hot| <= HOT_LOGS && forall i | 0 <= i < |hot| :: Fresh(disk, hot[i])
  }

  ghost predicate ChatsValid(disk: Disk, chats: map<string, ChatState>) {
    forall chat | chat in chats :: chats[chat] == StateOf(FolderOf(disk, chat))
  }

  ghost predicate DiskValid(disk: Disk) { forall chat | chat in disk :: Good(disk[chat]) }

  /** The caches are true of the files, and the files are as the store makes them. */
  ghost predicate StoreValid(disk: Disk, chats: map<string, ChatState>, hot: seq<HotLog>) {
    DiskValid(disk) && ChatsValid(disk, chats) && HotValid(disk, hot)
  }

  function IndexOf(hot: seq<HotLog>, chat: string): (i: nat)
    ensures i <= |hot| && (i < |hot| ==> hot[i].chat == chat)
    ensures forall j | 0 <= j < i :: hot[j].chat != chat
  {
    FirstWhere(hot, (h: HotLog) => h.chat == chat)
  }

  /** The hot logs without the one of `chat`; there is one at most. */
  function Others(hot: seq<HotLog>, chat: string): seq<HotLog> {
    var at := IndexOf(hot, chat);
    if at == |hot| then hot else hot[..at] + hot[at + 1..]
  }

  lemma OthersAre(hot: seq<HotLog>, chat: string)
    requires OnePerChat(hot)
    ensures OnePerChat(Others(hot, chat)) && |Others(hot, chat)| <= |hot|
    ensures forall i | 0 <= i < |Others(hot, chat)| :: Others(hot, chat)[i].chat != chat && Others(hot, chat)[i] in hot
    ensures (forall h | h in hot :: h.chat != chat) ==> Others(hot, chat) == hot
    ensures forall at | 0 <= at < |hot| && hot[at].chat == chat :: Others(hot, chat) == hot[..at] + hot[at + 1..]
  {
    var at, r := IndexOf(hot, chat), Others(hot, chat);
    forall i | 0 <= i < |r| ensures r[i] == hot[if i < at then i else i + 1] {}
  }

  lemma OthersValid(disk: Disk, hot: seq<HotLog>, chat: string)
    requires HotTrue(disk, hot)
    ensures HotTrue(disk, Others(hot, chat))
    ensures HotValid(disk, hot) ==> HotValid(disk, Others(hot, chat))
  {
    OthersAre(hot, chat);
    var r := Others(hot, chat);
    forall i | 0 <= i < |r|
      ensures RightIfFits(disk, r[i])
      ensures HotValid(disk, hot) ==> Fresh(disk, r[i])
    {
      var k :| 0 <= k < |hot| && hot[k] == r[i];
      assert RightIfFits(disk, hot[k]);
    }
  }

  /** A change of one chat's folder leaves the caches of the other chats true. */
  lemma OtherFoldersFresh(disk: Disk, hot: seq<HotLog>, chat: string, f: Folder)
    requires HotValid(disk, hot) && forall i | 0 <= i < |hot| :: hot[i].chat != chat
    ensures HotValid(disk[chat := f], hot)
  {
    forall i | 0 <= i < |hot| ensures Fresh(disk[chat := f], hot[i]) {
      assert Fresh(disk, hot[i]);
      assert FolderOf(disk[chat := f], hot[i].chat) == FolderOf(disk, hot[i].chat);
    }
  }

  lemma OtherChatsTrue(disk: Disk, chats: map<string, ChatState>, chat: string, f: Folder)
    requires ChatsValid(disk, chats)
    ensures ChatsValid(disk[chat := f], chats - {chat})
  {
    forall c | c in chats - {chat} ensures chats[c] == StateOf(FolderOf(disk[chat := f], c)) {
      assert FolderOf(disk[chat := f], c) == FolderOf(disk, c);
    }
  }

  lemma ChatStateTrue(disk: Disk, chats: map<string, ChatState>, chat: string, state: ChatState)
    requires ChatsValid(disk, chats - {chat}) && state == StateOf(FolderOf(disk, chat))
    ensures ChatsValid(disk, chats[chat := state])
  {
    forall c | c in chats[chat := state] ensures chats[chat := state][c] == StateOf(FolderOf(disk, c)) {
      assert c == chat || chats[c] == (chats - {chat})[c];
    }
  }

  lemma SameFolderValid(disk: Disk, chats: map<string, ChatState>, hot: seq<HotLog>, chat: string)
    requires StoreValid(disk, chats, hot) && chat !in disk
    ensures StoreValid(disk[chat := map[]], chats, hot)
  {
    NewFolderReads(map[]);
    var d := disk[chat := map[]];
    forall c ensures FolderOf(d, c) == FolderOf(disk, c) {}
    forall i | 0 <= i < |hot| ensures Fresh(d, hot[i]) { assert Fresh(disk, hot[i]); }
  }

  /** A hot log that fitted the files before an append gets its events; another one is dropped. */
  function AfterAppend(hot: seq<HotLog>, chat: string, before: Stamp, after: Stamp, es: seq<Event>): seq<HotLog> {
    var at := IndexOf(hot, chat);
    if at == |hot| then hot
    else if hot[at].stamp == before
    then hot[at := HotLog(chat, after, ReadLog(hot[at].log.events + es, hot[at].log.skipped))]
    else Others(hot, chat)
  }

  /** The stamp an append starts from: after closing a full segment and ending a cut line. */
  function WriteStamp(ready: Folder): Stamp {
    Stamp(|ClosedNames(ready)|, |OpenText(ready)| + |Repair(OpenText(ready))|)
  }

  lemma WrittenStamp(ready: Folder, es: seq<Event>)
    ensures var g := Written(ready, es, WriteLength(ready, es));
      && StampOf(g) == Stamp(WriteStamp(ready).closed, WriteStamp(ready).openBytes + |Buffer(es)|)
      && OpenText(g) == OpenText(ready) + Repair(OpenText(ready)) + Buffer(es)
  {
    var all := Repair(OpenText(ready)) + Buffer(es);
    assert all[..|all|] == all;
    WrittenNames(ready, OpenText(ready) + all);
  }

  /** Closing a segment or ending a cut line shows in the stamp, so the hot log is dropped then. */
  lemma WriteStampTells(f: Folder, segmentBytes: nat)
    requires segmentBytes > 0 && Good(f) && HasRoom(f, segmentBytes)
    ensures StampOf(f) == WriteStamp(Ready(f, segmentBytes)) <==>
            |OpenText(f)| < segmentBytes && Repair(OpenText(f)) == ""
  {
    if |OpenText(f)| >= segmentBytes { RotatedNames(f); }
  }

  lemma AfterAppendShape(hot: seq<HotLog>, chat: string, before: Stamp, after: Stamp, es: seq<Event>)
    requires OnePerChat(hot)
    ensures var next := AfterAppend(hot, chat, before, after, es);
      && OnePerChat(next) && |next| <= |hot|
      && forall i | 0 <= i < |next| ::
           || (next[i].chat != chat && next[i] in hot)
           || (exists k :: 0 <= k < |hot| && hot[k].chat == chat
                 && next[i] == HotLog(chat, after, ReadLog(hot[k].log.events + es, hot[k].log.skipped)))
  {
    OthersAre(hot, chat);
    hide Others;
    var at, next := IndexOf(hot, chat), AfterAppend(hot, chat, before, after, es);
    if at < |hot| && hot[at].stamp == before {
      forall i | 0 <= i < |next| && i != at ensures next[i] == hot[i] && next[i].chat != chat {}
    }
  }

  lemma OwnFresh(disk: Disk, h: HotLog, ready: Folder, es: seq<Event>)
    requires Fresh(disk, h) && Good(ready) && ValidEvents(es) && ReadFolder(ready) == ReadFolder(FolderOf(disk, h.chat))
    ensures var g := Written(ready, es, WriteLength(ready, es));
      Fresh(disk[h.chat := g], HotLog(h.chat, StampOf(g), ReadLog(h.log.events + es, h.log.skipped)))
  {
    AppendedReads(ready, es);
  }

  lemma OtherFresh(disk: Disk, h: HotLog, chat: string, g: Folder)
    requires Fresh(disk, h) && h.chat != chat
    ensures Fresh(disk[chat := g], h)
  {
    assert FolderOf(disk[chat := g], h.chat) == FolderOf(disk, h.chat);
  }

  lemma AfterAppendFresh(disk: Disk, hot: seq<HotLog>, chat: string, ready: Folder, es: seq<Event>)
    requires HotValid(disk, hot) && Good(ready) && ValidEvents(es)
    requires ReadFolder(ready) == ReadFolder(FolderOf(disk, chat))
    ensures var g := Written(ready, es, WriteLength(ready, es));
      HotValid(disk[chat := g], AfterAppend(hot, chat, WriteStamp(ready), StampOf(g), es))
  {
    var g := Written(ready, es, WriteLength(ready, es));
    var next := AfterAppend(hot, chat, WriteStamp(ready), StampOf(g), es);
    AfterAppendShape(hot, chat, WriteStamp(ready), StampOf(g), es);
    forall i | 0 <= i < |next| ensures Fresh(disk[chat := g], next[i]) {
      if next[i].chat != chat {
        var k :| 0 <= k < |hot| && hot[k] == next[i];
        OtherFresh(disk, hot[k], chat, g);
      } else {
        var k :| 0 <= k < |hot| && hot[k].chat == chat
             && next[i] == HotLog(chat, StampOf(g), ReadLog(hot[k].log.events + es, hot[k].log.skipped));
        OwnFresh(disk, hot[k], ready, es);
      }
    }
  }

  /** What an append leaves behind is valid: its folder, the chat's state and the hot logs. */
  lemma AppendValid(disk: Disk, chats: map<string, ChatState>, hot: seq<HotLog>, chat: string, segmentBytes: nat,
      es: seq<Event>)
    requires StoreValid(disk, chats, hot)
    requires chat in disk && segmentBytes > 0 && HasRoom(disk[chat], segmentBytes)
    requires ValidEvents(es) && es != []
    ensures var f := disk[chat];
      var g := Appended(f, segmentBytes, es);
      && ReadFolder(g) == ReadLog(ReadFolder(f).events + es, ReadFolder(f).skipped)
      && StoreValid(disk[chat := g], chats[chat := ChatState(NextSeq(es), |OpenText(g)|)],
                    AfterAppend(hot, chat, WriteStamp(Ready(f, segmentBytes)), StampOf(g), es))
  {
    var f := disk[chat];
    var ready := Ready(f, segmentBytes);
    var g := Written(ready, es, WriteLength(ready, es));
    ReadyReads(f, segmentBytes);
    AppendedReads(ready, es);
    AfterAppendFresh(disk, hot, chat, ready, es);
    OtherChatsTrue(disk, chats, chat, g);
    LastOfConcat(ReadFolder(f).events, es);
    ChatStateTrue(disk[chat := g], chats, chat, ChatState(NextSeq(es), |OpenText(g)|));
  }

  lemma LastOfConcat(a: seq<Event>, es: seq<Event>)
    requires es != []
    ensures NextSeq(a + es) == NextSeq(es)
  {
  }

  lemma DeleteValid(disk: Disk, chats: map<string, ChatState>, hot: seq<HotLog>, chat: string)
    requires StoreValid(disk, chats, hot)
    ensures var g := Deleted(FolderOf(disk, chat));
      ReadFolder(g) == EMPTY_LOG && StoreValid(disk[chat := g], chats - {chat}, Others(hot, chat))
  {
    var g := Deleted(FolderOf(disk, chat));
    DeletedReads(FolderOf(disk, chat));
    OtherChatsTrue(disk, chats, chat, g);
    OthersValid(disk, hot, chat);
    OthersAre(hot, chat);
    OtherFoldersFresh(disk, Others(hot, chat), chat, g);
  }

  /** A freshly read log joins the hot ones; the least recently read one makes room. */
  lemma PushValid(disk: Disk, hot: seq<HotLog>, entry: HotLog)
    requires HotTrue(disk, hot) && Fresh(disk, entry)
    ensures var next := Keep(Others(hot, entry.chat) + [entry]);
      HotTrue(disk, next) && (HotValid(disk, hot) ==> HotValid(disk, next))
  {
    OthersValid(disk, hot, entry.chat);
    OthersAre(hot, entry.chat);
    PushedValid(disk, Others(hot, entry.chat), entry);
  }

  lemma PushedValid(disk: Disk, hot: seq<HotLog>, entry: HotLog)
    requires HotTrue(disk, hot) && Fresh(disk, entry) && forall i | 0 <= i < |hot| :: hot[i].chat != entry.chat
    ensures var next := Keep(hot + [entry]);
      HotTrue(disk, next) && (HotValid(disk, hot) ==> HotValid(disk, next))
  {
    var more := hot + [entry];
    assert OnePerChat(more) && OnePerChat(more[1..]);
    forall i | 0 <= i < |more|
      ensures RightIfFits(disk, more[i])
      ensures HotValid(disk, hot) ==> Fresh(disk, more[i])
    {}
  }

  function Keep(hot: seq<HotLog>): seq<HotLog> { if |hot| > HOT_LOGS then hot[1..] else hot }

  function TotalBytes(f: Folder, names: seq<string>): nat {
    if names == [] then 0 else TotalBytes(f, names[..|names| - 1]) + |FileText(f, names[|names| - 1])|
  }
}
