/**
 The contract both event stores keep (`EventStore`, agents/src/memory/store.rs): given the same appends
 and deletes, the store on disk and the store in RAM answer the same and hold the same log.
 */
module Backends {
  import opened Events
  import opened Folders
  import opened HotLogs
  import opened LogRuns
  import opened JsonlStores
  import opened MemStores

  datatype Op = Append(news: seq<NewEvent>, ids: seq<string>, now: string) | Delete

  ghost predicate Fine(op: Op) {
    op.Append? ==> |op.ids| == |op.news| && forall i | 0 <= i < |op.news| :: ValidNew(op.news[i])
  }

  /** The two stores hold the same events of the chat. */
  ghost predicate Alike(jsonl: JsonlStore, ram: MemStore, chat: string)
    reads jsonl, ram
  {
    jsonl.Valid() && ram.Valid() && jsonl.Contents(chat).events == ram.Log(chat)
  }

  ghost function SegmentCount(jsonl: JsonlStore, chat: string): nat
    reads jsonl
  {
    |ClosedNames(FolderOf(jsonl.disk, chat))|
  }

  method AppendToBoth(jsonl: JsonlStore, ram: MemStore, chat: string, op: Op)
    returns (fromDisk: seq<Event>, fromRam: seq<Event>)
    requires Alike(jsonl, ram, chat) && op.Append? && Fine(op)
    requires HasRoom(FolderOf(jsonl.disk, chat), jsonl.segmentBytes)
    modifies jsonl, ram
    ensures Alike(jsonl, ram, chat) && fromDisk == fromRam
    ensures old(jsonl.blobs) == old(ram.blobs) ==> jsonl.blobs == ram.blobs
    ensures SegmentCount(jsonl, chat) <= old(SegmentCount(jsonl, chat)) + 1
  {
    ghost var f := FolderOf(jsonl.disk, chat);
    jsonl.FolderGood(chat);
    hide JsonlStore.Valid, ReadFolder, Ready, Appended, Good, AfterAppend, MemStore.Valid, AllMadeOf, TextsKept,
      AllBlobs, StampAll, JsonlStore.Extends, ValidNew;
    StepNames(f, chat, jsonl.segmentBytes, LogRuns.Append(op.news, op.ids, op.now));
    fromDisk := jsonl.Append(chat, op.news, op.ids, op.now);
    fromRam := ram.Append(chat, op.news, op.ids, op.now);
  }

  method DeleteFromBoth(jsonl: JsonlStore, ram: MemStore, chat: string)
    requires Alike(jsonl, ram, chat)
    modifies jsonl`disk, jsonl`chats, jsonl`hot, ram`chats, ram`delivered, ram`ledgers
    ensures Alike(jsonl, ram, chat) && jsonl.Contents(chat).events == []
    ensures SegmentCount(jsonl, chat) == 0
  {
    ghost var f := FolderOf(jsonl.disk, chat);
    assert ClosedNames(LogRuns.Deleted(f)) == {};
    hide JsonlStore.Valid, ReadFolder, MemStore.Valid, ClosedNames, LogRuns.Deleted;
    var _ := jsonl.DeleteChat(chat);
    var _ := ram.DeleteChat(chat);
  }

  /** One after the other, any appends and deletes leave the two stores alike. */
  method Conform(jsonl: JsonlStore, ram: MemStore, chat: string, ops: seq<Op>)
    requires Alike(jsonl, ram, chat) && forall i | 0 <= i < |ops| :: Fine(ops[i])
    requires SegmentCount(jsonl, chat) + |ops| <= MAX_SEGMENTS
    modifies jsonl, ram
    ensures Alike(jsonl, ram, chat)
    ensures old(jsonl.blobs) == old(ram.blobs) ==> jsonl.blobs == ram.blobs
  {
    hide JsonlStore.Valid, ReadFolder, MemStore.Valid, ClosedNames;
    for i := 0 to |ops|
      invariant old(jsonl.blobs) == old(ram.blobs) ==> jsonl.blobs == ram.blobs
      invariant Alike(jsonl, ram, chat) && SegmentCount(jsonl, chat) + (|ops| - i) <= MAX_SEGMENTS
    {
      match ops[i]
      case Append(_, _, _) =>
        var fromDisk, fromRam := AppendToBoth(jsonl, ram, chat, ops[i]);
        assert fromDisk == fromRam;
      case Delete =>
        DeleteFromBoth(jsonl, ram, chat);
    }
  }
}
