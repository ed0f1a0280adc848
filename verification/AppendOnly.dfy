/** `Aof` of src/aof.rs: the append-only file object, its append, sync and rewrite. */
module AppendOnly {
  import opened Basics
  import opened Resp
  import opened Durability
  import opened Snapshot

  datatype RewriteStats = RewriteStats(keysWritten: nat, bytesWritten: nat, previousBytes: nat)

  class AppendOnlyFile {
    const fsync: Fsync
    var buffer: Bytes
    var dirty: bool
    var sizeBytes: nat
    var lastRewriteSize: nat
    var rewriteInProgress: bool
    // The storage beneath, as in `Durability`.
    var live: File
    var temp: File
    ghost var orphans: seq<File>
    ghost var acked: nat
    ghost var synced: bool

    ghost function View(): Aof
      reads this
    {
      Aof(fsync, buffer, live, temp, orphans, dirty, sizeBytes, acked, synced, None, 0)
    }

    /** `disk` is what the disk holds of the file; the flag starts out down whether or not that is all. */
    constructor (policy: Fsync, bytes: Bytes, disk: Bytes)
      requires disk <= bytes
      ensures View() == Open(policy, bytes, disk) && lastRewriteSize == |bytes| && !rewriteInProgress
    {
      fsync, buffer, dirty := policy, [], false;
      sizeBytes, lastRewriteSize, rewriteInProgress := |bytes|, |bytes|, false;
      live, temp := File(bytes, disk, |disk|, false), File([], [], 0, false);
      orphans, acked, synced := [], |bytes|, disk == bytes;
    }

    method Flush()
      modifies this`buffer, this`live
      ensures View() == Perform(old(View()), FlushBuffer)
    {
      live := live.(os := live.os + buffer);
      buffer := [];
    }

    method SyncData()
      modifies this`live, this`synced
      ensures View() == Perform(old(View()), Action.SyncData)
    {
      live := live.(disk := live.os);
      synced := true;
    }

    /** The frame is buffered; `Always` carries it to disk before returning, the others own up to it. */
    method AppendCommand(command: Command)
      modifies this
      ensures View() == PerformAll(old(View()), Script(fsync, Append(EncodeCommand(command))), 0)
      ensures lastRewriteSize == old(lastRewriteSize) && rewriteInProgress == old(rewriteInProgress)
    {
      hide Script, PerformAll, EncodeCommand;
      ghost var s := View();
      var frame, written := WriteRespArray(command);
      buffer := buffer + frame;
      if fsync == Always {
        AppendAlways(s, frame);
        Flush();
        SyncData();
      } else {
        AppendLazy(s, frame);
        dirty := true;
      }
      sizeBytes := sizeBytes + written;
      acked := |live.os| + |buffer|;
    }

    method SyncAll()
      modifies this
      ensures View() == PerformAll(old(View()), Script(fsync, Sync), 0)
      ensures lastRewriteSize == old(lastRewriteSize) && rewriteInProgress == old(rewriteInProgress)
    {
      SyncResult(View());
      Flush();
      SyncData();
      dirty := false;
    }

    /** The file half of `rewrite_inner`: temporary file, sync, flush, rename and fresh counters. */
    method ReplaceLog(snapshot: Bytes, bytes: nat)
      requires bytes == |snapshot|
      modifies this
      ensures View() == PerformAll(old(View()), Script(fsync, Rewrite(snapshot)), 0)
      ensures Log(View()) == snapshot && sizeBytes == lastRewriteSize == bytes
      ensures rewriteInProgress == old(rewriteInProgress)
    {
      hide Script, PerformAll;
      RewriteResult(View(), snapshot);
      temp := File(snapshot, [], 0, false);
      temp := temp.(disk := temp.os, floor := |temp.os|);
      Flush();
      orphans := orphans + [live.(intact := Backed(View()))];
      live, buffer := temp, [];
      acked, synced := |live.os|, true;
      sizeBytes, lastRewriteSize := bytes, bytes;
      dirty := false;
      assert snapshot + [] == snapshot;
    }

    /**
     * One rewrite at a time: the walk goes to a temporary file that is synced before it replaces
     * the log, and both counters are set to the bytes it reports.
     */
    method RewriteLog(records: seq<Record>, now: nat) returns (stats: Option<RewriteStats>)
      modifies this
      ensures old(rewriteInProgress) ==> stats == None && View() == old(View()) && rewriteInProgress
      ensures !old(rewriteInProgress) ==>
                var snapshot := EncodeAll(SnapshotCommands(records, now));
                && View() == PerformAll(old(View()), Script(fsync, Rewrite(snapshot)), 0)
                && Log(View()) == snapshot && sizeBytes == lastRewriteSize == |snapshot|
                && stats == Some(RewriteStats(Kept(records, now), |snapshot|, old(sizeBytes)))
                && !rewriteInProgress
    {
      hide EncodeAll, SnapshotCommands, Kept, Script, PerformAll;
      if rewriteInProgress {
        return None;
      }
      rewriteInProgress := true;
      var previous := sizeBytes;
      var snapshot, keys, bytes := WriteStoreSnapshot(records, now);
      ReplaceLog(snapshot, bytes);
      rewriteInProgress := false;
      return Some(RewriteStats(keys, bytes, previous));
    }
  }
}
