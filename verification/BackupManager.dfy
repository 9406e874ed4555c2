/** The manager that makes, deletes and restores backups. */
module BackupManager {
  import opened Options
  import opened BackupChain

  class BackupManager {
    /** The backup directories. */
    var backups: map<string, Backup>
    var lastBackupId: Option<string>
    var lastSegmentId: nat
    var lastSegmentOffset: nat
    /** The document store's files as they are now. */
    ghost var store: Store
    ghost var history: History

    ghost predicate Valid()
      reads this
    {
      && Consistent(history) && OnDisk(history, backups)
      && (lastBackupId.Some? ==> IsNewest(history, lastBackupId.value, lastSegmentId, lastSegmentOffset, store))
    }

    /** Nothing was deleted by id: every backup can be restored, and the last one is there. */
    ghost predicate Intact()
      requires Valid()
      reads this
    {
      IsIntact(history, backups, lastBackupId)
    }

    constructor (store: Store)
      ensures Valid() && Intact() && backups == map[] && lastBackupId == None && this.store == store
    {
      backups, lastBackupId, lastSegmentId, lastSegmentOffset := map[], None, 0, 0;
      this.store, history := store, History(map[], map[], map[], 0);
    }

    /** The shard appends documents. */
    ghost method Append(after: Store)
      requires Valid() && Appended(store, after)
      modifies `store
      ensures Valid() && store == after
    {
      if lastBackupId.Some? { AppendedIsTransitive(history.snaps[lastBackupId.value], store, after); }
      store := after;
    }

    /** Store compaction rewrites segments, so the next backup has to be full. */
    method RequireFullBackup(ghost rewritten: Store)
      requires Valid()
      modifies `lastBackupId, `store
      ensures Valid() && lastBackupId == None && store == rewritten
    {
      lastBackupId := None;
      store := rewritten;
    }

    /** Writes a backup and moves the marks to its end. */
    method Record(id: string, b: Backup)
      requires Valid() && Recordable(history, lastBackupId, id, b, store)
      modifies this
      ensures Valid() && store == old(store)
      ensures backups == old(backups)[id := b] && lastBackupId == Some(id)
      ensures history == WithBackup(old(history), id, b, store)
    {
      RecordingKeepsState(history, backups, lastBackupId, lastSegmentId, lastSegmentOffset, store, id, b);
      history := WithBackup(history, id, b, store);
      backups := backups[id := b];
      lastBackupId := Some(id);
      lastSegmentId, lastSegmentOffset := b.manifest.lastSegment, b.manifest.lastOffset;
    }

    method CreateFullBackup(id: string, files: Store) returns (r: Result<Manifest, Error>)
      requires Valid() && files == store && id !in history.made
      modifies this
      ensures Valid() && store == old(store) && (old(Intact()) ==> Intact())
      ensures r.Err? <==> files == map[]
      ensures r.Err? ==> unchanged(this)
      ensures r.Ok? ==> && lastBackupId == Some(id) && id in history.made && history.snaps[id] == store
                        && Pruned(old(backups)[id := Backup(r.value, files)], backups)
      ensures r.Ok? ==>
                && (old(lastBackupId).Some? ==> old(lastBackupId).value in history.made)
                && var all := old(backups)[id := Backup(r.value, files)];
                   backups == if old(lastBackupId).None? then all
                              else all - Increments(history, all, old(lastBackupId).value)
    {
      if files == map[] { return Err(NoSegments); }
      assert files.Keys != {};
      var lastSegment := Highest(files.Keys);
      var manifest := Manifest(Full, 0, None, lastSegment, |files[lastSegment]|);
      var previous := lastBackupId;
      RecordFull(id, Backup(manifest, files));
      if previous.Some? { DeleteIncrementalChain(previous.value); }
      return Ok(manifest);
    }

    method RecordFull(id: string, b: Backup)
      requires Valid() && Recordable(history, lastBackupId, id, b, store) && b.manifest.kind == Full
      modifies this
      ensures Valid() && store == old(store) && (old(Intact()) ==> Intact())
      ensures backups == old(backups)[id := b] && lastBackupId == Some(id)
      ensures history == WithBackup(old(history), id, b, store)
      ensures old(lastBackupId).Some? ==>
                old(lastBackupId).value in history.made && NewestIncrement(history, backups, old(lastBackupId).value)
    {
      RecordingKeepsIntact(history, backups, lastBackupId, lastSegmentId, lastSegmentOffset, store, id, b);
      ghost var before, previous := history, lastBackupId;
      Record(id, b);
      if previous.Some? { PreviousIsNewest(before, backups, previous.value, id, b, store); }
    }

    /** Deletes the increments of a chain that a new full backup makes superfluous, as far as they are there. */
    method DeleteIncrementalChain(from: string)
      requires Valid() && from in history.made && NewestIncrement(history, backups, from)
      requires lastBackupId.Some? && history.made[lastBackupId.value].manifest.kind == Full
      modifies `backups
      ensures Valid() && Pruned(old(backups), backups) && LosesNoChain(history, old(backups), backups)
      ensures old(Intact()) ==> Intact()
      ensures backups == old(backups) - Increments(history, old(backups), from)
    {
      var current := from;
      ghost var all := Increments(history, backups, from);
      while current in backups && backups[current].manifest.kind == Incremental
        invariant Consistent(history) && OnDisk(history, backups) && Pruned(old(backups), backups)
        invariant LosesNoChain(history, old(backups), backups)
        invariant current in history.made && NewestIncrement(history, backups, current)
        invariant Increments(history, old(backups), current) <= all
        invariant backups == old(backups) - (all - Increments(history, old(backups), current))
        decreases history.rank[current]
      {
        ghost var p := Parent(history, current);
        ParentBecomesNewest(history, backups, current);
        RemovingTheNewestLosesNoChain(history, old(backups), backups, current);
        PruneOneMore(old(backups), backups, current);
        DeletedOneMore(history, old(backups), all, backups, current);
        var parent := backups[current].manifest.parent.value;
        backups := backups - {current};
        current := parent;
      }
    }

    /** Copies the bytes appended since the last backup, if there are any. */
    method CreateIncrementalBackup(id: string, files: Store) returns (r: Result<Option<Manifest>, Error>)
      requires Valid() && files == store && id !in history.made
      modifies this
      ensures Valid() && store == old(store) && (old(Intact()) ==> Intact())
      ensures r.Err? <==> old(lastBackupId).None?
      ensures r.Err? || r.value.None? ==> unchanged(this)
      ensures r == Ok(None) ==> NonEmpty(store) == NonEmpty(history.snaps[lastBackupId.value])
      ensures r.Ok? && r.value.Some? ==>
                && backups == old(backups)[id := Backup(r.value.value, Delta(store, old(lastSegmentId), old(lastSegmentOffset)))]
                && lastBackupId == Some(id) && id in history.made && history.snaps[id] == store
    {
      if lastBackupId.None? { return Err(NoBaseBackup); }
      var parent := lastBackupId.value;
      var delta := Delta(files, lastSegmentId, lastSegmentOffset);
      if delta == map[] {
        assert Sound(history, parent);
        NothingNewMeansSameFiles(history.snaps[parent], files, lastSegmentId, lastSegmentOffset);
        return Ok(None);
      }
      assert delta.Keys != {};
      var lastSegment := Highest(delta.Keys);
      var lastOffset := StartOf(lastSegment, lastSegmentId, lastSegmentOffset) + |delta[lastSegment]|;
      var manifest := Manifest(Incremental, lastSegmentOffset, Some(parent), lastSegment, lastOffset);
      DeltaEndsWhereStoreEnds(files, lastSegmentId, lastSegmentOffset, lastSegment);
      RecordingKeepsIntact(history, backups, lastBackupId, lastSegmentId, lastSegmentOffset, store, id, Backup(manifest, delta));
      Record(id, Backup(manifest, delta));
      return Ok(Some(manifest));
    }

    /** Deletes a backup by its id. What builds on it can then no longer be restored; everything else can. */
    method DeleteBackup(id: string) returns (r: Result<(), Error>)
      requires Valid()
      modifies `backups
      ensures Valid()
      ensures r == if !IsValidId(id) then Err(InvalidId) else if id !in old(backups) then Err(NotFound) else Ok(())
      ensures backups == if r.Ok? then old(backups) - {id} else old(backups)
      ensures r.Ok? ==> forall k :: k in history.made ==>
                (Restorable(history, backups, k) <==> Restorable(history, old(backups), k) && !BuildsOn(history, k, id))
    {
      if !IsValidId(id) { return Err(InvalidId); }
      if id !in backups { return Err(NotFound); }
      forall k | k in history.made
        ensures Restorable(history, backups - {id}, k) <==> Restorable(history, backups, k) && !BuildsOn(history, k, id)
      {
        DeletingBreaksExactly(history, backups, id, k);
      }
      backups := backups - {id};
      return Ok(());
    }

    /** Restores backup `id` onto an empty directory. It is refused for a malformed id and when a directory
        of the chain is missing, and otherwise gives back the store the backup was made from. */
    method RestoreChain(id: string) returns (r: Result<Store, Error>)
      requires Valid()
      ensures !IsValidId(id) ==> r == Err(InvalidId)
      ensures IsValidId(id) && id !in backups ==> r == Err(NotFound)
      ensures IsValidId(id) && id in backups ==> (r.Ok? <==> Restorable(history, backups, id))
      ensures IsValidId(id) && r.Err? ==> r == Err(NotFound)
      ensures r.Ok? ==> id in history.made && NonEmpty(r.value) == NonEmpty(history.snaps[id])
    {
      if !IsValidId(id) { return Err(InvalidId); }
      if id !in backups { return Err(NotFound); }
      var chain := CollectChain(id);
      if chain.Err? { return Err(chain.error); }
      var whole := ChainIsWhole(chain.value);
      if !whole { return Err(ChainGap); }
      var target := ApplyChain(chain.value);
      ChainRestoresSnapshot(history, id);
      return Ok(target);
    }

    /** Walks from a backup to its full backup, as long as the directories are there. */
    method CollectChain(id: string) returns (r: Result<seq<string>, Error>)
      requires Valid() && id in backups
      ensures r.Ok? <==> Restorable(history, backups, id)
      ensures r.Ok? ==> IsChain(history, backups, r.value) && r.value[|r.value| - 1] == id
      ensures r.Err? ==> r.error == NotFound
    {
      var chain := [id];
      while backups[chain[0]].manifest.kind == Incremental
        invariant Linked(history, chain) && chain[|chain| - 1] == id
        invariant forall k :: 0 <= k < |chain| ==> chain[k] in backups
        invariant Restorable(history, backups, id) <==> Restorable(history, backups, chain[0])
        decreases history.rank[chain[0]]
      {
        ghost var p := Parent(history, chain[0]);
        var parent := backups[chain[0]].manifest.parent.value;
        if parent !in backups { return Err(NotFound); }
        LinkParent(history, chain, parent);
        chain := [parent] + chain;
      }
      return Ok(chain);
    }

    /** Whether every increment continues where its parent ends. A chain of this manager always does. */
    method ChainIsWhole(chain: seq<string>) returns (whole: bool)
      requires Valid() && IsChain(history, backups, chain)
      ensures whole
    {
      for k := 1 to |chain| {
        NoGap(history, chain, k);
        if Gap(backups[chain[k - 1]].manifest, backups[chain[k]].manifest) { return false; }
      }
      return true;
    }

    method ApplyChain(chain: seq<string>) returns (target: Store)
      requires Valid() && IsChain(history, backups, chain)
      ensures target == RestoredTo(history, chain[|chain| - 1])
    {
      target := backups[chain[0]].files;
      for k := 1 to |chain|
        invariant target == RestoredTo(history, chain[k - 1])
      {
        ghost var p := Parent(history, chain[k]);
        var parent := backups[chain[k - 1]].manifest;
        target := ApplyDelta(target, backups[chain[k]].files, parent.lastSegment, parent.lastOffset);
      }
    }
  }
}
