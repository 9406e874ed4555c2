/** Full and incremental backups of the document store's append-only segment files, and the
    chain that restores them. */
module BackupChain {
  import opened Options

  type Bytes = seq<int>

  /** Segment files by id. */
  type Store = map<nat, Bytes>

  datatype Kind = Full | Incremental

  datatype Manifest = Manifest(
    kind: Kind, startOffset: nat, parent: Option<string>, lastSegment: nat, lastOffset: nat)

  /** A backup directory: whole files for a full backup, the new bytes of each file otherwise. */
  datatype Backup = Backup(manifest: Manifest, files: Store)

  datatype Error = NoSegments | NoBaseBackup | InvalidId | NotFound | NoBackupChain | ChainGap

  // ---------------------------------------------------------------------------------------
  // Files.
  // ---------------------------------------------------------------------------------------

  /** From `before` to `after` only the newest file grew, and new files have higher ids. */
  ghost predicate Appended(before: Store, after: Store)
  {
    && (forall id :: id in before ==> id in after && before[id] <= after[id])
    && (forall id :: id in before && HasHigher(before, id) ==> after[id] == before[id])
    && (forall id :: id in after && id !in before ==> IsAbove(before, id))
  }

  /** The file is not the newest. */
  ghost predicate HasHigher(s: Store, id: nat) { exists k :: k in s && id < k }

  /** The id is higher than every file's. */
  ghost predicate IsAbove(s: Store, id: nat) { forall k :: k in s ==> k < id }

  lemma AppendedIsTransitive(a: Store, b: Store, c: Store)
    requires Appended(a, b) && Appended(b, c)
    ensures Appended(a, c)
  {
  }

  function NonEmpty(s: Store): Store { map id | id in s && s[id] != [] :: s[id] }

  /** Where the copy of file `id` starts for marks `(segment, offset)`. */
  function StartOf(id: nat, segment: nat, offset: nat): nat { if id == segment then offset else 0 }

  /** What `read_segment_diff` selects and the incremental backup copies. */
  function Delta(s: Store, segment: nat, offset: nat): Store
  {
    map id | id in s && segment <= id && |s[id]| > StartOf(id, segment, offset)
      :: s[id][StartOf(id, segment, offset)..]
  }

  /** Writing at an offset of a file that is not truncated; a gap would read as zeros. */
  function WriteAt(file: Bytes, start: nat, data: Bytes): Bytes
  {
    var padded := if |file| < start then file + seq(start - |file|, _ => 0) else file;
    if |padded| <= start + |data| then padded[..start] + data
    else padded[..start] + data + padded[start + |data|..]
  }

  /** Applying an incremental backup whose parent ended at `(segment, offset)`. */
  function ApplyDelta(target: Store, delta: Store, segment: nat, offset: nat): Store
  {
    map id | id in target.Keys + delta.Keys ::
      if id in delta then WriteAt(if id in target then target[id] else [], StartOf(id, segment, offset), delta[id])
      else target[id]
  }

  /** `(segment, offset)` is the end of the last non-empty file of `s`. */
  ghost predicate EndsAt(s: Store, segment: nat, offset: nat)
  {
    && segment in s && |s[segment]| == offset
    && forall id :: id in s && id > segment ==> s[id] == []
  }

  /** The bytes of a file, none for one that is missing. */
  function FileOf(s: Store, id: nat): Bytes { if id in s then s[id] else [] }

  lemma SameFiles(s: Store, t: Store)
    ensures NonEmpty(s) == NonEmpty(t) <==> forall id :: FileOf(s, id) == FileOf(t, id)
  {
    if NonEmpty(s) == NonEmpty(t) {
      forall id ensures FileOf(s, id) == FileOf(t, id) {
        assert FileOf(s, id) == FileOf(NonEmpty(s), id) && FileOf(t, id) == FileOf(NonEmpty(t), id);
      }
    } else {
      var id :| (id in NonEmpty(s)) != (id in NonEmpty(t)) || (id in NonEmpty(s) && NonEmpty(s)[id] != NonEmpty(t)[id]);
      assert FileOf(s, id) != FileOf(t, id);
    }
  }

  lemma WriteAtEnd(file: Bytes, data: Bytes)
    ensures WriteAt(file, |file|, data) == file + data
  {
  }

  /** A file that was there is as it was, was cut at the mark, or was empty. */
  lemma KnownFile(before: Store, after: Store, segment: nat, offset: nat, id: nat)
    requires Appended(before, after) && EndsAt(before, segment, offset)
    ensures id < segment ==> FileOf(after, id) == FileOf(before, id)
    ensures id == segment ==> |FileOf(before, id)| == offset && FileOf(before, id) <= FileOf(after, id)
    ensures id > segment ==> FileOf(before, id) == []
  {
    if id < segment && id in before { assert HasHigher(before, id); }
    assert id < segment ==> !IsAbove(before, id);
  }

  /** The delta applied to one file. */
  lemma AppliedFile(target: Store, after: Store, segment: nat, offset: nat, id: nat)
    ensures var restored := ApplyDelta(target, Delta(after, segment, offset), segment, offset);
            var start := StartOf(id, segment, offset);
            FileOf(restored, id) ==
            if segment <= id && |FileOf(after, id)| > start then WriteAt(FileOf(target, id), start, FileOf(after, id)[start..])
            else FileOf(target, id)
  {
  }

  lemma RestoredFile(before: Store, after: Store, target: Store, segment: nat, offset: nat, id: nat)
    requires Appended(before, after) && EndsAt(before, segment, offset) && FileOf(target, id) == FileOf(before, id)
    ensures FileOf(ApplyDelta(target, Delta(after, segment, offset), segment, offset), id) == FileOf(after, id)
  {
    KnownFile(before, after, segment, offset, id);
    AppliedFile(target, after, segment, offset, id);
    var was, now, start := FileOf(before, id), FileOf(after, id), StartOf(id, segment, offset);
    if segment <= id && |now| > start {
      WriteAtEnd(was, now[start..]);
      assert was + now[start..] == now;
    }
  }

  /** The law of one increment: on a copy of `before`, the delta of an appended store restores
      that store. */
  lemma DeltaRestoresAppendedStore(before: Store, after: Store, target: Store, segment: nat, offset: nat)
    requires Appended(before, after) && EndsAt(before, segment, offset)
    requires NonEmpty(target) == NonEmpty(before)
    ensures NonEmpty(ApplyDelta(target, Delta(after, segment, offset), segment, offset)) == NonEmpty(after)
  {
    SameFiles(target, before);
    forall id ensures FileOf(ApplyDelta(target, Delta(after, segment, offset), segment, offset), id) == FileOf(after, id) {
      RestoredFile(before, after, target, segment, offset, id);
    }
    SameFiles(ApplyDelta(target, Delta(after, segment, offset), segment, offset), after);
  }

  // ---------------------------------------------------------------------------------------
  // Chains.
  // ---------------------------------------------------------------------------------------

  function IsAlphanumeric(c: char): bool
  {
    '0' <= c <= '9' || 'a' <= c <= 'z' || 'A' <= c <= 'Z'
  }

  predicate IsValidId(id: string)
  {
    0 < |id| <= 128 && forall k :: 0 <= k < |id| ==> IsAlphanumeric(id[k]) || id[k] == '_' || id[k] == '-'
  }

  /** The gap check between a backup and its parent. */
  predicate Gap(parent: Manifest, child: Manifest)
  {
    child.lastSegment < parent.lastSegment
    || (child.lastSegment == parent.lastSegment && child.startOffset < parent.lastOffset)
  }

  /** `b` is what the manager writes for store `s`, on top of the backup of `parentStore`. */
  ghost predicate IncrementOf(b: Backup, s: Store, parent: Manifest, parentStore: Store)
  {
    && b.manifest.kind == Incremental
    && Appended(parentStore, s)
    && b.files == Delta(s, parent.lastSegment, parent.lastOffset)
    && b.manifest.startOffset == parent.lastOffset
    && parent.lastSegment <= b.manifest.lastSegment
  }

  /** All backups ever made, the store each was made from, and when. */
  datatype History = History(made: map<string, Backup>, snaps: map<string, Store>, rank: map<string, nat>, top: nat)

  predicate SameRank(h: History, id: string, k: string) { id in h.rank && k in h.rank && h.rank[id] == h.rank[k] }

  /** The backup holds what it should of the store it was made from. */
  ghost predicate Sound(h: History, id: string)
    requires id in h.made
  {
    var b := h.made[id];
    && id in h.snaps && id in h.rank && h.rank[id] < h.top
    && EndsAt(h.snaps[id], b.manifest.lastSegment, b.manifest.lastOffset)
    && (b.manifest.kind == Full ==> b.files == h.snaps[id])
    && (b.manifest.kind == Incremental ==> HasParent(h, id))
  }

  /** Every backup is sound, and chains go down one creation at a time. */
  ghost predicate Consistent(h: History)
  {
    && h.made.Keys == h.snaps.Keys == h.rank.Keys
    && (forall id {:trigger Sound(h, id)} :: id in h.made ==> Sound(h, id))
    && (forall id, k {:trigger SameRank(h, id, k)} :: id in h.made && k in h.made && SameRank(h, id, k) ==> id == k)
  }

  ghost predicate HasParent(h: History, id: string)
    requires id in h.made
  {
    var parent := h.made[id].manifest.parent;
    && parent.Some? && parent.value in h.made && id in h.snaps && parent.value in h.snaps
    && id in h.rank && parent.value in h.rank && h.rank[id] == h.rank[parent.value] + 1
    && IncrementOf(h.made[id], h.snaps[id], h.made[parent.value].manifest, h.snaps[parent.value])
  }

  /** The backup an increment was made on. */
  ghost function Parent(h: History, id: string): (p: string)
    requires Consistent(h) && id in h.made && h.made[id].manifest.kind == Incremental
    ensures p in h.made && h.rank[p] + 1 == h.rank[id] && h.made[id].manifest.parent == Some(p)
    ensures IncrementOf(h.made[id], h.snaps[id], h.made[p].manifest, h.snaps[p])
  {
    assert Sound(h, id);
    h.made[id].manifest.parent.value
  }

  /** What restoring backup `id` onto an empty directory gives. */
  ghost function RestoredTo(h: History, id: string): Store
    requires Consistent(h) && id in h.made
    decreases h.rank[id]
  {
    var b := h.made[id];
    if b.manifest.kind == Full then b.files
    else
      var p := Parent(h, id);
      ApplyDelta(RestoredTo(h, p), b.files, h.made[p].manifest.lastSegment, h.made[p].manifest.lastOffset)
  }

  /** A full backup and any number of increments restore the store as of the last of them. */
  lemma {:induction false} ChainRestoresSnapshot(h: History, id: string)
    requires Consistent(h) && id in h.made
    ensures NonEmpty(RestoredTo(h, id)) == NonEmpty(h.snaps[id])
    decreases h.rank[id]
  {
    var b := h.made[id];
    assert Sound(h, id);
    if b.manifest.kind == Incremental {
      var p := Parent(h, id);
      assert Sound(h, p);
      ChainRestoresSnapshot(h, p);
      DeltaRestoresAppendedStore(h.snaps[p], h.snaps[id], RestoredTo(h, p),
                                 h.made[p].manifest.lastSegment, h.made[p].manifest.lastOffset);
    }
  }

  // ---------------------------------------------------------------------------------------
  // Which backups can be restored.
  // ---------------------------------------------------------------------------------------

  /** The directories hold backups as they were made; some may have been deleted. */
  ghost predicate OnDisk(h: History, backups: map<string, Backup>)
  {
    forall id :: id in backups ==> id in h.made && backups[id] == h.made[id]
  }

  /** The backup and all it builds on are there. */
  ghost predicate Restorable(h: History, backups: map<string, Backup>, id: string)
    requires Consistent(h) && id in h.made
    decreases h.rank[id]
  {
    id in backups && (h.made[id].manifest.kind == Incremental ==> Restorable(h, backups, Parent(h, id)))
  }

  /** Backup `id` is `x` or builds on it. */
  ghost predicate BuildsOn(h: History, id: string, x: string)
    requires Consistent(h) && id in h.made
    decreases h.rank[id]
  {
    id == x || (h.made[id].manifest.kind == Incremental && BuildsOn(h, Parent(h, id), x))
  }

  lemma {:induction false} BuildsOnOlder(h: History, id: string, x: string)
    requires Consistent(h) && id in h.made && x in h.made && BuildsOn(h, id, x)
    ensures h.rank[x] <= h.rank[id] && (id != x ==> h.made[id].manifest.kind == Incremental)
    decreases h.rank[id]
  {
    if id != x { BuildsOnOlder(h, Parent(h, id), x); }
  }

  /** Deleting a backup takes exactly itself and what builds on it. */
  lemma {:induction false} DeletingBreaksExactly(h: History, backups: map<string, Backup>, x: string, id: string)
    requires Consistent(h) && id in h.made
    ensures Restorable(h, backups - {x}, id) <==> Restorable(h, backups, id) && !BuildsOn(h, id, x)
    decreases h.rank[id]
  {
    if h.made[id].manifest.kind == Incremental { DeletingBreaksExactly(h, backups, x, Parent(h, id)); }
  }

  /** Every backup on disk can be restored. */
  ghost predicate AllRestorable(h: History, backups: map<string, Backup>)
    requires Consistent(h) && OnDisk(h, backups)
  {
    forall id :: id in backups ==> Restorable(h, backups, id)
  }

  /** Each backup but the first is an increment on the one before. */
  ghost predicate Linked(h: History, chain: seq<string>)
  {
    && chain != [] && (forall k :: 0 <= k < |chain| ==> chain[k] in h.made)
    && forall k :: 0 < k < |chain| ==>
         h.made[chain[k]].manifest.kind == Incremental && h.made[chain[k]].manifest.parent == Some(chain[k - 1])
  }

  lemma LinkParent(h: History, chain: seq<string>, parent: string)
    requires Linked(h, chain) && parent in h.made
    requires h.made[chain[0]].manifest.kind == Incremental && h.made[chain[0]].manifest.parent == Some(parent)
    ensures Linked(h, [parent] + chain)
  {
    var all := [parent] + chain;
    assert forall k :: 0 < k < |all| ==> all[k] == chain[k - 1];
  }

  /** The directories of a chain are all there, oldest first. */
  ghost predicate IsChain(h: History, backups: map<string, Backup>, chain: seq<string>)
  {
    && Linked(h, chain) && h.made[chain[0]].manifest.kind == Full
    && forall k :: 0 <= k < |chain| ==> chain[k] in backups
  }

  lemma NoGap(h: History, chain: seq<string>, k: nat)
    requires Consistent(h) && Linked(h, chain) && 0 < k < |chain|
    ensures !Gap(h.made[chain[k - 1]].manifest, h.made[chain[k]].manifest)
  {
    var p := Parent(h, chain[k]);
  }

  /** The last id of a listing. */
  ghost predicate IsHighest(ids: set<nat>, id: nat)
  {
    id in ids && forall k :: k in ids ==> k <= id
  }

  method Highest(ids: set<nat>) returns (id: nat)
    requires ids != {}
    ensures IsHighest(ids, id)
  {
    id :| id in ids;
    var rest := ids - {id};
    while rest != {}
      invariant id in ids && rest <= ids && forall k :: k in ids ==> k in rest || k <= id
      decreases rest
    {
      var k :| k in rest;
      if k > id { id := k; }
      rest := rest - {k};
    }
  }

  /** `after` is `before` without some increments. */
  ghost predicate Pruned(before: map<string, Backup>, after: map<string, Backup>)
  {
    && after.Keys <= before.Keys && (forall k :: k in after ==> after[k] == before[k])
    && (forall k :: k in before && before[k].manifest.kind == Full ==> k in after)
  }

  lemma PruneOneMore(before: map<string, Backup>, after: map<string, Backup>, id: string)
    requires Pruned(before, after) && id in after && after[id].manifest.kind == Incremental
    ensures Pruned(before, after - {id})
  {
  }

  /** The increments on disk that are backup `id` or are reached from it through parents on disk. */
  ghost function Increments(h: History, backups: map<string, Backup>, id: string): (r: set<string>)
    requires Consistent(h) && id in h.made
    ensures forall k :: k in r ==> k in backups && k in h.rank && h.rank[k] <= h.rank[id]
    decreases h.rank[id]
  {
    if id !in backups || h.made[id].manifest.kind == Full then {} else {id} + Increments(h, backups, Parent(h, id))
  }

  /** Deleting increment `id` leaves those below it to delete. */
  lemma DeletedOneMore(
      h: History, before: map<string, Backup>, all: set<string>, backups: map<string, Backup>, id: string)
    requires Consistent(h) && id in before && id in h.made && h.made[id].manifest.kind == Incremental
    requires Increments(h, before, id) <= all && backups == before - (all - Increments(h, before, id))
    ensures var below := Increments(h, before, Parent(h, id));
            below <= all && backups - {id} == before - (all - below)
  {
    var below := Increments(h, before, Parent(h, id));
    assert Increments(h, before, id) == {id} + below && id !in below;
    assert (all - Increments(h, before, id)) + {id} == all - below;
  }

  /** No increment on disk was made after backup `id`. */
  ghost predicate NewestIncrement(h: History, backups: map<string, Backup>, id: string)
    requires id in h.rank
  {
    forall k :: k in backups && k in h.rank && backups[k].manifest.kind == Incremental ==> h.rank[k] <= h.rank[id]
  }

  lemma ParentBecomesNewest(h: History, backups: map<string, Backup>, newest: string)
    requires Consistent(h) && OnDisk(h, backups) && newest in h.made && h.made[newest].manifest.kind == Incremental
    requires NewestIncrement(h, backups, newest)
    ensures NewestIncrement(h, backups - {newest}, Parent(h, newest))
  {
    var fewer, parent := backups - {newest}, Parent(h, newest);
    forall k | k in fewer && k in h.rank && fewer[k].manifest.kind == Incremental ensures h.rank[k] <= h.rank[parent] {
      assert !SameRank(h, k, newest);
      assert k in backups && h.rank[k] <= h.rank[newest];
    }
  }

  /** Nothing on disk builds on the newest increment. */
  lemma NothingBuildsOnNewest(h: History, backups: map<string, Backup>, newest: string, id: string)
    requires Consistent(h) && OnDisk(h, backups) && newest in h.made && NewestIncrement(h, backups, newest)
    requires id in backups && id != newest
    ensures !BuildsOn(h, id, newest)
  {
    if BuildsOn(h, id, newest) {
      BuildsOnOlder(h, id, newest);
      assert h.rank[id] <= h.rank[newest];
      assert SameRank(h, id, newest);
      assert false;
    }
  }

  /** What could be restored and is still there can still be restored. */
  ghost predicate LosesNoChain(h: History, before: map<string, Backup>, after: map<string, Backup>)
    requires Consistent(h)
  {
    forall id :: id in after && id in h.made && Restorable(h, before, id) ==> Restorable(h, after, id)
  }

  lemma RemovingTheNewestLosesNoChain(h: History, before: map<string, Backup>, backups: map<string, Backup>, newest: string)
    requires Consistent(h) && OnDisk(h, backups) && newest in h.made && NewestIncrement(h, backups, newest)
    requires LosesNoChain(h, before, backups)
    ensures LosesNoChain(h, before, backups - {newest})
  {
    forall id | id in backups - {newest} && id in h.made && Restorable(h, before, id)
      ensures Restorable(h, backups - {newest}, id)
    {
      assert id in backups;
      NothingBuildsOnNewest(h, backups, newest, id);
      DeletingBreaksExactly(h, backups, newest, id);
    }
  }

  predicate MarksAgree(m: Manifest, segment: nat, offset: nat) { m.lastSegment == segment && m.lastOffset == offset }

  lemma StoreIsAppended(s: Store)
    ensures Appended(s, s)
  {
  }

  function WithBackup(h: History, id: string, b: Backup, s: Store): History
  {
    History(h.made[id := b], h.snaps[id := s], h.rank[id := h.top], h.top + 1)
  }

  /** A new full backup, or an increment on the newest backup. */
  lemma AddingKeepsChains(h: History, id: string, b: Backup, s: Store)
    requires Consistent(h) && id !in h.made
    requires EndsAt(s, b.manifest.lastSegment, b.manifest.lastOffset)
    requires b.manifest.kind == Full ==> b.files == s
    requires b.manifest.kind == Incremental ==>
               && b.manifest.parent.Some? && b.manifest.parent.value in h.made
               && h.rank[b.manifest.parent.value] + 1 == h.top
               && IncrementOf(b, s, h.made[b.manifest.parent.value].manifest, h.snaps[b.manifest.parent.value])
    ensures Consistent(WithBackup(h, id, b, s))
  {
    var h' := WithBackup(h, id, b, s);
    forall k | k in h'.made ensures Sound(h', k) {
      if k != id { assert Sound(h, k); }
    }
    assert id !in h.rank;
    forall i, k | i in h'.made && k in h'.made && SameRank(h', i, k) ensures i == k {
      if i != id && k != id {
        assert SameRank(h, i, k);
      } else {
        assert i != id ==> Sound(h, i);
        assert k != id ==> Sound(h, k);
      }
    }
  }

  /** A new backup changes nothing for the others. */
  lemma {:induction false} AddingKeepsOthers(h: History, backups: map<string, Backup>, id: string, b: Backup, s: Store, k: string)
    requires Consistent(h) && id !in h.made && Consistent(WithBackup(h, id, b, s)) && k in h.made
    ensures Restorable(WithBackup(h, id, b, s), backups[id := b], k) <==> Restorable(h, backups, k)
    decreases h.rank[k]
  {
    if h.made[k].manifest.kind == Incremental { AddingKeepsOthers(h, backups, id, b, s, Parent(h, k)); }
  }

  lemma NothingNewMeansSameFiles(before: Store, after: Store, segment: nat, offset: nat)
    requires Appended(before, after) && EndsAt(before, segment, offset)
    requires Delta(after, segment, offset) == map[]
    ensures NonEmpty(after) == NonEmpty(before)
  {
    DeltaRestoresAppendedStore(before, after, before, segment, offset);
    assert ApplyDelta(before, map[], segment, offset) == before;
  }

  lemma DeltaEndsWhereStoreEnds(s: Store, segment: nat, offset: nat, last: nat)
    requires IsHighest(Delta(s, segment, offset).Keys, last)
    ensures EndsAt(s, last, StartOf(last, segment, offset) + |Delta(s, segment, offset)[last]|)
    ensures segment <= last
  {
    forall id | id in s && id > last ensures s[id] == [] {
      assert id !in Delta(s, segment, offset);
    }
  }

  /** The last backup is the newest one made, the marks are its end, and the store only grew since. */
  ghost predicate IsNewest(h: History, id: string, segment: nat, offset: nat, store: Store)
  {
    && id in h.made && id in h.rank && id in h.snaps
    && MarksAgree(h.made[id].manifest, segment, offset) && h.rank[id] + 1 == h.top && Appended(h.snaps[id], store)
  }

  /** What the manager may write next. */
  ghost predicate Recordable(h: History, last: Option<string>, id: string, b: Backup, store: Store)
  {
    && id !in h.made && EndsAt(store, b.manifest.lastSegment, b.manifest.lastOffset)
    && (b.manifest.kind == Full ==> b.files == store)
    && (b.manifest.kind == Incremental ==>
          && last.Some? && b.manifest.parent == last && last.value in h.made && last.value in h.snaps
          && IncrementOf(b, store, h.made[last.value].manifest, h.snaps[last.value]))
  }

  lemma RecordingKeepsState(
      h: History, backups: map<string, Backup>, last: Option<string>, segment: nat, offset: nat, store: Store,
      id: string, b: Backup)
    requires Consistent(h) && OnDisk(h, backups) && Recordable(h, last, id, b, store)
    requires last.Some? ==> IsNewest(h, last.value, segment, offset, store)
    ensures var h' := WithBackup(h, id, b, store);
            && Consistent(h') && OnDisk(h', backups[id := b])
            && IsNewest(h', id, b.manifest.lastSegment, b.manifest.lastOffset, store)
  {
    AddingKeepsChains(h, id, b, store);
    StoreIsAppended(store);
  }

  /** With a full backup, or an increment on one that can be restored, all that could be restored still can,
      and the new backup can. */
  lemma RecordingKeepsRestorable(
      h: History, backups: map<string, Backup>, id: string, b: Backup, store: Store)
    requires Consistent(h) && OnDisk(h, backups) && id !in h.made && AllRestorable(h, backups)
    requires Consistent(WithBackup(h, id, b, store)) && OnDisk(WithBackup(h, id, b, store), backups[id := b])
    requires b.manifest.kind == Incremental ==> b.manifest.parent.Some? && b.manifest.parent.value in backups
    ensures AllRestorable(WithBackup(h, id, b, store), backups[id := b])
  {
    var h', after := WithBackup(h, id, b, store), backups[id := b];
    forall k | k in after ensures Restorable(h', after, k) {
      if k != id {
        AddingKeepsOthers(h, backups, id, b, store, k);
      } else if b.manifest.kind == Incremental {
        AddingKeepsOthers(h, backups, id, b, store, Parent(h', id));
      }
    }
  }

  /** The last backup is there and every backup can be restored. */
  ghost predicate IsIntact(h: History, backups: map<string, Backup>, last: Option<string>)
    requires Consistent(h) && OnDisk(h, backups)
  {
    AllRestorable(h, backups) && (last.Some? ==> last.value in backups)
  }

  lemma RecordingKeepsIntact(
      h: History, backups: map<string, Backup>, last: Option<string>, segment: nat, offset: nat, store: Store,
      id: string, b: Backup)
    requires Consistent(h) && OnDisk(h, backups) && Recordable(h, last, id, b, store)
    requires last.Some? ==> IsNewest(h, last.value, segment, offset, store)
    ensures var h' := WithBackup(h, id, b, store);
            && Consistent(h') && OnDisk(h', backups[id := b])
            && IsNewest(h', id, b.manifest.lastSegment, b.manifest.lastOffset, store)
            && (IsIntact(h, backups, last) ==> IsIntact(h', backups[id := b], Some(id)))
  {
    RecordingKeepsState(h, backups, last, segment, offset, store, id, b);
    if IsIntact(h, backups, last) { RecordingKeepsRestorable(h, backups, id, b, store); }
  }

  /** No increment is newer than the backup before a new full one. */
  lemma PreviousIsNewest(h: History, backups: map<string, Backup>, previous: string, id: string, b: Backup, s: Store)
    requires Consistent(h) && previous in h.made && h.rank[previous] + 1 == h.top && id !in h.made && b.manifest.kind == Full
    requires OnDisk(WithBackup(h, id, b, s), backups)
    ensures NewestIncrement(WithBackup(h, id, b, s), backups, previous)
  {
    var h' := WithBackup(h, id, b, s);
    forall k | k in backups && k in h'.rank && backups[k].manifest.kind == Incremental ensures h'.rank[k] <= h'.rank[previous] {
      if k != id { assert Sound(h, k); }
    }
  }
}
