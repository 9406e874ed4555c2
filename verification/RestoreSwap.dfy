/** The commit of a restore and its recovery at startup, as file-system steps that a crash may cut
    anywhere. A rename is atomic; a recursive delete may stop partway. */
module RestoreSwap {
  import opened Options

  /** File contents by path inside a directory. */
  type Dir = map<string, seq<int>>

  /** The two data directories, in the order they are swapped. */
  datatype DataDir = Index | Documents

  type Tree = map<DataDir, Dir>

  predicate HasBoth(t: Tree) { Index in t && Documents in t }

  /** What lies under the shard's root: the data directories, `restore.new`, `restore.old`,
      `wal`, and whether data derived from the old data (`index.new`, `index.old` and the maps
      file) is still there. */
  datatype Fs = Fs(live: Tree, staging: Option<Tree>, aside: Option<Tree>, wal: Option<Dir>, derived: bool)

  datatype Phase = Check | MoveAside | Discard | MoveIn

  datatype Pc =
    | Begin
    | Swap(dir: DataDir, phase: Phase)
    | Cleanup
    | DropWal
    | ReopenWal
    | DropOld
    | DropStaging
    | OpenWal
    | Finished
    | Failed

  /** `commit_restore` or, after a crash, `recover_interrupted_restore` and the WAL's opening. */
  datatype Program = Commit | Recover

  datatype State = State(program: Program, pc: Pc, fs: Fs)

  /** A log with one empty segment, as opening a missing WAL creates it. */
  const EMPTY_WAL: Dir := map["00000000000000000001.wal" := []]

  ghost predicate DeletedPart(before: Dir, after: Dir)
  {
    after.Keys <= before.Keys && forall f :: f in after ==> after[f] == before[f]
  }

  ghost predicate DeletedPartOfTree(before: Tree, after: Tree)
  {
    after.Keys <= before.Keys && forall d :: d in after ==> DeletedPart(before[d], after[d])
  }

  function NextDir(d: DataDir): Pc
  {
    match d
    case Index => Swap(Documents, Check)
    case Documents => Cleanup
  }

  /** One step of the running program. */
  ghost predicate Step(s: State, s': State)
  {
    var fs, fs' := s.fs, s'.fs;
    s'.program == s.program &&
    match s.pc
    case Begin =>
      if s.program == Commit then
        // an unprepared directory fails the sync before anything is changed
        if fs.aside.None? && (fs.staging.None? || !HasBoth(fs.staging.value)) then s' == s.(pc := Failed)
        else s' == s.(pc := Swap(Index, Check), fs := if fs.aside.None? then fs.(aside := Some(map[])) else fs)
      else if fs.aside.Some? then s' == s.(pc := Swap(Index, Check))
      else s' == s.(pc := DropStaging)
    case Swap(d, Check) =>
      var prepared := fs.staging.Some? && d in fs.staging.value;
      s' == s.(pc := if prepared then Swap(d, MoveAside) else NextDir(d))
    case Swap(d, MoveAside) =>
      if fs.aside.None? then s' == s.(pc := Failed)
      else if d in fs.live && d !in fs.aside.value then
        s' == s.(pc := Swap(d, Discard),
                 fs := fs.(live := fs.live - {d}, aside := Some(fs.aside.value[d := fs.live[d]])))
      else s' == s.(pc := Swap(d, Discard))
    case Swap(d, Discard) =>
      || s' == s.(pc := Swap(d, MoveIn), fs := fs.(live := fs.live - {d}))
      || (s'.pc == s.pc && d in fs.live && d in fs'.live && DeletedPart(fs.live[d], fs'.live[d])
          && fs' == fs.(live := fs.live[d := fs'.live[d]]))
    case Swap(d, MoveIn) =>
      if d in fs.live || fs.staging.None? || d !in fs.staging.value then s' == s.(pc := Failed)
      else s' == s.(pc := NextDir(d),
                    fs := fs.(live := fs.live[d := fs.staging.value[d]],
                              staging := Some(fs.staging.value - {d})))
    case Cleanup => s' == s.(pc := DropWal, fs := fs.(derived := false)) || s' == s
    case DropWal =>
      || s' == s.(pc := if s.program == Commit then ReopenWal else DropOld, fs := fs.(wal := None))
      || (s'.pc == s.pc && fs.wal.Some? && fs'.wal.Some? && DeletedPart(fs.wal.value, fs'.wal.value)
          && fs' == fs.(wal := fs'.wal))
    case ReopenWal => s' == s.(pc := DropOld, fs := fs.(wal := Some(EMPTY_WAL)))
    case DropOld =>
      || s' == s.(pc := DropStaging, fs := fs.(aside := None))
      || (s'.pc == s.pc && fs.aside.Some? && fs'.aside.Some? && DeletedPartOfTree(fs.aside.value, fs'.aside.value)
          && fs' == fs.(aside := fs'.aside))
    case DropStaging =>
      || s' == s.(pc := if s.program == Commit then Finished else OpenWal, fs := fs.(staging := None))
      || (s'.pc == s.pc && fs.staging.Some? && fs'.staging.Some?
          && DeletedPartOfTree(fs.staging.value, fs'.staging.value)
          && fs' == fs.(staging := fs'.staging))
    case OpenWal => s' == s.(pc := Finished, fs := fs.(wal := if fs.wal.Some? then fs.wal else Some(EMPTY_WAL)))
    case Finished => false
    case Failed => false
  }

  /** The process dies and is started again. */
  ghost predicate Crash(s: State, s': State)
  {
    s' == State(Recover, Begin, s.fs)
  }

  ghost predicate Next(s: State, s': State) { Step(s, s') || Crash(s, s') }

  ghost predicate IsRun(run: seq<State>)
  {
    run != [] && forall k :: 0 <= k < |run| - 1 ==> Next(run[k], run[k + 1])
  }

  /** A commit about to start: a complete copy beside the live data, whose log holds `log`. */
  ghost predicate CommitStarts(s: State, before: Tree, copy: Tree, log: Dir)
  {
    && HasBoth(before) && HasBoth(copy)
    && s.program == Commit && s.pc == Begin
    && s.fs.live == before && s.fs.staging == Some(copy) && s.fs.aside.None? && s.fs.wal == Some(log)
  }

  // ---------------------------------------------------------------------------------------
  // The invariant.
  // ---------------------------------------------------------------------------------------

  /** Before `restore.old` is created nothing but the copy may have changed. */
  ghost predicate Untouched(s: State, before: Tree, copy: Tree, log: Dir)
  {
    && s.fs.aside.None? && s.fs.live == before && s.fs.wal == Some(log)
    && (if s.program == Commit then s.pc == Begin && s.fs.staging == Some(copy)
        else s.pc in {Begin, DropStaging, OpenWal, Finished})
    && (s.pc in {OpenWal, Finished} ==> s.fs.staging.None?)
  }

  /** A directory is either still prepared in full or already swapped in. */
  ghost predicate DirCommitted(fs: Fs, copy: Tree, d: DataDir)
    requires HasBoth(copy)
  {
    d in copy &&
    if fs.staging.Some? && d in fs.staging.value then fs.staging.value[d] == copy[d]
    else d in fs.live && fs.live[d] == copy[d]
  }

  ghost predicate SwappedIn(fs: Fs, d: DataDir) { fs.staging.Some? ==> d !in fs.staging.value }

  /** While `restore.old` exists the copy can still be completed, from any step. */
  ghost predicate Swapping(s: State, copy: Tree)
    requires HasBoth(copy)
  {
    var fs := s.fs;
    && fs.aside.Some?
    && DirCommitted(fs, copy, Index) && DirCommitted(fs, copy, Documents)
    && s.pc !in {DropStaging, OpenWal, Finished, Failed}
    && (s.pc.Swap? && s.pc.dir == Documents ==> SwappedIn(fs, Index))
    && (s.pc.Swap? && s.pc.phase in {MoveAside, Discard, MoveIn} ==> !SwappedIn(fs, s.pc.dir))
    && (s.pc.Swap? && s.pc.phase == MoveIn ==> s.pc.dir !in fs.live)
    && (s.pc in {Cleanup, DropWal, ReopenWal, DropOld} ==> SwappedIn(fs, Index) && SwappedIn(fs, Documents))
    && (s.pc in {DropWal, ReopenWal, DropOld} ==> !fs.derived)
    && (s.pc == ReopenWal ==> s.program == Commit)
    && (s.pc == DropOld ==> fs.wal == if s.program == Commit then Some(EMPTY_WAL) else None)
    && (s.pc == Begin ==> s.program == Recover)
  }

  /** After `restore.old` is gone only leftovers of the copy remain. */
  ghost predicate Restored(s: State, copy: Tree)
  {
    && s.fs.aside.None? && s.fs.live == copy && !s.fs.derived
    && (s.fs.wal.None? || s.fs.wal == Some(EMPTY_WAL))
    && (s.pc in {DropStaging, OpenWal, Finished} || (s.pc == Begin && s.program == Recover))
    && (s.pc == DropStaging && s.program == Commit ==> s.fs.wal.Some?)
    && (s.pc == OpenWal ==> s.program == Recover && s.fs.staging.None?)
    && (s.pc == Finished ==> s.fs.wal.Some? && s.fs.staging.None?)
  }

  /** `committed`: whether `restore.old` has existed by now. */
  ghost predicate Inv(s: State, before: Tree, copy: Tree, log: Dir, committed: bool)
  {
    && HasBoth(before) && HasBoth(copy)
    && if committed then Swapping(s, copy) || Restored(s, copy)
       else Untouched(s, before, copy, log)
  }

  lemma UntouchedStep(s: State, s': State, before: Tree, copy: Tree, log: Dir)
    requires HasBoth(before) && HasBoth(copy)
    requires Untouched(s, before, copy, log) && Step(s, s')
    ensures Inv(s', before, copy, log, s'.fs.aside.Some?)
  {
  }

  lemma SwappingStep(s: State, s': State, copy: Tree)
    requires HasBoth(copy) && Swapping(s, copy) && Step(s, s')
    ensures Swapping(s', copy) || Restored(s', copy)
  {
    if s.pc.Swap? {
      SwapPhaseStep(s, s', copy);
    } else {
      AfterSwapStep(s, s', copy);
    }
  }

  lemma SwapPhaseStep(s: State, s': State, copy: Tree)
    requires HasBoth(copy) && Swapping(s, copy) && Step(s, s') && s.pc.Swap?
    ensures Swapping(s', copy)
  {
    match s.pc.phase
    case Check =>
    case MoveAside =>
    case Discard =>
    case MoveIn => MoveInStep(s, s', copy);
  }

  lemma MoveInStep(s: State, s': State, copy: Tree)
    requires HasBoth(copy) && Swapping(s, copy) && Step(s, s') && s.pc.Swap? && s.pc.phase == MoveIn
    ensures Swapping(s', copy)
  {
    var d := s.pc.dir;
    assert s'.fs.live[d] == copy[d];
  }

  lemma AfterSwapStep(s: State, s': State, copy: Tree)
    requires HasBoth(copy) && Swapping(s, copy) && Step(s, s') && !s.pc.Swap?
    ensures Swapping(s', copy) || Restored(s', copy)
  {
    if s.pc == DropOld && s'.pc != DropOld {
      assert s'.fs.live[Index] == copy[Index] && s'.fs.live[Documents] == copy[Documents];
      LiveIsCopy(s.fs.live, copy);
    }
  }

  /** There are no other data directories. */
  lemma LiveIsCopy(live: Tree, copy: Tree)
    requires HasBoth(live) && HasBoth(copy)
    requires live[Index] == copy[Index] && live[Documents] == copy[Documents]
    ensures live == copy
  {
    forall d: DataDir ensures d in live && d in copy && live[d] == copy[d] {
      match d case Index => case Documents =>
    }
  }

  lemma RestoredStep(s: State, s': State, copy: Tree)
    requires Restored(s, copy) && Step(s, s')
    ensures Restored(s', copy)
  {
  }

  lemma NextKeepsInv(s: State, s': State, before: Tree, copy: Tree, log: Dir, committed: bool)
    requires Inv(s, before, copy, log, committed) && Next(s, s')
    ensures Inv(s', before, copy, log, committed || s'.fs.aside.Some?)
  {
    if Crash(s, s') {
    } else if !committed {
      UntouchedStep(s, s', before, copy, log);
    } else if Swapping(s, copy) {
      SwappingStep(s, s', copy);
    } else {
      RestoredStep(s, s', copy);
    }
  }

  /** `restore.old` has existed in one of the first `n + 1` states. */
  ghost predicate CommittedBy(run: seq<State>, n: nat)
    requires n < |run|
  {
    exists k :: 0 <= k <= n && run[k].fs.aside.Some?
  }

  lemma CommittedByGrows(run: seq<State>, n: nat)
    requires 0 < n < |run|
    ensures CommittedBy(run, n) == (CommittedBy(run, n - 1) || run[n].fs.aside.Some?)
  {
  }

  lemma {:induction false} RunKeepsInv(run: seq<State>, n: nat, before: Tree, copy: Tree, log: Dir)
    requires IsRun(run) && CommitStarts(run[0], before, copy, log) && n < |run|
    ensures Inv(run[n], before, copy, log, CommittedBy(run, n))
  {
    if n > 0 {
      var k := n - 1;
      RunKeepsInv(run, k, before, copy, log);
      assert Next(run[k], run[k + 1]);
      NextKeepsInv(run[k], run[n], before, copy, log, CommittedBy(run, k));
      CommittedByGrows(run, n);
    }
  }

  /** Wherever crashes cut the commit and its recoveries: no step ever fails, and whenever the
      program is through, both directories are the old ones with their log if `restore.old` was
      never created, and both the restored ones with an empty log if it was. It was if no crash cut the
      commit. */
  lemma RestoreIsAllOrNothing(run: seq<State>, before: Tree, copy: Tree, log: Dir)
    requires IsRun(run) && CommitStarts(run[0], before, copy, log)
    ensures var end := run[|run| - 1];
            && end.pc != Failed
            && (end.pc == Finished ==>
                  && end.fs.staging.None? && end.fs.aside.None?
                  && if CommittedBy(run, |run| - 1)
                     then end.fs.live == copy && end.fs.wal == Some(EMPTY_WAL) && !end.fs.derived
                     else end.fs.live == before && end.fs.wal == Some(log))
            && (end.pc == Finished && end.program == Commit ==> CommittedBy(run, |run| - 1))
  {
    RunKeepsInv(run, |run| - 1, before, copy, log);
  }

  // ---------------------------------------------------------------------------------------
  // Left alone, the program finishes.
  // ---------------------------------------------------------------------------------------

  /** The step in which a delete goes through at once. */
  function Advance(s: State): State
  {
    var fs := s.fs;
    match s.pc
    case Begin =>
      if s.program == Commit then
        if fs.aside.None? && (fs.staging.None? || !HasBoth(fs.staging.value)) then s.(pc := Failed)
        else s.(pc := Swap(Index, Check), fs := if fs.aside.None? then fs.(aside := Some(map[])) else fs)
      else s.(pc := if fs.aside.Some? then Swap(Index, Check) else DropStaging)
    case Swap(d, Check) =>
      s.(pc := if fs.staging.Some? && d in fs.staging.value then Swap(d, MoveAside) else NextDir(d))
    case Swap(d, MoveAside) =>
      if fs.aside.None? then s.(pc := Failed)
      else if d in fs.live && d !in fs.aside.value then
        s.(pc := Swap(d, Discard), fs := fs.(live := fs.live - {d}, aside := Some(fs.aside.value[d := fs.live[d]])))
      else s.(pc := Swap(d, Discard))
    case Swap(d, Discard) => s.(pc := Swap(d, MoveIn), fs := fs.(live := fs.live - {d}))
    case Swap(d, MoveIn) =>
      if d in fs.live || fs.staging.None? || d !in fs.staging.value then s.(pc := Failed)
      else s.(pc := NextDir(d),
              fs := fs.(live := fs.live[d := fs.staging.value[d]], staging := Some(fs.staging.value - {d})))
    case Cleanup => s.(pc := DropWal, fs := fs.(derived := false))
    case DropWal => s.(pc := if s.program == Commit then ReopenWal else DropOld, fs := fs.(wal := None))
    case ReopenWal => s.(pc := DropOld, fs := fs.(wal := Some(EMPTY_WAL)))
    case DropOld => s.(pc := DropStaging, fs := fs.(aside := None))
    case DropStaging => s.(pc := if s.program == Commit then Finished else OpenWal, fs := fs.(staging := None))
    case OpenWal => s.(pc := Finished, fs := fs.(wal := if fs.wal.Some? then fs.wal else Some(EMPTY_WAL)))
    case Finished => s
    case Failed => s
  }

  function StepsLeft(pc: Pc): nat
  {
    match pc
    case Begin => 15
    case Swap(d, phase) =>
      (if d == Index then 11 else 7)
      + (match phase case Check => 3 case MoveAside => 2 case Discard => 1 case MoveIn => 0)
    case Cleanup => 6
    case DropWal => 5
    case ReopenWal => 4
    case DropOld => 3
    case DropStaging => 2
    case OpenWal => 1
    case Finished => 0
    case Failed => 0
  }

  lemma AdvanceIsAStep(s: State)
    requires s.pc !in {Finished, Failed}
    ensures Step(s, Advance(s)) && StepsLeft(Advance(s).pc) < StepsLeft(s.pc)
  {
  }

  /** From every state a commit or a recovery can be cut at, some run without a crash finishes. */
  lemma {:induction false} RecoveryFinishes(s: State, before: Tree, copy: Tree, log: Dir, committed: bool)
    returns (run: seq<State>)
    requires Inv(s, before, copy, log, committed)
    ensures IsRun(run) && run[0] == s && run[|run| - 1].pc == Finished
    decreases StepsLeft(s.pc)
  {
    if s.pc == Finished {
      run := [s];
    } else {
      AdvanceIsAStep(s);
      NextKeepsInv(s, Advance(s), before, copy, log, committed);
      var rest := RecoveryFinishes(Advance(s), before, copy, log, committed || Advance(s).fs.aside.Some?);
      run := [s] + rest;
      forall k | 0 <= k < |run| - 1 ensures Next(run[k], run[k + 1]) {
        assert k > 0 ==> Next(rest[k - 1], rest[k]);
      }
    }
  }
}
