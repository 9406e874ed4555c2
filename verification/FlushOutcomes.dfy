/** What a `Flush` is answered: Ok exactly if its tombstones were synced and no segment write has failed
    by the time of the answer, told by the worker's steps alone. */
module FlushOutcomes {
  import opened LsmState
  import opened LsmInvariants
  import opened LsmCompaction
  import opened LsmVisibility
  import opened FlushAcks

  /** The segment or its manifest entry could not be written. */
  predicate WriteFails(step: Step) { step.SegmentWritten? && !(step.writeOk && step.manifestOk) }

  ghost predicate SomeWriteFails(steps: seq<Step>, k: nat)
    requires k <= |steps|
  {
    exists m :: 0 <= m < k && WriteFails(steps[m])
  }

  // ---------------------------------------------------------------------------------------
  // The index knows of a failure exactly if a write failed.
  // ---------------------------------------------------------------------------------------

  lemma InnerKeepsFailure(s: Lsm, e: Event)
    requires Inv(s) && Enabled(s, e) && !e.Complete?
    ensures Next(s, e).failure == s.failure
  {
    match e
    case InstallJob(j, openOk, manifestOk) =>
      if Installs(s, e) { InstalledFields(s, j, manifestOk); } else { RejectedFields(s, j, openOk, manifestOk); }
    case _ =>
  }

  lemma WrittenFailure(w: Worker, writeOk: bool, manifestOk: bool)
    requires Inv(w.index) && WriterInOrder(w) && w.writer != []
    ensures CompleteFlush(w.index, w.writer[0], writeOk, manifestOk).0.failure
            == (w.index.failure || !(writeOk && manifestOk))
  {
    assert w.writer[0] == FlushedThrough(w.index);
    assert w.index.pending[0].number == w.writer[0];
  }

  lemma StepFailure(w: Worker, step: Step)
    requires WInv(w) && CanStep(w, step)
    ensures Do(w, step).index.failure == (w.index.failure || WriteFails(step))
  {
    match step
    case Inner(e) => InnerKeepsFailure(w.index, e);
    case Submit =>
    case Flush(keep, syncOk) =>
      if !Refused(w, keep, syncOk) { ReleaseKeepsIndex(Waiting(w, keep, syncOk)); }
    case SegmentWritten(writeOk, manifestOk) =>
      WrittenFailure(w, writeOk, manifestOk);
      ReleaseKeepsIndex(Written(w, writeOk, manifestOk));
  }

  lemma OneMoreStep(steps: seq<Step>, k: nat)
    requires k < |steps|
    ensures SomeWriteFails(steps, k + 1) <==> SomeWriteFails(steps, k) || WriteFails(steps[k])
  {
  }

  lemma RunStepFailure(persistent: bool, run: seq<Worker>, steps: seq<Step>, k: nat)
    requires IsWorkerRun(run, steps) && run[0] == Start(persistent) && k < |steps|
    ensures run[k + 1].index.failure == (run[k].index.failure || WriteFails(steps[k]))
  {
    RunKeepsWInv(persistent, run, steps, k);
    assert Steps(run[k], steps[k], run[k + 1]);
    StepFailure(run[k], steps[k]);
  }

  lemma {:induction false} FailureMeansAFailedWrite(persistent: bool, run: seq<Worker>, steps: seq<Step>, k: nat)
    requires IsWorkerRun(run, steps) && run[0] == Start(persistent) && k < |run|
    ensures run[k].index.failure <==> SomeWriteFails(steps, k)
  {
    if k > 0 {
      FailureMeansAFailedWrite(persistent, run, steps, k - 1);
      RunStepFailure(persistent, run, steps, k - 1);
      OneMoreStep(steps, k - 1);
    }
  }

  // ---------------------------------------------------------------------------------------
  // Which waiters are answered, and with what.
  // ---------------------------------------------------------------------------------------

  /** The worker when an accepted flush has joined the waiters. */
  function Waiting(w: Worker, keep: nat, syncOk: bool): Worker
    requires keep <= |w.index.generations|
  {
    var sent := SubmitAll(w.(index := QueueFlush(w.index, keep, syncOk).0, flushes := w.flushes + 1));
    sent.(waiters := w.waiters + [Waiter(w.flushes, sent.index.nextSeq, w.added)])
  }

  /** The worker when a segment write came back. */
  function Written(w: Worker, writeOk: bool, manifestOk: bool): Worker
    requires SameLengths(w.index) && w.writer != []
  {
    w.(index := CompleteFlush(w.index, w.writer[0], writeOk, manifestOk).0, writer := w.writer[1..])
  }

  /** What waiter `w` is told. */
  function Answer(w: Waiter, ok: bool): Ack { Ack(w.flush, ok, w.before) }

  function AnswerAll(waiters: seq<Waiter>, ok: bool): seq<Ack>
  {
    seq(|waiters|, i requires 0 <= i < |waiters| => Answer(waiters[i], ok))
  }

  /** The first `n` waiters have reached their target and the next one has not. */
  ghost predicate ReachedFirst(waiters: seq<Waiter>, through: int, n: nat)
  {
    && n <= |waiters| && (forall i :: 0 <= i < n ==> waiters[i].target <= through)
    && (n < |waiters| ==> through < waiters[n].target)
  }

  lemma AnswerFirst(waiters: seq<Waiter>, n: nat, ok: bool)
    requires 0 < n <= |waiters|
    ensures AnswerAll(waiters[..n], ok) == [Answer(waiters[0], ok)] + AnswerAll(waiters[1..][..n - 1], ok)
    ensures waiters[1..][n - 1..] == waiters[n..]
  {
  }

  lemma ReachedOneMore(waiters: seq<Waiter>, through: int, n: nat)
    requires waiters != [] && waiters[0].target <= through && ReachedFirst(waiters[1..], through, n)
    ensures ReachedFirst(waiters, through, n + 1)
  {
    forall i | 0 <= i < n + 1 ensures waiters[i].target <= through {
      if i > 0 { assert waiters[i] == waiters[1..][i - 1]; }
    }
  }

  lemma {:induction false} ReleaseAnswersTheReached(w: Worker) returns (n: nat)
    ensures ReachedFirst(w.waiters, FlushedThrough(w.index), n)
    ensures Release(w) == w.(waiters := w.waiters[n..], acks := w.acks + AnswerAll(w.waiters[..n], !w.index.failure))
    decreases |w.waiters|
  {
    if w.waiters == [] || FlushedThrough(w.index) < w.waiters[0].target {
      n := 0;
    } else {
      var ok := !w.index.failure;
      var one := w.(waiters := w.waiters[1..], acks := w.acks + [Answer(w.waiters[0], ok)]);
      var m := ReleaseAnswersTheReached(one);
      n := m + 1;
      ReachedOneMore(w.waiters, FlushedThrough(w.index), m);
      AnswerFirst(w.waiters, n, ok);
      assert Release(w) == Release(one);
    }
  }

  // ---------------------------------------------------------------------------------------
  // Every answer of every run.
  // ---------------------------------------------------------------------------------------

  /** Step `f` is the `Flush` command numbered `flush`. */
  ghost predicate CommandAt(run: seq<Worker>, steps: seq<Step>, f: nat, flush: nat)
  {
    f < |steps| && f < |run| && steps[f].Flush? && run[f].flushes == flush
  }

  /** The tombstones of the `Flush` at step `f` were synced, if the index has files. */
  predicate Synced(persistent: bool, steps: seq<Step>, f: nat)
  {
    persistent ==> f < |steps| && steps[f].Flush? && steps[f].syncOk
  }

  /** Ok exactly if the command's tombstones were synced and no write failed up to the answer. */
  ghost predicate Told(persistent: bool, run: seq<Worker>, steps: seq<Step>, ack: Ack, f: nat, m: nat)
  {
    && m < |steps| && CommandAt(run, steps, f, ack.flush)
    && (ack.ok <==> Synced(persistent, steps, f) && !SomeWriteFails(steps, m + 1))
  }

  /** The waiting flush is that of an earlier command with its tombstones synced. */
  ghost predicate Accepted(persistent: bool, run: seq<Worker>, steps: seq<Step>, k: nat, flush: nat)
  {
    exists f :: 0 <= f < k && CommandAt(run, steps, f, flush) && Synced(persistent, steps, f)
  }

  ghost predicate AllAccepted(persistent: bool, run: seq<Worker>, steps: seq<Step>, k: nat, waiters: seq<Waiter>)
  {
    forall i :: 0 <= i < |waiters| ==> Accepted(persistent, run, steps, k, waiters[i].flush)
  }

  /** Acknowledgement `ack`, sent by step `m`, tells the outcome of its command. */
  ghost predicate ToldAt(persistent: bool, run: seq<Worker>, steps: seq<Step>, ack: Ack, m: nat)
  {
    exists f :: 0 <= f <= m && Told(persistent, run, steps, ack, f, m)
  }

  /** All those from the `from`th on were sent by step `m`. */
  ghost predicate ToldFrom(persistent: bool, run: seq<Worker>, steps: seq<Step>, acks: seq<Ack>, from: nat, m: nat)
  {
    forall i :: from <= i < |acks| ==> ToldAt(persistent, run, steps, acks[i], m)
  }

  lemma AnswersAreTold(persistent: bool, run: seq<Worker>, steps: seq<Step>, m: nat, waiters: seq<Waiter>, ok: bool)
    requires m < |steps| && AllAccepted(persistent, run, steps, m + 1, waiters) && ok == !SomeWriteFails(steps, m + 1)
    ensures ToldFrom(persistent, run, steps, AnswerAll(waiters, ok), 0, m)
  {
    forall i | 0 <= i < |waiters| ensures ToldAt(persistent, run, steps, AnswerAll(waiters, ok)[i], m) {
      assert Accepted(persistent, run, steps, m + 1, waiters[i].flush);
      var f :| 0 <= f < m + 1 && CommandAt(run, steps, f, waiters[i].flush) && Synced(persistent, steps, f);
      assert Told(persistent, run, steps, Answer(waiters[i], ok), f, m);
    }
  }

  lemma ToldBehind(persistent: bool, run: seq<Worker>, steps: seq<Step>, m: nat, acks: seq<Ack>, more: seq<Ack>)
    requires ToldFrom(persistent, run, steps, more, 0, m)
    ensures ToldFrom(persistent, run, steps, acks + more, |acks|, m)
  {
    forall i | |acks| <= i < |acks + more| ensures ToldAt(persistent, run, steps, (acks + more)[i], m) {
      assert (acks + more)[i] == more[i - |acks|];
    }
  }

  lemma ReleaseTells(persistent: bool, run: seq<Worker>, steps: seq<Step>, m: nat, w: Worker)
    requires m < |steps| && AllAccepted(persistent, run, steps, m + 1, w.waiters)
    requires w.index.failure <==> SomeWriteFails(steps, m + 1)
    ensures StepTells(persistent, run, steps, m, w, Release(w))
  {
    var n := ReleaseAnswersTheReached(w);
    var ok, first, rest := !w.index.failure, w.waiters[..n], w.waiters[n..];
    assert forall i :: 0 <= i < |rest| ==> rest[i] == w.waiters[n + i];
    AnswersAreTold(persistent, run, steps, m, first, ok);
    ToldBehind(persistent, run, steps, m, w.acks, AnswerAll(first, ok));
  }

  lemma AcceptedLater(persistent: bool, run: seq<Worker>, steps: seq<Step>, m: nat, waiters: seq<Waiter>)
    requires AllAccepted(persistent, run, steps, m, waiters)
    ensures AllAccepted(persistent, run, steps, m + 1, waiters)
  {
    forall i | 0 <= i < |waiters| ensures Accepted(persistent, run, steps, m + 1, waiters[i].flush) {
      assert Accepted(persistent, run, steps, m, waiters[i].flush);
    }
  }

  /** What step `m` leaves waiting and what it answers. */
  ghost predicate StepTells(persistent: bool, run: seq<Worker>, steps: seq<Step>, m: nat, w: Worker, t: Worker)
  {
    && AllAccepted(persistent, run, steps, m + 1, t.waiters)
    && |w.acks| <= |t.acks| && t.acks[..|w.acks|] == w.acks
    && ToldFrom(persistent, run, steps, t.acks, |w.acks|, m)
  }

  lemma FlushTells(persistent: bool, run: seq<Worker>, steps: seq<Step>, m: nat, w: Worker, keep: nat, syncOk: bool)
    requires m < |steps| && AllAccepted(persistent, run, steps, m + 1, w.waiters) && w.index.persistent == persistent
    requires w.index.failure <==> SomeWriteFails(steps, m + 1)
    requires steps[m] == Flush(keep, syncOk) && CommandAt(run, steps, m, w.flushes) && keep <= |w.index.generations|
    ensures StepTells(persistent, run, steps, m, w, HandleFlush(w, keep, syncOk))
  {
    if Refused(w, keep, syncOk) {
      assert Told(persistent, run, steps, Ack(w.flushes, false, w.added), m, m);
      assert ToldAt(persistent, run, steps, Ack(w.flushes, false, w.added), m);
    } else {
      var waiting := Waiting(w, keep, syncOk);
      assert Accepted(persistent, run, steps, m + 1, w.flushes);
      assert AllAccepted(persistent, run, steps, m + 1, waiting.waiters);
      ReleaseTells(persistent, run, steps, m, waiting);
    }
  }

  lemma DoTells(persistent: bool, run: seq<Worker>, steps: seq<Step>, m: nat, w: Worker)
    requires m < |steps| && WInv(w) && CanStep(w, steps[m])
    requires AllAccepted(persistent, run, steps, m, w.waiters) && w.index.persistent == persistent
    requires w.index.failure <==> SomeWriteFails(steps, m)
    requires Do(w, steps[m]).index.failure <==> SomeWriteFails(steps, m + 1)
    requires steps[m].Flush? ==> CommandAt(run, steps, m, w.flushes)
    ensures StepTells(persistent, run, steps, m, w, Do(w, steps[m]))
  {
    AcceptedLater(persistent, run, steps, m, w.waiters);
    match steps[m]
    case Flush(keep, syncOk) => FlushTells(persistent, run, steps, m, w, keep, syncOk);
    case SegmentWritten(writeOk, manifestOk) =>
      var written := Written(w, writeOk, manifestOk);
      ReleaseKeepsIndex(written);
      ReleaseTells(persistent, run, steps, m, written);
    case _ =>
  }

  lemma {:induction false} StaysOfItsKind(persistent: bool, run: seq<Worker>, steps: seq<Step>, k: nat)
    requires IsWorkerRun(run, steps) && run[0] == Start(persistent) && k < |run|
    ensures run[k].index.persistent == persistent
  {
    if k > 0 {
      StaysOfItsKind(persistent, run, steps, k - 1);
      RunKeepsWInv(persistent, run, steps, k - 1);
      assert Steps(run[k - 1], steps[k - 1], run[k]);
      DoKeepsKind(run[k - 1], steps[k - 1]);
    }
  }

  lemma RunStepTells(persistent: bool, run: seq<Worker>, steps: seq<Step>, m: nat)
    requires IsWorkerRun(run, steps) && run[0] == Start(persistent) && m < |steps|
    requires AllAccepted(persistent, run, steps, m, run[m].waiters)
    ensures StepTells(persistent, run, steps, m, run[m], run[m + 1])
  {
    RunKeepsWInv(persistent, run, steps, m);
    StaysOfItsKind(persistent, run, steps, m);
    FailureMeansAFailedWrite(persistent, run, steps, m);
    FailureMeansAFailedWrite(persistent, run, steps, m + 1);
    assert Steps(run[m], steps[m], run[m + 1]);
    DoTells(persistent, run, steps, m, run[m]);
  }

  lemma {:induction false} WaitersAreAccepted(persistent: bool, run: seq<Worker>, steps: seq<Step>, k: nat)
    requires IsWorkerRun(run, steps) && run[0] == Start(persistent) && k < |run|
    ensures AllAccepted(persistent, run, steps, k, run[k].waiters)
  {
    if k > 0 {
      WaitersAreAccepted(persistent, run, steps, k - 1);
      RunStepTells(persistent, run, steps, k - 1);
    }
  }

  lemma ToldMeans(persistent: bool, run: seq<Worker>, steps: seq<Step>, ack: Ack, f: nat, m: nat)
    requires Told(persistent, run, steps, ack, f, m)
    ensures ack.ok <==>
              && (persistent ==> steps[f].syncOk)
              && forall s :: 0 <= s <= m && steps[s].SegmentWritten? ==> steps[s].writeOk && steps[s].manifestOk
  {
    assert SomeWriteFails(steps, m + 1) <==> exists s :: 0 <= s <= m && WriteFails(steps[s]);
  }

  /** Step `m` answers flushes that waited or arrive, each as its command deserves. */
  lemma AnsweredBy(persistent: bool, run: seq<Worker>, steps: seq<Step>, m: nat)
    requires IsWorkerRun(run, steps) && run[0] == Start(persistent) && m < |steps|
    ensures |run[m].acks| <= |run[m + 1].acks| && run[m + 1].acks[..|run[m].acks|] == run[m].acks
    ensures ToldFrom(persistent, run, steps, run[m + 1].acks, |run[m].acks|, m)
  {
    WaitersAreAccepted(persistent, run, steps, m);
    RunStepTells(persistent, run, steps, m);
  }

  /** Every acknowledgement of every run belongs to a `Flush` command `f` and was sent by a step `m`. It is Ok
      exactly if the tombstones of that command were synced and no segment or manifest write among the steps
      up to `m` failed. */
  lemma {:induction false} AnswerTellsTheOutcome(persistent: bool, run: seq<Worker>, steps: seq<Step>, k: nat, i: nat)
    returns (f: nat, m: nat)
    requires IsWorkerRun(run, steps) && run[0] == Start(persistent) && k < |run| && i < |run[k].acks|
    ensures f <= m < k && steps[f].Flush? && run[f].flushes == run[k].acks[i].flush
    ensures |run[m].acks| <= i < |run[m + 1].acks|
    ensures run[k].acks[i].ok <==>
              && (persistent ==> steps[f].syncOk)
              && forall s :: 0 <= s <= m && steps[s].SegmentWritten? ==> steps[s].writeOk && steps[s].manifestOk
  {
    AnsweredBy(persistent, run, steps, k - 1);
    var before := run[k - 1].acks;
    if i < |before| {
      assert run[k].acks[i] == run[k].acks[..|before|][i];
      f, m := AnswerTellsTheOutcome(persistent, run, steps, k - 1, i);
    } else {
      m := k - 1;
      assert ToldAt(persistent, run, steps, run[k].acks[i], m);
      f :| 0 <= f <= m && Told(persistent, run, steps, run[k].acks[i], f, m);
      ToldMeans(persistent, run, steps, run[k].acks[i], f, m);
    }
  }

  /** As long as no write and no sync fails, every `Flush` is answered Ok. */
  lemma HealthyFlushesSucceed(persistent: bool, run: seq<Worker>, steps: seq<Step>, k: nat, i: nat)
    requires IsWorkerRun(run, steps) && run[0] == Start(persistent) && k < |run| && i < |run[k].acks|
    requires forall s :: 0 <= s < k ==> match steps[s]
               case SegmentWritten(writeOk, manifestOk) => writeOk && manifestOk
               case Flush(_, syncOk) => syncOk
               case _ => true
    ensures run[k].acks[i].ok
  {
    var f, m := AnswerTellsTheOutcome(persistent, run, steps, k, i);
  }
}
