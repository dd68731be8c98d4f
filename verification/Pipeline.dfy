// The bounded pipeline of write_terms (src/importer.cpp): workers claim term banks in order and
// process them; the writer writes them in file order. One mutex guards the shared variables, so each
// locked section is a step; one condition variable wakes everybody.
module Pipeline {
  import opened Arithmetic

  // A waiting thread re-checks its condition (Checking), or found it false and sleeps until a
  // notification; a thread that changed something notifies after it left the lock.
  datatype Worker = Checking | Asleep | Working(bank: nat) | Notifying | NotifyingError | Exited

  datatype Writer =
    | WaitingFor(bank: nat)
    | SleepingFor(bank: nat)
    | Writing(bank: nat)
    | Wrote(bank: nat)
    | NotifyingOf(bank: nat)
    | Failing
    | NotifyingFailure
    | Joining(ok: bool)
    | Finished(ok: bool)

  datatype Config = Config(sizes: seq<nat>, workers: nat, maxTasksAhead: nat, maxBytesAhead: nat)

  ghost predicate GoodConfig(c: Config) { |c.sizes| > 0 && c.workers > 0 && c.maxTasksAhead > 0 }

  datatype State = State(
    nextTask: nat, nextToWrite: nat, bytesAhead: nat, processed: seq<bool>, failed: bool, workerError: bool,
    workers: seq<Worker>, writer: Writer,
    log: seq<nat>)  // the banks written, in the order they were written

  function Min(a: nat, b: nat): nat { if a <= b then a else b }

  // can_claim_task
  predicate CanClaim(c: Config, s: State) {
    && s.nextTask < |c.sizes|
    && s.nextTask < s.nextToWrite + c.maxTasksAhead
    && (s.bytesAhead == 0 || c.sizes[s.nextTask] <= c.maxBytesAhead - Min(s.bytesAhead, c.maxBytesAhead))
  }

  // What a worker waits for.
  predicate WorkerReady(c: Config, s: State) {
    s.failed || s.nextTask >= |c.sizes| || CanClaim(c, s)
  }

  // What the writer waits for.
  predicate WriterReady(s: State, bank: nat) {
    s.workerError || (bank < |s.processed| && s.processed[bank])
  }

  // notify_all
  function Wake(s: State): State {
    s.(workers := seq(|s.workers|, w requires 0 <= w < |s.workers| =>
                        if s.workers[w] == Asleep then Checking else s.workers[w]),
       writer := if s.writer.SleepingFor? then WaitingFor(s.writer.bank) else s.writer)
  }

  datatype Step =
    | Check(w: nat)         // a worker claims a task, leaves, or goes to sleep
    | Finish(w: nat)        // a worker stores its bank
    | Fail(w: nat)          // a worker's bank throws
    | Notify(w: nat)
    | WriterCheck           // the writer takes its bank, stops on a worker's error, or goes to sleep
    | Write | WriteThrows
    | Advance               // the writer publishes its progress
    | WriterNotify
    | Abort                 // the writer's catch block
    | Join
    | WakeWorker(w: nat)    // a wait ends without a notification, as condition variables allow
    | WakeWriter

  predicate Spurious(step: Step) { step.WakeWorker? || step.WakeWriter? }

  predicate Enabled(c: Config, s: State, step: Step) {
    match step
    case Check(w) => w < |s.workers| && s.workers[w] == Checking
    case Finish(w) => w < |s.workers| && s.workers[w].Working?
    case Fail(w) => w < |s.workers| && s.workers[w].Working?
    case Notify(w) => w < |s.workers| && (s.workers[w] == Notifying || s.workers[w] == NotifyingError)
    case WriterCheck => s.writer.WaitingFor?
    case Write => s.writer.Writing?
    case WriteThrows => s.writer.Writing?
    case Advance => s.writer.Wrote?
    case WriterNotify => s.writer.NotifyingOf? || s.writer == NotifyingFailure
    case Abort => s.writer == Failing
    case Join => s.writer.Joining? && forall w :: 0 <= w < |s.workers| ==> s.workers[w] == Exited
    case WakeWorker(w) => w < |s.workers| && s.workers[w] == Asleep
    case WakeWriter => s.writer.SleepingFor?
  }

  function Become(s: State, w: nat, pc: Worker): State
    requires w < |s.workers|
  {
    s.(workers := s.workers[w := pc])
  }

  // The indices a step uses are in range, and what it takes off a count is in it.
  predicate Fits(c: Config, s: State) {
    && |s.processed| == |c.sizes|
    && (forall w :: 0 <= w < |s.workers| && s.workers[w].Working? ==> s.workers[w].bank < |c.sizes|)
    && (s.writer.WaitingFor? ==> s.writer.bank <= |c.sizes|)
    && (s.writer.Wrote? ==> s.writer.bank < |c.sizes| && c.sizes[s.writer.bank] <= s.bytesAhead)
  }

  function Do(c: Config, s: State, step: Step): State
    requires Enabled(c, s, step) && Fits(c, s)
  {
    match step
    case Check(w) =>
      if !WorkerReady(c, s) then Become(s, w, Asleep)
      else if s.failed || s.nextTask >= |c.sizes| then Become(s, w, Exited)
      else Become(s, w, Working(s.nextTask)).(nextTask := s.nextTask + 1,
                                              bytesAhead := s.bytesAhead + c.sizes[s.nextTask])
    case Finish(w) => Become(s, w, Notifying).(processed := s.processed[s.workers[w].bank := true])
    case Fail(w) => Become(s, w, NotifyingError).(workerError := true, failed := true)
    case Notify(w) => Wake(Become(s, w, if s.workers[w] == Notifying then Checking else Exited))
    case WriterCheck =>
      var bank := s.writer.bank;
      if bank == |c.sizes| then s.(writer := Joining(true))
      else if !WriterReady(s, bank) then s.(writer := SleepingFor(bank))
      else if s.workerError then s.(writer := Failing)
      else s.(writer := Writing(bank), processed := s.processed[bank := false])
    case Write => s.(writer := Wrote(s.writer.bank), log := s.log + [s.writer.bank])
    case WriteThrows => s.(writer := Failing)
    case Advance =>
      s.(writer := NotifyingOf(s.writer.bank), nextToWrite := s.writer.bank + 1,
         bytesAhead := s.bytesAhead - c.sizes[s.writer.bank])
    case WriterNotify =>
      Wake(s.(writer := if s.writer == NotifyingFailure then Joining(false) else WaitingFor(s.writer.bank + 1)))
    case Abort => s.(writer := NotifyingFailure, failed := true)
    case Join => s.(writer := Finished(s.writer.ok))
    case WakeWorker(w) => Become(s, w, Checking)
    case WakeWriter => s.(writer := WaitingFor(s.writer.bank))
  }

  function Initial(c: Config): State {
    State(0, 0, 0, seq(|c.sizes|, _ => false), false, false, seq(c.workers, _ => Checking), WaitingFor(0), [])
  }

  // ---- What every step keeps

  function Sum(sizes: seq<nat>, lo: nat, hi: nat): nat
    requires lo <= hi <= |sizes|
  {
    if lo == hi then 0 else Sum(sizes, lo, hi - 1) + sizes[hi - 1]
  }

  function Biggest(sizes: seq<nat>): (r: nat)
    ensures forall i :: 0 <= i < |sizes| ==> sizes[i] <= r
  {
    if sizes == [] then 0
    else
      var rest := Biggest(sizes[..|sizes| - 1]);
      if sizes[|sizes| - 1] > rest then sizes[|sizes| - 1] else rest
  }

  function UpTo(n: nat): (r: seq<nat>)
    ensures |r| == n && forall i :: 0 <= i < n ==> r[i] == i
  {
    seq(n, i => i)
  }

  // The bank the writer is at: everything before it is written and published.
  function AtBank(w: Writer): nat
    requires !w.Failing? && !w.NotifyingFailure? && !w.Joining? && !w.Finished?
  {
    if w.NotifyingOf? then w.bank + 1 else w.bank
  }

  predicate InLoop(w: Writer) { !w.Failing? && !w.NotifyingFailure? && !w.Joining? && !w.Finished? }

  // The writer is between a bank's removal from `processed` and its publication.
  predicate Busy(w: Writer) { w.Writing? || w.Wrote? }

  ghost predicate Writes(c: Config, s: State) {
    && (InLoop(s.writer) ==>
          && AtBank(s.writer) == s.nextToWrite
          && (s.writer.Writing? || s.writer.Wrote? || s.writer.SleepingFor? ==> s.nextToWrite < |c.sizes|))
    && s.log == UpTo(s.nextToWrite + if s.writer.Wrote? then 1 else 0)
    && (s.writer == Joining(true) || s.writer == Finished(true) ==> s.nextToWrite == |c.sizes|)
  }

  ghost predicate Claims(c: Config, s: State) {
    && s.nextToWrite <= s.nextTask <= |c.sizes| && |s.processed| == |c.sizes| && |s.workers| == c.workers
    && s.nextTask <= s.nextToWrite + c.maxTasksAhead
    && s.bytesAhead == Sum(c.sizes, s.nextToWrite, s.nextTask)
    && (s.bytesAhead <= c.maxBytesAhead || s.bytesAhead <= Biggest(c.sizes))
    && (Busy(s.writer) ==> s.nextToWrite < s.nextTask)
  }

  // No bank is in two places: being processed, processed, or being written; nor with two workers.
  ghost predicate HandsApart(s: State) {
    forall w :: 0 <= w < |s.workers| && s.workers[w].Working? ==>
      && s.nextToWrite <= s.workers[w].bank < s.nextTask <= |s.processed|
      && !s.processed[s.workers[w].bank]
      && !(Busy(s.writer) && s.workers[w].bank == s.nextToWrite)
  }

  ghost predicate DistinctHands(s: State) {
    forall v, w :: 0 <= v < w < |s.workers| && s.workers[v].Working? && s.workers[w].Working? ==>
      s.workers[v].bank != s.workers[w].bank
  }

  ghost predicate ShelfApart(s: State) {
    forall i :: 0 <= i < |s.processed| && s.processed[i] ==>
      s.nextToWrite <= i < s.nextTask && !(Busy(s.writer) && i == s.nextToWrite)
  }

  ghost predicate Banks(s: State) { HandsApart(s) && DistinctHands(s) && ShelfApart(s) }

  ghost predicate HeldByWorker(s: State, i: nat) {
    exists w :: 0 <= w < |s.workers| && s.workers[w] == Working(i)
  }

  // A claimed bank that is neither processed nor being written.
  predicate InHands(s: State, i: nat) {
    && s.nextToWrite <= i < s.nextTask <= |s.processed| && !s.processed[i]
    && !(Busy(s.writer) && i == s.nextToWrite) && InLoop(s.writer) && !s.workerError
  }

  // No claimed bank is lost: short of an error, what is not there yet is in some worker's hands.
  ghost predicate Held(s: State) {
    forall i :: InHands(s, i) ==> HeldByWorker(s, i)
  }

  // The bank whose worker threw: claimed, not there, and in nobody's hands.
  ghost predicate LostAt(s: State, i: nat) {
    && s.nextToWrite <= i < s.nextTask <= |s.processed| && !s.processed[i]
    && !(Busy(s.writer) && i == s.nextToWrite) && !HeldByWorker(s, i)
  }

  // After a worker's error there stays such a bank, so the writer never comes past it.
  ghost predicate Lost(s: State) {
    s.workerError ==> exists i :: LostAt(s, i)
  }

  ghost predicate Errors(c: Config, s: State) {
    && (s.failed ==> s.workerError || s.writer == NotifyingFailure || s.writer.Joining? || s.writer.Finished?)
    && (s.workerError ==> s.failed)
    && (s.writer == NotifyingFailure || s.writer == Joining(false) || s.writer == Finished(false) ==> s.failed)
    && (forall w :: 0 <= w < |s.workers| && s.workers[w] == Exited ==> s.failed || s.nextTask == |c.sizes|)
    && (forall w :: 0 <= w < |s.workers| && s.workers[w] == NotifyingError ==> s.failed)
  }

  // Somebody will notify before falling asleep or leaving.
  predicate WillNotify(w: Worker) { w.Working? || w == Notifying || w == NotifyingError }
  predicate WriterWillNotify(w: Writer) {
    w.Writing? || w.Wrote? || w.NotifyingOf? || w == Failing || w == NotifyingFailure
  }

  ghost predicate AnyAsleep(s: State) { exists w :: 0 <= w < |s.workers| && s.workers[w] == Asleep }
  ghost predicate AnyWillNotify(s: State) {
    WriterWillNotify(s.writer) || exists w :: 0 <= w < |s.workers| && WillNotify(s.workers[w])
  }
  ghost predicate AnyNotifying(s: State) {
    exists w :: 0 <= w < |s.workers| && (s.workers[w] == Notifying || s.workers[w] == NotifyingError)
  }

  // No wake-up is lost: a sleeper whose condition holds will be notified.
  ghost predicate Wakeups(c: Config, s: State) {
    && (AnyAsleep(s) && WorkerReady(c, s) ==> AnyWillNotify(s))
    && (s.writer.SleepingFor? && WriterReady(s, s.writer.bank) ==> AnyNotifying(s))
  }

  ghost predicate Inv(c: Config, s: State) {
    Claims(c, s) && Writes(c, s) && Banks(s) && Held(s) && Lost(s) && Errors(c, s) && Wakeups(c, s)
  }

  lemma InitialInv(c: Config)
    requires GoodConfig(c)
    ensures Inv(c, Initial(c))
  {
    assert Initial(c).log == UpTo(0);
  }

  lemma CanDo(c: Config, s: State)
    requires Inv(c, s)
    ensures Fits(c, s)
  {
    if s.writer.Wrote? { SumSplits(c.sizes, s.nextToWrite, s.nextTask); }
  }

  lemma {:induction false} SumSplits(sizes: seq<nat>, lo: nat, hi: nat)
    requires lo < hi <= |sizes|
    ensures Sum(sizes, lo, hi) == sizes[lo] + Sum(sizes, lo + 1, hi)
  {
    if lo + 1 < hi { SumSplits(sizes, lo, hi - 1); }
  }

  ghost function Next(c: Config, s: State, step: Step): State
    requires Inv(c, s) && Enabled(c, s, step)
  {
    CanDo(c, s);
    Do(c, s, step)
  }

  lemma KeepsWrites(c: Config, s: State, step: Step)
    requires GoodConfig(c) && Inv(c, s) && Enabled(c, s, step)
    ensures Writes(c, Next(c, s, step))
  {
    if step == Write { assert s.log + [s.nextToWrite] == UpTo(s.nextToWrite + 1); }
  }

  predicate WriterMoves(step: Step) {
    !(step.Check? || step.Finish? || step.Fail? || step.Notify? || step.WakeWorker?)
  }

  lemma KeepsClaims(c: Config, s: State, step: Step)
    requires GoodConfig(c) && Inv(c, s) && Enabled(c, s, step)
    ensures Claims(c, Next(c, s, step))
  {
    hide *;
    if WriterMoves(step) { WriterKeepsClaims(c, s, step); } else { WorkerKeepsClaims(c, s, step); }
  }

  lemma WorkerKeepsClaims(c: Config, s: State, step: Step)
    requires GoodConfig(c) && Inv(c, s) && Enabled(c, s, step) && !WriterMoves(step)
    ensures Claims(c, Next(c, s, step))
  {
    CanDo(c, s);
    hide Held, Lost, Wakeups, Errors, UpTo, HandsApart, DistinctHands, ShelfApart, Writes;
    if step.Check? && s.nextTask < |c.sizes| { assert c.sizes[s.nextTask] <= Biggest(c.sizes); }
  }

  lemma WriterKeepsClaims(c: Config, s: State, step: Step)
    requires GoodConfig(c) && Inv(c, s) && Enabled(c, s, step) && WriterMoves(step)
    ensures Claims(c, Next(c, s, step))
  {
    hide Held, Lost, Wakeups, Errors, UpTo, HandsApart, DistinctHands;
    if step == Advance { SumSplits(c.sizes, s.nextToWrite, s.nextTask); }
  }

  lemma KeepsHands(c: Config, s: State, step: Step)
    requires GoodConfig(c) && Inv(c, s) && Enabled(c, s, step)
    ensures HandsApart(Next(c, s, step))
  {
    hide Held, Lost, Wakeups, Errors, UpTo, Sum, Biggest, HandsApart;
    if WriterMoves(step) { WriterKeepsHands(c, s, step); } else { WorkerKeepsHands(c, s, step); }
  }

  lemma WorkerKeepsHands(c: Config, s: State, step: Step)
    requires GoodConfig(c) && Inv(c, s) && Enabled(c, s, step) && !WriterMoves(step)
    ensures HandsApart(Next(c, s, step))
  {
    hide Held, Lost, Wakeups, Errors, UpTo, Sum, Biggest, Writes;
  }

  lemma WriterKeepsHands(c: Config, s: State, step: Step)
    requires GoodConfig(c) && Inv(c, s) && Enabled(c, s, step) && WriterMoves(step)
    ensures HandsApart(Next(c, s, step))
  {
    hide Held, Lost, Wakeups, Errors, UpTo, Sum, Biggest;
  }

  lemma KeepsDistinct(c: Config, s: State, step: Step)
    requires GoodConfig(c) && Inv(c, s) && Enabled(c, s, step)
    ensures DistinctHands(Next(c, s, step))
  {
    hide Held, Lost, Wakeups, Errors, UpTo, Sum, Biggest;
  }

  lemma KeepsShelf(c: Config, s: State, step: Step)
    requires GoodConfig(c) && Inv(c, s) && Enabled(c, s, step)
    ensures ShelfApart(Next(c, s, step))
  {
    hide Held, Lost, Wakeups, Errors, UpTo, Sum, Biggest;
  }

  lemma KeepsHeld(c: Config, s: State, step: Step)
    requires GoodConfig(c) && Inv(c, s) && Enabled(c, s, step)
    ensures Held(Next(c, s, step))
  {
    hide Lost, Wakeups, Errors, UpTo, Sum;
    var s' := Next(c, s, step);
    forall i | InHands(s', i) ensures HeldByWorker(s', i) {
      if step.Check? && i == s.nextTask {
        assert s'.workers[step.w] == Working(i);
      } else {
        assert InHands(s, i) && HeldByWorker(s, i);
        var v :| 0 <= v < |s.workers| && s.workers[v] == Working(i);
        assert s'.workers[v] == Working(i);
      }
    }
  }

  // A worker that throws leaves its bank in nobody's hands.
  lemma FailLoses(c: Config, s: State, w: nat)
    requires Inv(c, s) && w < |s.workers| && s.workers[w].Working?
    ensures Enabled(c, s, Fail(w)) && LostAt(Next(c, s, Fail(w)), s.workers[w].bank)
  {
    hide Held, Lost, Wakeups, Errors, UpTo, Sum, Biggest, ShelfApart, Writes, Claims;
    var s' := Next(c, s, Fail(w));
    assert forall v :: 0 <= v < |s'.workers| ==> s'.workers[v] != Working(s.workers[w].bank);
  }

  // Nobody takes up a bank that is lost.
  lemma LostStays(c: Config, s: State, step: Step, i: nat)
    requires GoodConfig(c) && Inv(c, s) && Enabled(c, s, step) && s.workerError && LostAt(s, i)
    ensures LostAt(Next(c, s, step), i)
  {
    KeepsClaims(c, s, step);
    hide Held, Lost, Wakeups, Errors, UpTo, Sum, Biggest, ShelfApart, HandsApart, DistinctHands;
    var s' := Next(c, s, step);
    assert forall v :: 0 <= v < |s.workers| ==> s.workers[v] != Working(i);
    assert forall v :: 0 <= v < |s'.workers| ==> s'.workers[v] != Working(i);
  }

  lemma KeepsLost(c: Config, s: State, step: Step)
    requires GoodConfig(c) && Inv(c, s) && Enabled(c, s, step)
    ensures Lost(Next(c, s, step))
  {
    hide LostAt, Claims, Writes, Banks, Held, Errors, Wakeups;
    if step.Fail? {
      FailLoses(c, s, step.w);
    } else if s.workerError {
      var i :| LostAt(s, i);
      LostStays(c, s, step, i);
    } else {
      assert !Next(c, s, step).workerError;
    }
  }

  lemma KeepsErrors(c: Config, s: State, step: Step)
    requires GoodConfig(c) && Inv(c, s) && Enabled(c, s, step)
    ensures Errors(c, Next(c, s, step))
  {
    hide Held, Lost, Wakeups, UpTo, Sum, Banks;
  }

  lemma KeepsWorkerWakeups(c: Config, s: State, step: Step)
    requires GoodConfig(c) && Inv(c, s) && Enabled(c, s, step)
    requires AnyAsleep(Next(c, s, step)) && WorkerReady(c, Next(c, s, step))
    ensures AnyWillNotify(Next(c, s, step))
  {
    hide *;
    if WriterMoves(step) { WriterKeepsWorkerWakeups(c, s, step); } else { WorkerKeepsWorkerWakeups(c, s, step); }
  }

  lemma WorkerKeepsWorkerWakeups(c: Config, s: State, step: Step)
    requires GoodConfig(c) && Inv(c, s) && Enabled(c, s, step) && !WriterMoves(step)
    requires AnyAsleep(Next(c, s, step)) && WorkerReady(c, Next(c, s, step))
    ensures AnyWillNotify(Next(c, s, step))
  {
    hide Held, Lost, UpTo, Sum, Banks, Writes;
    var s' := Next(c, s, step);
    match step
    case Check(w) =>
      if s'.workers[w] == Asleep {
        assert false;
      } else if s'.workers[w].Working? {
        assert WillNotify(s'.workers[w]);
      } else {
        var a :| 0 <= a < |s'.workers| && s'.workers[a] == Asleep;
        assert s.workers[a] == Asleep;
        if !WriterWillNotify(s.writer) {
          var v :| 0 <= v < |s.workers| && WillNotify(s.workers[v]);
          assert WillNotify(s'.workers[v]);
        }
      }
    case Finish(w) => assert WillNotify(s'.workers[w]);
    case Fail(w) => assert WillNotify(s'.workers[w]);
    case Notify(_) => assert false;
    case WakeWorker(w) =>
      assert AnyAsleep(s) && WorkerReady(c, s);
      if !WriterWillNotify(s.writer) {
        var v :| 0 <= v < |s.workers| && WillNotify(s.workers[v]);
        assert WillNotify(s'.workers[v]);
      }
  }

  lemma WriterKeepsWorkerWakeups(c: Config, s: State, step: Step)
    requires GoodConfig(c) && Inv(c, s) && Enabled(c, s, step) && WriterMoves(step)
    requires AnyAsleep(Next(c, s, step)) && WorkerReady(c, Next(c, s, step))
    ensures AnyWillNotify(Next(c, s, step))
  {
    hide Held, Lost, UpTo, Sum, Banks;
    var s' := Next(c, s, step);
    match step
    case WriterNotify => assert false;
    case WriterCheck =>
      assert AnyAsleep(s);
      var v :| 0 <= v < |s.workers| && WillNotify(s.workers[v]);
      assert WillNotify(s'.workers[v]);
    case Join => case Write => case WriteThrows => case Advance => case Abort => case WakeWriter =>
  }

  lemma KeepsWriterWakeups(c: Config, s: State, step: Step)
    requires GoodConfig(c) && Inv(c, s) && Enabled(c, s, step)
    requires var s' := Next(c, s, step); s'.writer.SleepingFor? && WriterReady(s', s'.writer.bank)
    ensures AnyNotifying(Next(c, s, step))
  {
    hide Held, Lost, UpTo, Sum, Banks;
    var s' := Next(c, s, step);
    match step
    case Check(w) =>
      assert AnyNotifying(s);
      var v :| 0 <= v < |s.workers| && (s.workers[v] == Notifying || s.workers[v] == NotifyingError);
      assert s'.workers[v] == s.workers[v];
    case Finish(w) => assert s'.workers[w] == Notifying;
    case Fail(w) => assert s'.workers[w] == NotifyingError;
    case Notify(_) => assert false;
    case WriterCheck => assert false;
    case WakeWorker(w) =>
      assert AnyNotifying(s);
      var v :| 0 <= v < |s.workers| && (s.workers[v] == Notifying || s.workers[v] == NotifyingError);
      assert s'.workers[v] == s.workers[v];
    case WriterNotify => case Join => case Write => case WriteThrows => case Advance => case Abort =>
    case WakeWriter =>
  }

  // Every step of every thread keeps the invariant.
  lemma StepKeepsInv(c: Config, s: State, step: Step)
    requires GoodConfig(c) && Inv(c, s) && Enabled(c, s, step)
    ensures Inv(c, Next(c, s, step))
  {
    KeepsClaims(c, s, step);
    KeepsWrites(c, s, step);
    KeepsHands(c, s, step);
    KeepsDistinct(c, s, step);
    KeepsShelf(c, s, step);
    KeepsHeld(c, s, step);
    KeepsLost(c, s, step);
    KeepsErrors(c, s, step);
    hide Enabled, Claims, Writes, HandsApart, DistinctHands, ShelfApart, Held, Lost, Errors, Do;
    if AnyAsleep(Next(c, s, step)) && WorkerReady(c, Next(c, s, step)) { KeepsWorkerWakeups(c, s, step); }
    if Next(c, s, step).writer.SleepingFor? && WriterReady(Next(c, s, step), Next(c, s, step).writer.bank) {
      KeepsWriterWakeups(c, s, step);
    }
  }

  // ---- Progress

  // While the writer sleeps, some worker is awake.
  lemma SleepingWriterIsServed(c: Config, s: State) returns (w: nat)
    requires GoodConfig(c) && Inv(c, s) && s.writer.SleepingFor?
    ensures w < |s.workers| && (s.workers[w] == Checking || WillNotify(s.workers[w]))
  {
    if WriterReady(s, s.writer.bank) {
      w :| 0 <= w < |s.workers| && (s.workers[w] == Notifying || s.workers[w] == NotifyingError);
    } else if s.nextToWrite < s.nextTask {
      assert InHands(s, s.nextToWrite) && HeldByWorker(s, s.nextToWrite);
      w :| 0 <= w < |s.workers| && s.workers[w] == Working(s.nextToWrite);
    } else {
      assert s.bytesAhead == 0 && CanClaim(c, s) && !s.failed;
      w := 0;
      if s.workers[0] == Asleep {
        assert AnyAsleep(s) && AnyWillNotify(s);
        w :| 0 <= w < |s.workers| && WillNotify(s.workers[w]);
      }
    }
  }

  // While the writer joins the workers, a sleeping worker is woken by another.
  lemma SleepingWorkerIsServed(c: Config, s: State, a: nat) returns (w: nat)
    requires GoodConfig(c) && Inv(c, s) && s.writer.Joining? && a < |s.workers| && s.workers[a] == Asleep
    ensures w < |s.workers| && WillNotify(s.workers[w])
  {
    assert AnyAsleep(s) && WorkerReady(c, s);
    w :| 0 <= w < |s.workers| && WillNotify(s.workers[w]);
  }

  function MoveOf(w: nat, pc: Worker): (r: Step)
    requires pc != Asleep && pc != Exited
    ensures !Spurious(r)
  {
    if pc == Checking then Check(w) else if pc.Working? then Finish(w) else Notify(w)
  }

  // Some thread can move, until the writer has joined every worker.
  lemma SomethingCanMove(c: Config, s: State) returns (step: Step)
    requires GoodConfig(c) && Inv(c, s) && !s.writer.Finished?
    ensures Enabled(c, s, step) && !Spurious(step)
  {
    hide Claims, Writes, Banks, Held, Lost, Errors, Wakeups;
    match s.writer
    case WaitingFor(_) => return WriterCheck;
    case Writing(_) => return Write;
    case Wrote(_) => return Advance;
    case NotifyingOf(_) => return WriterNotify;
    case Failing => return Abort;
    case NotifyingFailure => return WriterNotify;
    case SleepingFor(bank) =>
      var w := SleepingWriterIsServed(c, s);
      return MoveOf(w, s.workers[w]);
    case Joining(ok) =>
      if forall w :: 0 <= w < |s.workers| ==> s.workers[w] == Exited { return Join; }
      var w :| 0 <= w < |s.workers| && s.workers[w] != Exited;
      if s.workers[w] == Asleep {
        var v := SleepingWorkerIsServed(c, s, w);
        return MoveOf(v, s.workers[v]);
      }
      return MoveOf(w, s.workers[w]);
  }

  // ---- Every run is finite

  function WorkerWeight(w: Worker): nat {
    match w
    case Checking => 1 case Asleep => 1 case Working(_) => 3
    case Notifying => 2 case NotifyingError => 2 case Exited => 0
  }

  function WorkersWeight(ws: seq<Worker>): nat {
    if ws == [] then 0 else WorkersWeight(ws[..|ws| - 1]) + WorkerWeight(ws[|ws| - 1])
  }

  function Awake(ws: seq<Worker>): nat {
    if ws == [] then 0 else Awake(ws[..|ws| - 1]) + if ws[|ws| - 1] == Checking then 1 else 0
  }

  function WriterWeight(banks: nat, w: Writer): int {
    match w
    case WaitingFor(i) => 5 * (banks - i) + 4
    case SleepingFor(i) => 5 * (banks - i) + 4
    case Writing(i) => 5 * (banks - i) + 3
    case Wrote(i) => 5 * (banks - i) + 2
    case NotifyingOf(i) => 5 * (banks - i)
    case Failing => 3
    case NotifyingFailure => 2
    case Joining(_) => 1
    case Finished(_) => 0
  }

  // What is left to do: tasks to claim, then what the threads have before them.
  ghost function Left(c: Config, s: State): (n: int)
    requires Claims(c, s)
  {
    3 * (|c.sizes| - s.nextTask) + WorkersWeight(s.workers) + WriterWeight(|c.sizes|, s.writer)
  }

  ghost function Waiting(s: State): nat {
    Awake(s.workers) + if s.writer.WaitingFor? then 1 else 0
  }

  lemma {:induction false} WeightOfUpdate(ws: seq<Worker>, w: nat, pc: Worker)
    requires w < |ws|
    ensures WorkersWeight(ws[w := pc]) == WorkersWeight(ws) - WorkerWeight(ws[w]) + WorkerWeight(pc)
    ensures Awake(ws[w := pc]) ==
            Awake(ws) - (if ws[w] == Checking then 1 else 0) + (if pc == Checking then 1 else 0)
  {
    var n := |ws| - 1;
    if w < n {
      assert ws[w := pc][..n] == ws[..n][w := pc];
      WeightOfUpdate(ws[..n], w, pc);
    } else {
      assert ws[w := pc][..n] == ws[..n];
    }
  }

  lemma {:induction false} WeightOfWake(ws: seq<Worker>, ws': seq<Worker>)
    requires |ws'| == |ws|
    requires forall w :: 0 <= w < |ws| ==> ws'[w] == if ws[w] == Asleep then Checking else ws[w]
    ensures WorkersWeight(ws') == WorkersWeight(ws)
  {
    if ws != [] { WeightOfWake(ws[..|ws| - 1], ws'[..|ws| - 1]); }
  }

  lemma WorkerStepsRunOut(c: Config, s: State, step: Step)
    requires GoodConfig(c) && Inv(c, s) && Enabled(c, s, step) && Inv(c, Next(c, s, step))
    requires step.Check? || step.Finish? || step.Fail? || step.Notify?
    ensures var s' := Next(c, s, step);
            Left(c, s') < Left(c, s) || (Left(c, s') == Left(c, s) && Waiting(s') < Waiting(s))
  {
    hide Banks, Held, Lost, Wakeups, Errors, Writes, UpTo, Sum, WorkersWeight, Awake, Biggest;
    var s' := Next(c, s, step);
    match step
    case Check(w) => WeightOfUpdate(s.workers, w, s'.workers[w]);
    case Finish(w) => WeightOfUpdate(s.workers, w, Notifying);
    case Fail(w) => WeightOfUpdate(s.workers, w, NotifyingError);
    case Notify(w) =>
      var pc := if s.workers[w] == Notifying then Checking else Exited;
      WeightOfUpdate(s.workers, w, pc);
      WeightOfWake(s.workers[w := pc], s'.workers);
  }

  lemma WriterStepsRunOut(c: Config, s: State, step: Step)
    requires GoodConfig(c) && Inv(c, s) && Enabled(c, s, step) && Inv(c, Next(c, s, step))
    requires !(step.Check? || step.Finish? || step.Fail? || step.Notify? || Spurious(step))
    ensures var s' := Next(c, s, step);
            Left(c, s') < Left(c, s) || (Left(c, s') == Left(c, s) && Waiting(s') < Waiting(s))
  {
    hide Banks, Held, Lost, Wakeups, Errors, UpTo, Sum, WorkersWeight, Awake, Biggest;
    var s' := Next(c, s, step);
    if step == WriterNotify { WeightOfWake(s.workers, s'.workers); }
  }

  // A wait that ends without a notification leaves as much to do, and one more thread awake.
  lemma WakingUp(c: Config, s: State, step: Step)
    requires GoodConfig(c) && Inv(c, s) && Enabled(c, s, step) && Inv(c, Next(c, s, step)) && Spurious(step)
    ensures Measure(c, Next(c, s, step)) == Measure(c, s) + 1
  {
    hide Banks, Held, Lost, Wakeups, Errors, Writes, UpTo, Sum, WorkersWeight, Awake, Biggest;
    if step.WakeWorker? { WeightOfUpdate(s.workers, step.w, Checking); }
  }

  // One number that every step makes smaller, but for such an end of a wait.
  ghost function Measure(c: Config, s: State): int
    requires Claims(c, s)
  {
    Left(c, s) * (c.workers + 2) + Waiting(s)
  }

  lemma {:induction false} AwakeAtMost(ws: seq<Worker>)
    ensures Awake(ws) <= |ws|
  {
    if ws != [] { AwakeAtMost(ws[..|ws| - 1]); }
  }

  lemma StepsRunOut(c: Config, s: State, step: Step)
    requires GoodConfig(c) && Inv(c, s) && Enabled(c, s, step) && Inv(c, Next(c, s, step)) && !Spurious(step)
    ensures Measure(c, Next(c, s, step)) < Measure(c, s)
  {
    hide Banks, Held, Lost, Wakeups, Errors, Writes, Left, Do;
    var s' := Next(c, s, step);
    if step.Check? || step.Finish? || step.Fail? || step.Notify? {
      WorkerStepsRunOut(c, s, step);
    } else {
      WriterStepsRunOut(c, s, step);
    }
    AwakeAtMost(s'.workers);
    var a, a', width := Left(c, s), Left(c, s'), c.workers + 2;
    if a' < a {
      TimesGrows(width, a' + 1, a);
      assert (a' + 1) * width == a' * width + width;
    }
  }

  // ---- Runs

  // A run: each state follows from the one before by a step of some thread.
  ghost predicate Run(c: Config, states: seq<State>, steps: seq<Step>) {
    && |states| == |steps| + 1 && states[0] == Initial(c)
    && forall k :: 0 <= k < |steps| ==> Follows(c, states[k], steps[k], states[k + 1])
  }

  ghost predicate Follows(c: Config, s: State, step: Step, s': State) {
    Enabled(c, s, step) && Fits(c, s) && s' == Do(c, s, step)
  }

  // The waits that ended without a notification.
  function SpuriousIn(steps: seq<Step>): (n: nat)
    ensures n <= |steps|
  {
    if steps == [] then 0 else SpuriousIn(steps[..|steps| - 1]) + if Spurious(steps[|steps| - 1]) then 1 else 0
  }

  lemma {:induction false} RunKeepsInv(c: Config, states: seq<State>, steps: seq<Step>)
    requires GoodConfig(c) && Run(c, states, steps)
    ensures var last := states[|steps|];
            Inv(c, last) && Measure(c, last) + |steps| <= Measure(c, Initial(c)) + 2 * SpuriousIn(steps)
  {
    var n := |steps| - 1;
    if n < 0 {
      InitialInv(c);
    } else {
      assert Run(c, states[..n + 1], steps[..n]);
      RunKeepsInv(c, states[..n + 1], steps[..n]);
      assert states[..n + 1][n] == states[n];
      assert Follows(c, states[n], steps[n], states[n + 1]);
      StepKeepsInv(c, states[n], steps[n]);
      hide Inv, Do, Enabled, Measure;
      if Spurious(steps[n]) { WakingUp(c, states[n], steps[n]); } else { StepsRunOut(c, states[n], steps[n]); }
    }
  }

  // What a run may rely on, whatever the threads' interleaving.
  lemma RunsAreSafe(c: Config, states: seq<State>, steps: seq<Step>)
    requires GoodConfig(c) && Run(c, states, steps)
    ensures var s := states[|steps|];
            // banks are written once each, in file order
            && |s.log| <= |c.sizes| && s.log == UpTo(|s.log|)
            && (s.writer == Finished(true) ==> s.log == UpTo(|c.sizes|))
            // the bytes outstanding are those of the claimed banks not yet written, within the limit
            && s.nextToWrite <= s.nextTask <= |c.sizes|
            && s.bytesAhead == Sum(c.sizes, s.nextToWrite, s.nextTask)
            && (s.bytesAhead <= c.maxBytesAhead || s.bytesAhead <= Biggest(c.sizes))
            // and so are the banks
            && s.nextTask - s.nextToWrite <= c.maxTasksAhead
            // a failed import says so, and after a worker's error no import succeeds
            && (s.writer == Finished(false) ==> s.failed)
            && (s.workerError ==> s.writer != Finished(true))
  {
    RunKeepsInv(c, states, steps);
  }

  // No run deadlocks: it goes on, without waiting for a wait to end by itself, until the writer is finished.
  lemma RunsGoOn(c: Config, states: seq<State>, steps: seq<Step>) returns (step: Step, next: State)
    requires GoodConfig(c) && Run(c, states, steps) && !states[|steps|].writer.Finished?
    ensures !Spurious(step) && Follows(c, states[|steps|], step, next)
    ensures Run(c, states + [next], steps + [step])
  {
    RunKeepsInv(c, states, steps);
    var last := states[|steps|];
    CanDo(c, last);
    hide Inv, Enabled, Do, Fits;
    step := SomethingCanMove(c, last);
    next := Do(c, last, step);
    assert Follows(c, last, step, next);
    hide *;
  }

  // And no run goes on forever: its length is bounded by the banks, the workers, and how often a wait
  // ends without a notification.
  lemma {:induction false} RunsEnd(c: Config, states: seq<State>, steps: seq<Step>)
    requires GoodConfig(c) && Run(c, states, steps)
    ensures |steps| <= (8 * |c.sizes| + c.workers + 4) * (c.workers + 2) + c.workers + 1 + 2 * SpuriousIn(steps)
  {
    RunKeepsInv(c, states, steps);
    InitialMeasure(c);
    hide Measure;
    WeightIsPositive(c, states[|steps|]);
  }

  lemma InitialMeasure(c: Config)
    requires GoodConfig(c)
    ensures Inv(c, Initial(c))
    ensures Measure(c, Initial(c)) <= (8 * |c.sizes| + c.workers + 4) * (c.workers + 2) + c.workers + 1
  {
    var first := Initial(c);
    InitialInv(c);
    InitialWeight(first.workers);
    AwakeAtMost(first.workers);
    assert Left(c, first) == 3 * |c.sizes| + c.workers + 5 * |c.sizes| + 4;
  }

  lemma {:induction false} InitialWeight(ws: seq<Worker>)
    requires forall w :: 0 <= w < |ws| ==> ws[w] == Checking
    ensures WorkersWeight(ws) == |ws|
  {
    if ws != [] { InitialWeight(ws[..|ws| - 1]); }
  }

  lemma WeightIsPositive(c: Config, s: State)
    requires GoodConfig(c) && Inv(c, s)
    ensures Measure(c, s) >= 0
  {
    assert Left(c, s) >= 0;
    TimesGrows(c.workers + 2, 0, Left(c, s));
  }

  // ---- When an import succeeds

  // A bank that throws, in a worker's hands or in the writer's.
  predicate Throws(step: Step) { step.Fail? || step == WriteThrows }

  // An error is on its way to the caller.
  predicate Broken(s: State) {
    || s.workerError || s.writer == Failing || s.writer == NotifyingFailure || s.writer == Joining(false)
    || s.writer == Finished(false)
  }

  lemma BreaksByThrowing(c: Config, s: State, step: Step)
    requires Enabled(c, s, step) && Fits(c, s)
    ensures Broken(Do(c, s, step)) <==> Broken(s) || Throws(step)
  {
  }

  lemma {:induction false} BrokenByThrowing(c: Config, states: seq<State>, steps: seq<Step>)
    requires Run(c, states, steps)
    ensures Broken(states[|steps|]) <==> exists k :: 0 <= k < |steps| && Throws(steps[k])
  {
    var n := |steps| - 1;
    if n >= 0 {
      assert Run(c, states[..n + 1], steps[..n]);
      BrokenByThrowing(c, states[..n + 1], steps[..n]);
      assert Follows(c, states[n], steps[n], states[n + 1]);
      BreaksByThrowing(c, states[n], steps[n]);
      hide Do, Enabled, Fits, Broken, Throws;
      assert states[..n + 1][n] == states[n];
      if k :| 0 <= k < n && Throws(steps[..n][k]) { assert Throws(steps[k]); }
      if k :| 0 <= k < |steps| && Throws(steps[k]) {
        if k < n { assert Throws(steps[..n][k]); }
      }
    }
  }

  // A finished import has succeeded exactly when no bank threw.
  lemma SucceedsExactly(c: Config, states: seq<State>, steps: seq<Step>)
    requires GoodConfig(c) && Run(c, states, steps) && states[|steps|].writer.Finished?
    ensures states[|steps|].writer == Finished(true) <==> forall k :: 0 <= k < |steps| ==> !Throws(steps[k])
  {
    BrokenByThrowing(c, states, steps);
    RunsAreSafe(c, states, steps);
    hide Run, Throws;
  }
}
