// Writing the term banks (write_terms, src/importer.cpp): one after the other, or by the workers and the
// writer of the bounded pipeline. Whatever the interleaving, the file is that of the banks in order.
module BankWriting {
  import opened Options
  import opened Bytes
  import opened Records
  import opened TermBank
  import opened TermWriter
  import opened TermStore
  import Pipeline

  lemma IdentifiedRest(c: Codec, a: seq<Term>, b: seq<Term>)
    requires Identified(c, a + b)
    ensures Identified(c, b)
  {
    forall i, j | 0 <= i < |b| && 0 <= j < |b| && c.hash(b[i].glossary) == c.hash(b[j].glossary)
      ensures b[i].glossary == b[j].glossary
    {
      assert (a + b)[|a| + i] == b[i] && (a + b)[|a| + j] == b[j];
    }
  }

  lemma {:induction false} BankIdentified(c: Codec, banks: seq<seq<Term>>, i: nat, n: nat)
    requires i < n <= |banks| && Identified(c, Rows(banks[..n]))
    ensures Identified(c, banks[i])
    decreases n
  {
    assert banks[..n][..n - 1] == banks[..n - 1];
    if i == n - 1 {
      IdentifiedRest(c, Rows(banks[..n - 1]), banks[n - 1]);
    } else {
      IdentifiedPart(c, Rows(banks[..n - 1]), banks[n - 1]);
      BankIdentified(c, banks, i, n - 1);
    }
  }

  lemma {:induction false} WriteStep(c: Codec, banks: seq<seq<Term>>, n: nat)
    requires n < |banks|
    ensures WriteAll(c, banks[..n + 1]) == Written(c, WriteAll(c, banks[..n]), banks[n])
  {
    hide Written;
    assert banks[..n + 1][..n] == banks[..n];
  }

  // Every bank processed and written, in file order (write_terms where there is no pool of workers: a window
  // of futures, taken in order).
  method WriteBanks(c: Codec, banks: seq<seq<Term>>) returns (writer: Writer)
    requires Identified(c, Rows(banks))
    ensures fresh(writer) && writer.Valid() && writer.Contents() == WriteAll(c, banks)
  {
    hide IsBank, Identified, Written;
    writer := new Writer();
    assert banks[..0] == [] && banks[..|banks|] == banks;
    for i := 0 to |banks|
      invariant fresh(writer) && writer.Valid() && writer.Contents() == WriteAll(c, banks[..i])
    {
      BankIdentified(c, banks, i, |banks|);
      WriteStep(c, banks, i);
      var bank := ProcessTermBank(c, banks[i]);
      writer.WriteProcessed(c, bank, banks[i]);
    }
  }

  // ---- The pipeline, with the banks it carries

  // `processed` of write_terms holds the bank of each task that is processed and not yet taken, and the
  // writer has in hand the bank it is about to write.
  ghost predicate Carries(c: Codec, banks: seq<seq<Term>>, s: Pipeline.State, processed: seq<Option<Bank>>,
                          inHand: Option<Bank>) {
    && |processed| == |s.processed| == |banks|
    && (forall i :: 0 <= i < |banks| ==> processed[i].Some? == s.processed[i])
    && (forall i :: 0 <= i < |banks| && processed[i].Some? ==> IsBank(c, banks[i], processed[i].value))
    && (s.writer.Writing? ==>
          inHand.Some? && s.writer.bank < |banks| && IsBank(c, banks[s.writer.bank], inHand.value))
  }

  lemma CarriesNothing(c: Codec, banks: seq<seq<Term>>, config: Pipeline.Config)
    requires |config.sizes| == |banks|
    ensures Carries(c, banks, Pipeline.Initial(config), seq(|banks|, _ => None), None)
  {
  }

  // A worker's bank is stored.
  lemma CarriesFinished(c: Codec, banks: seq<seq<Term>>, config: Pipeline.Config, s: Pipeline.State, w: nat,
                        processed: seq<Option<Bank>>, inHand: Option<Bank>, bank: Bank)
    requires Carries(c, banks, s, processed, inHand) && |config.sizes| == |banks|
    requires Pipeline.Enabled(config, s, Pipeline.Finish(w)) && Pipeline.Fits(config, s)
    requires IsBank(c, banks[s.workers[w].bank], bank)
    ensures Carries(c, banks, Pipeline.Do(config, s, Pipeline.Finish(w)),
                    processed[s.workers[w].bank := Some(bank)], inHand)
  {
    hide IsBank;
  }

  // The writer takes the bank it waited for.
  predicate Takes(config: Pipeline.Config, s: Pipeline.State) {
    s.writer.WaitingFor? && s.writer.bank < |config.sizes| && Pipeline.WriterReady(s, s.writer.bank) && !s.workerError
  }

  lemma CarriesTaken(c: Codec, banks: seq<seq<Term>>, config: Pipeline.Config, s: Pipeline.State,
                     processed: seq<Option<Bank>>, inHand: Option<Bank>)
    requires Carries(c, banks, s, processed, inHand) && |config.sizes| == |banks|
    requires Pipeline.Fits(config, s) && Takes(config, s)
    ensures Carries(c, banks, Pipeline.Do(config, s, Pipeline.WriterCheck),
                    processed[s.writer.bank := None], processed[s.writer.bank])
  {
    hide IsBank;
  }

  // The other steps carry nothing.
  lemma CarriesOn(c: Codec, banks: seq<seq<Term>>, config: Pipeline.Config, s: Pipeline.State, step: Pipeline.Step,
                  processed: seq<Option<Bank>>, inHand: Option<Bank>)
    requires Carries(c, banks, s, processed, inHand) && |config.sizes| == |banks|
    requires Pipeline.Enabled(config, s, step) && Pipeline.Fits(config, s)
    requires !step.Finish? && !(step == Pipeline.WriterCheck && Takes(config, s))
    ensures Carries(c, banks, Pipeline.Do(config, s, step), processed, inHand)
  {
    hide IsBank;
  }

  // What the steps do to the list of banks written.
  lemma LogMoves(config: Pipeline.Config, s: Pipeline.State, step: Pipeline.Step)
    requires Pipeline.GoodConfig(config) && Pipeline.Inv(config, s) && Pipeline.Enabled(config, s, step)
    requires Pipeline.Fits(config, s)
    ensures |Pipeline.Do(config, s, step).log| == |s.log| + if step == Pipeline.Write then 1 else 0
    ensures |s.log| <= |config.sizes|
    ensures step == Pipeline.Write ==> s.writer.bank == |s.log| < |config.sizes|
  {
  }

  lemma RunStands(config: Pipeline.Config, states: seq<Pipeline.State>, steps: seq<Pipeline.Step>, k: nat)
    requires Pipeline.GoodConfig(config) && Pipeline.Run(config, states, steps) && k <= |steps|
    ensures Pipeline.Inv(config, states[k])
    ensures k < |steps| ==> Pipeline.Follows(config, states[k], steps[k], states[k + 1])
  {
    assert Pipeline.Run(config, states[..k + 1], steps[..k]);
    Pipeline.RunKeepsInv(config, states[..k + 1], steps[..k]);
    assert states[..k + 1][k] == states[k];
  }

  // Why the indices of a step are in range.
  lemma InRange(c: Codec, banks: seq<seq<Term>>, config: Pipeline.Config, s: Pipeline.State, step: Pipeline.Step,
                processed: seq<Option<Bank>>, inHand: Option<Bank>)
    requires Carries(c, banks, s, processed, inHand) && |config.sizes| == |banks|
    requires Pipeline.Enabled(config, s, step) && Pipeline.Fits(config, s)
    ensures |processed| == |banks|
    ensures step.Finish? ==>
              step.w < |s.workers| && s.workers[step.w].Working? && s.workers[step.w].bank < |banks|
    ensures Takes(config, s) ==> s.writer.WaitingFor? && s.writer.bank < |banks|
    ensures step == Pipeline.Write ==>
              && s.writer.Writing? && s.writer.bank < |banks| && inHand.Some?
              && IsBank(c, banks[s.writer.bank], inHand.value)
  {
    hide IsBank;
  }

  // What a thread does in one step.
  method CarryOn(c: Codec, banks: seq<seq<Term>>, config: Pipeline.Config, s: Pipeline.State, step: Pipeline.Step,
                 writer: Writer, processed: seq<Option<Bank>>, inHand: Option<Bank>)
    returns (processed': seq<Option<Bank>>, inHand': Option<Bank>)
    requires Pipeline.GoodConfig(config) && |config.sizes| == |banks| && Identified(c, Rows(banks))
    requires Pipeline.Inv(config, s) && Pipeline.Enabled(config, s, step) && Pipeline.Fits(config, s)
    requires Carries(c, banks, s, processed, inHand) && writer.Valid()
    requires |s.log| <= |banks| && writer.Contents() == WriteAll(c, banks[..|s.log|])
    modifies writer
    ensures Carries(c, banks, Pipeline.Do(config, s, step), processed', inHand') && writer.Valid()
    ensures var log := Pipeline.Do(config, s, step).log;
            |log| <= |banks| && writer.Contents() == WriteAll(c, banks[..|log|])
  {
    hide *;
    InRange(c, banks, config, s, step, processed, inHand);
    LogMoves(config, s, step);
    processed', inHand' := processed, inHand;
    if step.Finish? {
      var i := s.workers[step.w].bank;
      assert banks[..|banks|] == banks;
      BankIdentified(c, banks, i, |banks|);
      var bank := ProcessTermBank(c, banks[i]);
      CarriesFinished(c, banks, config, s, step.w, processed, inHand, bank);
      processed' := processed[i := Some(bank)];
    } else if step == Pipeline.WriterCheck && Takes(config, s) {
      CarriesTaken(c, banks, config, s, processed, inHand);
      processed', inHand' := processed[s.writer.bank := None], processed[s.writer.bank];
    } else {
      CarriesOn(c, banks, config, s, step, processed, inHand);
      if step == Pipeline.Write {
        WriteStep(c, banks, s.writer.bank);
        writer.WriteProcessed(c, inHand.value, banks[s.writer.bank]);
      }
    }
  }

  lemma {:induction false} RunStarts(c: Codec, banks: seq<seq<Term>>, config: Pipeline.Config,
                                     states: seq<Pipeline.State>, steps: seq<Pipeline.Step>)
    requires Pipeline.Run(config, states, steps) && |config.sizes| == |banks|
    ensures |states| == |steps| + 1 && states[0] == Pipeline.Initial(config) && |states[0].log| == 0
    ensures Carries(c, banks, states[0], seq(|banks|, _ => None), None)
    ensures WriteAll(c, banks[..0]) == Store([], [], map[], [], [])
  {
    CarriesNothing(c, banks, config);
    hide Pipeline.Follows, Carries;
    assert banks[..0] == [];
  }

  lemma GoesOn(config: Pipeline.Config, s: Pipeline.State, step: Pipeline.Step, next: Pipeline.State)
    requires Pipeline.Follows(config, s, step, next)
    ensures Pipeline.Enabled(config, s, step) && Pipeline.Fits(config, s) && next == Pipeline.Do(config, s, step)
  {
  }

  lemma AllLogged(config: Pipeline.Config, states: seq<Pipeline.State>, steps: seq<Pipeline.Step>)
    requires Pipeline.GoodConfig(config) && Pipeline.Run(config, states, steps)
    ensures states[|steps|].writer == Pipeline.Finished(true) ==> |states[|steps|].log| == |config.sizes|
  {
    Pipeline.RunsAreSafe(config, states, steps);
    hide Pipeline.Run;
  }

  // The threads' work along a run of the protocol, in whatever order its steps come: the workers process
  // banks, the writer takes and writes them. As long as the writer has not failed the file is that of the
  // first banks, and a run that ends well has written them all.
  method RunPipeline(c: Codec, banks: seq<seq<Term>>, config: Pipeline.Config, steps: seq<Pipeline.Step>,
                     ghost states: seq<Pipeline.State>)
    returns (writer: Writer)
    requires Pipeline.GoodConfig(config) && |config.sizes| == |banks| && Pipeline.Run(config, states, steps)
    requires Identified(c, Rows(banks))
    ensures fresh(writer) && writer.Valid()
    ensures var last := states[|steps|];
            && (Pipeline.InLoop(last.writer) ==>
                  |last.log| <= |banks| && writer.Contents() == WriteAll(c, banks[..|last.log|]))
            && (last.writer == Pipeline.Finished(true) ==> writer.Contents() == WriteAll(c, banks))
  {
    hide *;
    RunStarts(c, banks, config, states, steps);
    writer := new Writer();
    var s, processed, inHand := Pipeline.Initial(config), seq(|banks|, _ => None), None;
    for k := 0 to |steps|
      invariant fresh(writer) && writer.Valid() && s == states[k] && Carries(c, banks, s, processed, inHand)
      invariant |s.log| <= |banks| && writer.Contents() == WriteAll(c, banks[..|s.log|])
    {
      RunStands(config, states, steps, k);
      GoesOn(config, s, steps[k], states[k + 1]);
      processed, inHand := CarryOn(c, banks, config, s, steps[k], writer, processed, inHand);
      s := Pipeline.Do(config, s, steps[k]);
    }
    AllLogged(config, states, steps);
    assert banks[..|banks|] == banks;
  }

  // ---- Either way

  // How the banks come to be written: in turn, or by a pool of workers in some interleaving.
  datatype Schedule = InTurn | Pooled(config: Pipeline.Config, steps: seq<Pipeline.Step>)

  // The import ends, and no bank threw.
  ghost predicate Completes(how: Schedule, banks: seq<seq<Term>>) {
    match how
    case InTurn => true
    case Pooled(config, steps) =>
      banks != [] ==>
        && Pipeline.GoodConfig(config) && |config.sizes| == |banks|
        && (forall k :: 0 <= k < |steps| ==> !Pipeline.Throws(steps[k]))
        && exists states: seq<Pipeline.State> :: Pipeline.Run(config, states, steps) && states[|steps|].writer.Finished?
  }

  lemma RunOf(how: Schedule, banks: seq<seq<Term>>) returns (states: seq<Pipeline.State>)
    requires Completes(how, banks) && how.Pooled? && banks != []
    ensures Pipeline.GoodConfig(how.config) && |how.config.sizes| == |banks|
    ensures Pipeline.Run(how.config, states, how.steps) && |states| == |how.steps| + 1
    ensures states[|how.steps|].writer == Pipeline.Finished(true)
  {
    states :| Pipeline.Run(how.config, states, how.steps) && states[|how.steps|].writer.Finished?;
    Pipeline.SucceedsExactly(how.config, states, how.steps);
  }

  // write_terms
  method WriteTermBanks(c: Codec, banks: seq<seq<Term>>, how: Schedule) returns (writer: Writer)
    requires Completes(how, banks) && Identified(c, Rows(banks))
    ensures fresh(writer) && writer.Valid() && writer.Contents() == WriteAll(c, banks)
  {
    hide Pipeline.Run, Pipeline.GoodConfig, Completes, Identified, Rows, Written;
    if how.InTurn? {
      writer := WriteBanks(c, banks);
    } else if banks == [] {
      writer := new Writer();
    } else {
      ghost var states := RunOf(how, banks);
      writer := RunPipeline(c, banks, how.config, how.steps, states);
    }
  }
}
