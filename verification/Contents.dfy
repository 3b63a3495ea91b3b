// What the stages of a job put into its payload, what a message that is not
// sent leaves behind, and what the next one carries.
module Contents {
  import opened Prelude
  import opened Platform
  import opened Checkpoints
  import opened FlashblockLimits
  import opened Schedule
  import opened Flashblocks
  import opened Pipeline
  import opened JobLemmas
  import opened RunLemmas

  // --- What is built ------------------------------------------------------

  // A job starts from what the prologue put into its payload, with nothing
  // sent, the time already spent, and a base that describes its block.
  lemma StartHolds(block: BlockContext, prologue: seq<Draft>, lead: Duration)
    ensures var start := StartJob(block, prologue, lead);
            && Transactions(start.history) == Drafted(prologue)
            && start.elapsed == lead && start.published == [] && start.publishedAt == [] && start.entries == []
            && start.base.Some? && start.base.value.Describes(block)
  {
    RewriteContributes(BASELINE, prologue);
    assert BASELINE[..1] == BASELINE;
    assert Transactions(BASELINE) == [];
    BaseDescribes(block);
  }

  lemma AppendContributes(h: History, tx: Transaction)
    ensures Transactions(Append(h, [tx])) == Transactions(h) + [tx]
    ensures LastBarrier(Append(h, [tx])) == LastBarrier(h)
  {
    TransactionsNext(h, Checkpoint(Context(h), false, [tx]));
    assert Append(h, [tx])[..|h|] == h;
  }

  lemma PublishContributesNothing(block: BlockContext, job: Job, outcome: Outcome)
    ensures var after := AfterPublish(block, job, outcome);
            Transactions(after.history) == Transactions(job.history) && after.elapsed == job.elapsed
  {
    if outcome == Sent {
      TransactionsNext(job.history, Checkpoint(Context(job.history).Next(), true, []));
    }
  }

  // What one step makes of the payload: a building step replaces what follows
  // the last barrier by its own transactions, the epilogue adds one, and
  // entering a flashblock or letting time pass changes nothing.
  lemma StepContents(block: BlockContext, job: Job, event: Event)
    ensures var job' := Step(block, job, event);
            match event
            case Enter => job'.history == job.history && job'.elapsed == job.elapsed
            case Elapse(time) => job'.history == job.history && job'.elapsed == job.elapsed + time
            case Rebuild(drafts) =>
              && Transactions(job'.history)
                 == Transactions(job.history[..LastBarrier(job.history) + 1]) + Drafted(drafts)
              && job'.elapsed == job.elapsed
            case Epilogue(tx) =>
              && Transactions(job'.history) == Transactions(job.history) + [tx]
              && LastBarrier(job'.history) == LastBarrier(job.history)
              && job'.elapsed == job.elapsed
            case Publish(_) => Transactions(job'.history) == Transactions(job.history) && job'.elapsed == job.elapsed
  {
    match event {
      case Enter =>
      case Elapse(_) =>
      case Rebuild(drafts) => RewriteContributes(job.history, drafts);
      case Epilogue(tx) => AppendContributes(job.history, tx);
      case Publish(outcome) => PublishContributesNothing(block, job, outcome);
    }
  }

  lemma NoBarrierAdded(h: History, drafts: seq<Draft>)
    requires forall i :: 0 <= i < |drafts| ==> !drafts[i].barrier
    ensures LastBarrier(Rewrite(h, drafts)) == LastBarrier(h)
    ensures Rewrite(h, drafts)[..LastBarrier(h) + 1] == h[..LastBarrier(h) + 1]
  {
    var h', k := Rewrite(h, drafts), LastBarrier(h);
    assert forall j :: k < j < |h'| ==> h'[j] == Stamp(h[k].context, drafts)[j - k - 1];
    assert h'[k] == h[k];
  }

  ghost predicate WithoutBarriers(rounds: seq<seq<Draft>>) {
    forall r, i :: 0 <= r < |rounds| && 0 <= i < |rounds[r]| ==> !rounds[r][i].barrier
  }

  lemma {:induction false} RoundsKeepBarrier(job: Job, rounds: seq<seq<Draft>>)
    requires WithoutBarriers(rounds)
    ensures var h := BuildRounds(job, rounds).history;
            && LastBarrier(h) == LastBarrier(job.history)
            && h[..LastBarrier(job.history) + 1] == job.history[..LastBarrier(job.history) + 1]
  {
    if rounds != [] {
      RoundsKeepBarrier(job, rounds[..|rounds| - 1]);
      NoBarrierAdded(BuildRounds(job, rounds[..|rounds| - 1]).history, rounds[|rounds| - 1]);
    }
  }

  // What the publish step finds after the rounds of a pass: the last round's
  // transactions on top of what was behind the last barrier, and then the
  // epilogue's if a signer is configured.
  lemma PassContents(job: Job, pass: Iteration)
    requires WithoutBarriers(pass.rounds)
    ensures Transactions(Ready(job, pass).history)
            == (if pass.rounds == [] then Transactions(job.history)
                else Transactions(job.history[..LastBarrier(job.history) + 1])
                     + Drafted(pass.rounds[|pass.rounds| - 1]))
               + (if pass.epilogue.Some? then [pass.epilogue.value] else [])
  {
    RoundsContents(Entered(job), pass.rounds);
    BuiltHistory(job, pass);
    if pass.epilogue.Some? {
      AppendContributes(Built(job, pass).history, pass.epilogue.value);
    }
  }

  lemma BuiltHistory(job: Job, pass: Iteration)
    ensures Built(job, pass).history == BuildRounds(Entered(job), pass.rounds).history
    ensures Entered(job).history == job.history
  {
  }

  lemma RoundsContents(job: Job, rounds: seq<seq<Draft>>)
    requires WithoutBarriers(rounds)
    ensures Transactions(BuildRounds(job, rounds).history)
            == if rounds == [] then Transactions(job.history)
               else Transactions(job.history[..LastBarrier(job.history) + 1]) + Drafted(rounds[|rounds| - 1])
  {
    if rounds != [] {
      var earlier, last := rounds[..|rounds| - 1], rounds[|rounds| - 1];
      assert rounds == earlier + [last];
      LastRound(job, earlier, last);
      RoundsKeepBarrier(job, earlier);
      RewriteContributes(BuildRounds(job, earlier).history, last);
    }
  }

  lemma LastRound(job: Job, earlier: seq<seq<Draft>>, last: seq<Draft>)
    ensures BuildRounds(job, earlier + [last]).history == Rewrite(BuildRounds(job, earlier).history, last)
  {
    assert (earlier + [last])[..|earlier|] == earlier;
  }

  // --- What is not sent ---------------------------------------------------

  // A refused message, like a failed seal, leaves the payload, the record of
  // what was sent and the clock as they were.
  lemma UnsentKeepsPayload(block: BlockContext, job: Job, outcome: Outcome)
    requires outcome != Sent
    ensures var after := AfterPublish(block, job, outcome);
            && after.history == job.history && after.elapsed == job.elapsed && after.entries == job.entries
            && after.published == job.published && after.publishedAt == job.publishedAt
            && after.base == (if outcome == SealFailed then job.base else None)
  {
  }

  // Steps that neither build nor send.
  ghost predicate Idle(event: Event) {
    event.Enter? || event.Elapse? || (event.Publish? && event.outcome != Sent)
  }

  lemma IdleStep(block: BlockContext, job: Job, event: Event)
    requires Idle(event)
    ensures var job' := Step(block, job, event);
            && job'.history == job.history
            && job'.published == job.published && job'.publishedAt == job.publishedAt
            && job'.base == (if event.Publish? && event.outcome != SealFailed then None else job.base)
  {
  }

  lemma {:induction false} IdleKeeps(block: BlockContext, job: Job, idle: seq<Event>)
    requires forall i :: 0 <= i < |idle| ==> Idle(idle[i])
    ensures var late := Steps(block, job, idle);
            && late.history == job.history
            && late.published == job.published && late.publishedAt == job.publishedAt
            && late.base == (if Attempts(idle) == [] then job.base else None)
  {
    if idle != [] {
      IdleKeeps(block, job, idle[..|idle| - 1]);
      IdleStep(block, Steps(block, job, idle[..|idle| - 1]), idle[|idle| - 1]);
    }
  }

  // What a flashblock carries that is sent with a payload.
  ghost predicate Carries(f: Flashblock, payload: History, block: BlockContext) {
    && f.transactions == Transactions(payload[OpenFrom(payload)..])
    && f.block.transactions == Transactions(payload)
    && f.index + 1 == Context(payload).current
    && f.payloadId == block.payloadId && f.blockNumber == block.number
  }

  // However often a message is refused, and whatever time passes: the next one
  // that is sent without building in between carries exactly what the refused
  // ones did, and no base if any was refused.
  lemma RefusedIsSentNext(block: BlockContext, job: Job, idle: seq<Event>)
    requires forall i :: 0 <= i < |idle| ==> Idle(idle[i])
    ensures var late := Steps(block, job, idle + [Publish(Sent)]);
            && |late.published| == |job.published| + 1 && late.published[..|job.published|] == job.published
            && Carries(late.published[|job.published|], job.history, block)
            && late.published[|job.published|].base == (if Attempts(idle) == [] then job.base else None)
  {
    IdleKeeps(block, job, idle);
    OneStep(block, job, idle, Publish(Sent));
    SentShape(block, Steps(block, job, idle));
    SplitAtOpen(job.history);
  }

  // A pass that does not send leaves to the next one everything it built.
  lemma UnsentPassKeeps(block: BlockContext, job: Job, pass: Iteration)
    requires pass.Outcome() != Sent
    ensures AfterPass(block, job, pass).history == Ready(job, pass).history
  {
    UnsentKeepsPayload(block, Ready(job, pass), pass.Outcome());
  }

  // --- What entries record ------------------------------------------------

  // Each pass enters the single-flashblock scope once, at its beginning and
  // under the number that follows what has been sent.
  lemma PassRecordsEntry(block: BlockContext, job: Job, pass: Iteration)
    requires Sound(block, job)
    ensures AfterPass(block, job, pass).entries
            == job.entries + [Entry(FlashblockNumber(|job.published| + 1), job.elapsed)]
  {
    RoundsRecordNothing(Entered(job), pass.rounds);
    PublishRecordsNothing(block, Ready(job, pass), pass.Outcome());
  }

  lemma {:induction false} RoundsRecordNothing(job: Job, rounds: seq<seq<Draft>>)
    ensures BuildRounds(job, rounds).entries == job.entries
  {
    if rounds != [] {
      RoundsRecordNothing(job, rounds[..|rounds| - 1]);
    }
  }

  lemma PublishRecordsNothing(block: BlockContext, job: Job, outcome: Outcome)
    ensures AfterPublish(block, job, outcome).entries == job.entries
  {
  }

  // The limits handed to a flashblock that is entered now: the deadline of the
  // recomputed partition, and the gas of as many shares as its number says.
  lemma EntryLimits(p: Plan, job: Job)
    requires p.Valid() && Sound(p.block, job)
    ensures var limits := Entry(Context(job.history), job.elapsed).Limits(p);
            && limits.deadline == Some(p.NextDeadline(job.elapsed))
            && limits.gasLimit
               == GasAllowance(p.enclosing.gasLimit, p.Target(job.elapsed), FlashblockNumber(|job.published| + 1))
  {
  }
}
