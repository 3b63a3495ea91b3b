// What every step of a payload job keeps.
module JobLemmas {
  import opened Prelude
  import opened Platform
  import opened Checkpoints
  import opened FlashblockLimits
  import opened Schedule
  import opened Flashblocks
  import opened Pipeline

  lemma {:induction false} OneStep(block: BlockContext, job: Job, events: seq<Event>, event: Event)
    ensures Steps(block, job, events + [event]) == Step(block, Steps(block, job, events), event)
  {
    assert (events + [event])[..|events|] == events;
  }

  lemma {:induction false} StepsJoin(block: BlockContext, job: Job, a: seq<Event>, earlier: seq<Event>, last: Event)
    requires Steps(block, job, a + earlier) == Steps(block, Steps(block, job, a), earlier)
    ensures Steps(block, job, (a + earlier) + [last]) == Steps(block, Steps(block, job, a), earlier + [last])
  {
    OneStep(block, job, a + earlier, last);
    OneStep(block, Steps(block, job, a), earlier, last);
  }

  lemma {:induction false} StepsAppend(block: BlockContext, job: Job, a: seq<Event>, b: seq<Event>)
    ensures Steps(block, job, a + b) == Steps(block, Steps(block, job, a), b)
  {
    if b == [] {
      assert a + b == a;
    } else {
      var earlier, last := b[..|b| - 1], b[|b| - 1];
      assert a + b == (a + earlier) + [last] && b == earlier + [last];
      StepsAppend(block, job, a, earlier);
      StepsJoin(block, job, a, earlier, last);
    }
  }

  lemma ReplayedAppend(published: seq<Flashblock>, f: Flashblock)
    ensures Replayed(published + [f]) == Replayed(published) + f.transactions
  {
    var all := Diffs(published + [f]);
    assert all[..|all| - 1] == Diffs(published);
  }

  // --- The invariant ------------------------------------------------------

  // Every flashblock was built from exactly the concatenation of the diffs up
  // to and including its own.
  ghost predicate EachReplays(published: seq<Flashblock>) {
    forall i :: 0 <= i < |published| ==> Replayed(published[..i + 1]) == published[i].block.transactions
  }

  // In addition, the checkpoints below the open flashblock hold exactly what
  // was sent.
  ghost predicate Replays(history: History, published: seq<Flashblock>) {
    && WellLaid(history)
    && Replayed(published) == Transactions(history[..OpenFrom(history)])
    && EachReplays(published)
  }

  // Flashblocks are numbered without gap or repeat and name this block; the
  // number of the open flashblock follows.
  ghost predicate Numbered(block: BlockContext, number: FlashblockNumber, published: seq<Flashblock>) {
    && number.current == |published| + 1
    && forall i :: 0 <= i < |published| ==>
                     && published[i].index == i
                     && published[i].payloadId == block.payloadId
                     && published[i].blockNumber == block.number
  }

  // Only the first flashblock may carry a base, and then it is this job's.
  ghost predicate BaseOnce(block: BlockContext, base: Option<BlockBase>, published: seq<Flashblock>) {
    && (base.Some? ==> base.value == BaseOf(block) && published == [])
    && forall i :: 0 <= i < |published| && published[i].base.Some? ==>
                     i == 0 && published[i].base.value == BaseOf(block)
  }

  ghost predicate Sound(block: BlockContext, job: Job) {
    && Replays(job.history, job.published)
    && Numbered(block, Context(job.history), job.published)
    && BaseOnce(block, job.base, job.published)
    && |job.publishedAt| == |job.published|
  }

  lemma {:induction false} SplitAtOpen(h: History)
    ensures UnpublishedPayload(h) == h[OpenFrom(h)..]
    ensures Transactions(h) == Transactions(h[..OpenFrom(h)]) + Transactions(UnpublishedPayload(h))
  {
    assert h == h[..OpenFrom(h)] + h[OpenFrom(h)..];
    TransactionsAppend(h[..OpenFrom(h)], h[OpenFrom(h)..]);
  }

  lemma StartIsSound(block: BlockContext, prologue: seq<Draft>, lead: Duration)
    ensures Sound(block, StartJob(block, prologue, lead))
  {
    OpenFromUnique(BASELINE, 0);
    RewriteKeepsFrozen(BASELINE, prologue);
  }

  lemma EachReplaysAppend(published: seq<Flashblock>, f: Flashblock)
    requires EachReplays(published) && f.block.transactions == Replayed(published) + f.transactions
    ensures EachReplays(published + [f])
  {
    var all := published + [f];
    forall i | 0 <= i < |all|
      ensures Replayed(all[..i + 1]) == all[i].block.transactions
    {
      if i < |published| {
        assert all[..i + 1] == published[..i + 1];
      } else {
        assert all[..i + 1] == all;
        ReplayedAppend(published, f);
      }
    }
  }

  lemma SentReplays(block: BlockContext, job: Job)
    requires Replays(job.history, job.published)
    ensures Replays(AfterPublish(block, job, Sent).history, AfterPublish(block, job, Sent).published)
    ensures Replayed(AfterPublish(block, job, Sent).published) == Transactions(AfterPublish(block, job, Sent).history)
  {
    var f := FlashblockFrom(job.history, job.base, block);
    SplitAtOpen(job.history);
    ReplayedAppend(job.published, f);
    EachReplaysAppend(job.published, f);
    BarrierFreezes(job.history, Context(job.history).Next());
  }

  lemma PublishIsSound(block: BlockContext, job: Job, outcome: Outcome)
    requires Sound(block, job)
    ensures Sound(block, AfterPublish(block, job, outcome))
  {
    if outcome == Sent {
      SentReplays(block, job);
      SentNumbers(block, job);
    }
  }

  lemma SentNumbers(block: BlockContext, job: Job)
    requires Sound(block, job)
    ensures var after := AfterPublish(block, job, Sent);
            Numbered(block, Context(after.history), after.published) && BaseOnce(block, after.base, after.published)
  {
    SentShape(block, job);
    NumberedAppend(block, Context(job.history), job.base, job.published, FlashblockFrom(job.history, job.base, block));
  }

  lemma SentShape(block: BlockContext, job: Job)
    ensures var after := AfterPublish(block, job, Sent);
            && Context(after.history) == Context(job.history).Next() && after.base == None
            && after.published == job.published + [FlashblockFrom(job.history, job.base, block)]
  {
  }

  lemma NumberedAppend(block: BlockContext, number: FlashblockNumber, base: Option<BlockBase>,
                       published: seq<Flashblock>, f: Flashblock)
    requires Numbered(block, number, published) && BaseOnce(block, base, published)
    requires f.index == number.Index() && f.payloadId == block.payloadId
    requires f.blockNumber == block.number && f.base == base
    ensures Numbered(block, number.Next(), published + [f]) && BaseOnce(block, None, published + [f])
  {
  }

  lemma StepIsSound(block: BlockContext, job: Job, event: Event)
    requires Sound(block, job)
    ensures Sound(block, Step(block, job, event))
  {
    match event
    case Enter =>
    case Elapse(_) =>
    case Rebuild(drafts) => RewriteKeepsFrozen(job.history, drafts);
    case Epilogue(tx) => AppendKeepsFrozen(job.history, [tx]);
    case Publish(outcome) => PublishIsSound(block, job, outcome);
  }

  lemma {:induction false} StepsAreSound(block: BlockContext, job: Job, events: seq<Event>)
    requires Sound(block, job)
    ensures Sound(block, Steps(block, job, events))
  {
    if events != [] {
      StepsAreSound(block, job, events[..|events| - 1]);
      StepIsSound(block, Steps(block, job, events[..|events| - 1]), events[|events| - 1]);
    }
  }

  // --- Main results over any sequence of steps ----------------------------

  // Replay: whatever building steps rewrite and whichever publishes fail, the
  // diffs sent so far concatenate to the transactions of the block the latest
  // of them was sealed from, and indices run 0, 1, 2, ...
  lemma {:induction false} Replay(block: BlockContext, prologue: seq<Draft>, lead: Duration, events: seq<Event>, i: nat)
    requires i < |Steps(block, StartJob(block, prologue, lead), events).published|
    ensures var published := Steps(block, StartJob(block, prologue, lead), events).published;
            && Replayed(published[..i + 1]) == published[i].block.transactions
            && published[i].index == i
            && published[i].payloadId == block.payloadId && published[i].blockNumber == block.number
  {
    StartIsSound(block, prologue, lead);
    StepsAreSound(block, StartJob(block, prologue, lead), events);
  }

  lemma {:induction false} PublishedGrows(block: BlockContext, job: Job, events: seq<Event>)
    ensures job.published <= Steps(block, job, events).published
    ensures job.publishedAt <= Steps(block, job, events).publishedAt
    ensures job.elapsed <= Steps(block, job, events).elapsed
  {
    if events != [] {
      PublishedGrows(block, job, events[..|events| - 1]);
    }
  }

  lemma ReplayedPrefix(a: seq<Flashblock>, b: seq<Flashblock>)
    requires a <= b
    ensures Replayed(a) <= Replayed(b)
  {
    assert Diffs(b) == Diffs(a) + Diffs(b[|a|..]);
    FlattenAppend(Diffs(a), Diffs(b[|a|..]));
  }

  lemma {:induction false} PublishedIsPrefix(block: BlockContext, prologue: seq<Draft>, lead: Duration,
                                             events: seq<Event>)
    ensures var job := Steps(block, StartJob(block, prologue, lead), events);
            Replayed(job.published) <= Transactions(job.history)
  {
    StartIsSound(block, prologue, lead);
    StepsAreSound(block, StartJob(block, prologue, lead), events);
    SplitAtOpen(Steps(block, StartJob(block, prologue, lead), events).history);
  }

  lemma SliceOfPrefix<T>(a: seq<T>, b: seq<T>, whole: seq<T>)
    requires a + b <= whole
    ensures whole[|a|..|a| + |b|] == b
  {
    assert (a + b)[|a|..|a| + |b|] == b;
  }

  lemma FrozenSlice(early: seq<Flashblock>, late: seq<Flashblock>, whole: seq<Transaction>, i: nat)
    requires i < |early| && early <= late && EachReplays(early) && Replayed(late) <= whole
    ensures var f, offset := early[i], |Replayed(early[..i])|;
            && f.block.transactions <= whole
            && offset + |f.transactions| == |f.block.transactions|
            && whole[offset..offset + |f.transactions|] == f.transactions
  {
    ReplayedPrefix(early[..i + 1], late);
    assert early[..i + 1] == early[..i] + [early[i]];
    ReplayedAppend(early[..i], early[i]);
    SliceOfPrefix(Replayed(early[..i]), early[i].transactions, whole);
  }

  lemma {:induction false} EarlierReplays(block: BlockContext, prologue: seq<Draft>, lead: Duration,
                                          before: seq<Event>, after: seq<Event>)
    ensures var early := Steps(block, StartJob(block, prologue, lead), before).published;
            && EachReplays(early)
            && early <= Steps(block, StartJob(block, prologue, lead), before + after).published
  {
    var start := StartJob(block, prologue, lead);
    StepsAppend(block, start, before, after);
    PublishedGrows(block, Steps(block, start, before), after);
    StartIsSound(block, prologue, lead);
    StepsAreSound(block, start, before);
  }

  // Frozen prefix: once flashblock i is out, every later payload of the job
  // has its transactions at the positions where the block it was sealed from
  // had them, and starts with that whole block.
  lemma {:induction false} FrozenPrefix(block: BlockContext, prologue: seq<Draft>, lead: Duration,
                                        before: seq<Event>, after: seq<Event>, i: nat)
    requires i < |Steps(block, StartJob(block, prologue, lead), before).published|
    ensures var early := Steps(block, StartJob(block, prologue, lead), before);
            var late := Steps(block, StartJob(block, prologue, lead), before + after);
            var f := early.published[i];
            var offset := |Replayed(early.published[..i])|;
            && early.published <= late.published
            && f.block.transactions <= Transactions(late.history)
            && offset + |f.transactions| == |f.block.transactions|
            && Transactions(late.history)[offset..offset + |f.transactions|] == f.transactions
  {
    var start := StartJob(block, prologue, lead);
    EarlierReplays(block, prologue, lead, before, after);
    PublishedIsPrefix(block, prologue, lead, before + after);
    FrozenSlice(Steps(block, start, before).published, Steps(block, start, before + after).published,
                Transactions(Steps(block, start, before + after).history), i);
  }

  // --- The base -----------------------------------------------------------

  // The publish attempts that reached the transport, in order.
  function Attempts(events: seq<Event>): seq<Outcome> {
    if events == [] then []
    else
      var last := events[|events| - 1];
      Attempts(events[..|events| - 1])
      + (if last.Publish? && last.outcome != SealFailed then [last.outcome] else [])
  }

  ghost predicate BaseFollowsAttempts(block: BlockContext, job: Job, attempts: seq<Outcome>) {
    && (job.base.Some? <==> attempts == [])
    && (job.published != [] <==> Sent in attempts)
    && (job.published != [] ==> (job.published[0].base.Some? <==> attempts[0] == Sent))
  }

  lemma {:induction false} BaseTracksAttempts(block: BlockContext, prologue: seq<Draft>, lead: Duration,
                                              events: seq<Event>)
    ensures BaseFollowsAttempts(block, Steps(block, StartJob(block, prologue, lead), events), Attempts(events))
  {
    if events != [] {
      var earlier, last := events[..|events| - 1], events[|events| - 1];
      BaseTracksAttempts(block, prologue, lead, earlier);
      if last.Publish? && last.outcome != SealFailed {
        assert Attempts(events) == Attempts(earlier) + [last.outcome];
      } else {
        assert Attempts(events) == Attempts(earlier);
      }
    }
  }

  // At most one flashblock of a job carries a base; it has index 0, the base
  // describes this job's block, field by field, and names the same block as
  // the flashblock. The first flashblock
  // carries it exactly when the very first message handed to the transport was
  // accepted: a refused message takes the base with it.
  lemma {:induction false} FirstFlashblockBase(block: BlockContext, prologue: seq<Draft>, lead: Duration,
                                               events: seq<Event>)
    ensures var published := Steps(block, StartJob(block, prologue, lead), events).published;
            && (forall i :: 0 <= i < |published| && published[i].base.Some? ==>
                              && i == 0 && published[i].index == 0
                              && published[i].base.value == BaseOf(block)
                              && published[i].base.value.Describes(block)
                              && published[i].base.value.blockNumber == published[i].blockNumber)
            && (published != [] ==>
                  (published[0].base.Some? <==> Attempts(events) != [] && Attempts(events)[0] == Sent))
  {
    StartIsSound(block, prologue, lead);
    StepsAreSound(block, StartJob(block, prologue, lead), events);
    BaseTracksAttempts(block, prologue, lead, events);
    BaseDescribes(block);
  }

  // The shortest job in which no flashblock carries the base.
  lemma {:induction false} BaseLostOnRefusal(block: BlockContext)
    ensures var published := Steps(block, StartJob(block, [], 0), [Publish(SendFailed), Publish(Sent)]).published;
            |published| == 1 && published[0].index == 0 && published[0].base.None?
  {
    var start, events := StartJob(block, [], 0), [Publish(SendFailed), Publish(Sent)];
    var refused := [Publish(SendFailed)];
    assert events[..1] == refused && refused[..0] == [];
    assert Steps(block, start, refused) == Step(block, Steps(block, start, []), Publish(SendFailed));
    StartIsSound(block, [], 0);
    StepsAreSound(block, start, events);
  }

  // --- Gas over any sequence of steps -------------------------------------

  function CurrentAllowance(p: Plan, job: Job): u64
    requires p.Valid()
  {
    Entry(Context(job.history), job.elapsed).Limits(p).gasLimit
  }

  // Allowances ascend along the entries and up to the present moment.
  ghost predicate AllowancesAscend(p: Plan, job: Job)
    requires p.Valid()
  {
    && EntriesAscend(p, job.entries)
    && (forall i :: 0 <= i < |job.entries| ==> job.entries[i].Limits(p).gasLimit <= CurrentAllowance(p, job))
  }

  lemma AllowanceGrows(p: Plan, a: Entry, b: Entry)
    requires p.Valid() && a.number.current <= b.number.current && a.elapsed <= b.elapsed
    ensures a.Limits(p).gasLimit <= b.Limits(p).gasLimit
  {
    TargetShrinks(p, a.elapsed, b.elapsed);
    AllowanceMonotone(p.enclosing.gasLimit, p.Target(a.elapsed), a.number, p.Target(b.elapsed), b.number);
  }

  lemma AllowanceStep(p: Plan, job: Job, event: Event)
    requires p.Valid() && Sound(p.block, job) && AllowancesAscend(p, job)
    ensures AllowancesAscend(p, Step(p.block, job, event))
  {
    var job' := Step(p.block, job, event);
    StepIsSound(p.block, job, event);
    AllowanceGrows(p, Entry(Context(job.history), job.elapsed), Entry(Context(job'.history), job'.elapsed));
    if event.Enter? {
      AllowancesAppend(p, job.entries, Entry(Context(job.history), job.elapsed));
    }
  }

  ghost predicate EntriesAscend(p: Plan, entries: seq<Entry>)
    requires p.Valid()
  {
    forall i, j :: 0 <= i <= j < |entries| ==> entries[i].Limits(p).gasLimit <= entries[j].Limits(p).gasLimit
  }

  lemma AllowancesAppend(p: Plan, entries: seq<Entry>, last: Entry)
    requires p.Valid() && EntriesAscend(p, entries)
    requires forall i :: 0 <= i < |entries| ==> entries[i].Limits(p).gasLimit <= last.Limits(p).gasLimit
    ensures EntriesAscend(p, entries + [last])
  {
  }

  // The gas allowance handed to a flashblock is never smaller than any handed
  // out before it in the job, although the target is recomputed every time.
  lemma {:induction false} GasNeverShrinks(p: Plan, prologue: seq<Draft>, lead: Duration, events: seq<Event>)
    requires p.Valid()
    ensures AllowancesAscend(p, Steps(p.block, StartJob(p.block, prologue, lead), events))
  {
    if events != [] {
      var start, earlier := StartJob(p.block, prologue, lead), events[..|events| - 1];
      GasNeverShrinks(p, prologue, lead, earlier);
      StartIsSound(p.block, prologue, lead);
      StepsAreSound(p.block, start, earlier);
      AllowanceStep(p, Steps(p.block, start, earlier), events[|events| - 1]);
    }
  }
}
