// A subscriber over many jobs: one channel, one payload job after another, and
// nothing but the flashblocks themselves to tell where a job begins.
module Streams {
  import opened Prelude
  import opened Platform
  import opened Checkpoints
  import opened Schedule
  import opened Flashblocks
  import opened Pipeline
  import opened JobLemmas
  import opened RunLemmas
  import opened Delivery
  import Fanout

  // A job, and what happens to the channel before it and during it.
  datatype LiveJob = LiveJob(
    plan: Plan,
    prologue: seq<Draft>,
    lead: nat,
    pause: seq<PeerEvent>,
    turns: seq<Turn>)
  {
    function Start(): Job {
      StartJob(plan.block, prologue, lead)
    }
  }

  predicate AllValid(jobs: seq<LiveJob>) {
    forall i :: 0 <= i < |jobs| ==> jobs[i].plan.Valid()
  }

  // Everything that has happened to the channel after a sequence of jobs.
  function AfterJobs(capacity: pos, jobs: seq<LiveJob>): Traffic
    requires AllValid(jobs)
  {
    if jobs == [] then []
    else
      var job := jobs[|jobs| - 1];
      LiveRun(job.plan, job.Start(), capacity, AfterJobs(capacity, jobs[..|jobs| - 1]) + job.pause, job.turns).traffic
  }

  // The next job finds the channel as the jobs before it and the pause left it,
  // and adds what its turns bring, up to the last one it takes.
  lemma NextJobServes(capacity: pos, jobs: seq<LiveJob>, job: LiveJob)
    requires AllValid(jobs + [job]) && AllValid(jobs) && job.plan.Valid()
    ensures var so := AfterJobs(capacity, jobs);
            var live := LiveRun(job.plan, job.Start(), capacity, so + job.pause, job.turns);
            && |live.passes| <= |job.turns|
            && Served(AfterJobs(capacity, jobs + [job]))
               == Served(so) + job.pause + ServedBy(job.turns[..|live.passes|])
  {
    var so := AfterJobs(capacity, jobs);
    assert (jobs + [job])[..|jobs|] == jobs;
    LiveTakesTurns(job.plan, job.Start(), capacity, so + job.pause, job.turns);
    ServedAll(so, job.pause);
  }

  // --- What the log holds -------------------------------------------------

  // Message j of a log ends a run of messages numbered from 0 that replays to
  // the block it was sealed from.
  ghost predicate EndsGroup(log: seq<Flashblock>, j: nat)
    requires j < |log|
  {
    var n := log[j].index;
    && n <= j
    && (forall i :: j - n <= i <= j ==> log[i].index == i - (j - n))
    && Replayed(log[j - n..j + 1]) == log[j].block.transactions
  }

  ghost predicate Grouped(log: seq<Flashblock>) {
    forall j :: 0 <= j < |log| ==> EndsGroup(log, j)
  }

  // The flashblocks of one job.
  ghost predicate OneJob(published: seq<Flashblock>) {
    forall i :: 0 <= i < |published| ==>
                  published[i].index == i && Replayed(published[..i + 1]) == published[i].block.transactions
  }

  lemma GroupedAppend(log: seq<Flashblock>, published: seq<Flashblock>)
    requires Grouped(log) && OneJob(published)
    ensures Grouped(log + published)
  {
    var all := log + published;
    forall j | 0 <= j < |all|
      ensures EndsGroup(all, j)
    {
      var n := all[j].index;
      if j < |log| {
        assert EndsGroup(log, j);
        assert all[j - n..j + 1] == log[j - n..j + 1];
      } else {
        assert n == j - |log|;
        assert all[j - n..j + 1] == published[..n + 1];
      }
    }
  }

  lemma {:induction false} RunIsOneJob(p: Plan, prologue: seq<Draft>, lead: nat, passes: seq<Iteration>)
    requires p.Valid()
    ensures OneJob(RunLoop(p, StartJob(p.block, prologue, lead), passes).job.published)
  {
    var start := StartJob(p.block, prologue, lead);
    var published := RunLoop(p, start, passes).job.published;
    forall i | 0 <= i < |published|
      ensures published[i].index == i && Replayed(published[..i + 1]) == published[i].block.transactions
    {
      RunIsSteps(p, start, passes);
      Replay(p.block, prologue, lead, EventsOf(passes[..RunLoop(p, start, passes).used]), i);
    }
  }

  lemma {:induction false} LogIsGrouped(capacity: pos, jobs: seq<LiveJob>)
    requires AllValid(jobs)
    ensures Grouped(Fanout.Run(capacity, AfterJobs(capacity, jobs)).log)
  {
    if jobs != [] {
      var job, so := jobs[|jobs| - 1], AfterJobs(capacity, jobs[..|jobs| - 1]);
      LogIsGrouped(capacity, jobs[..|jobs| - 1]);
      ServedKeepsLog(capacity, so, job.pause);
      LogIsPublished(job.plan, job.Start(), capacity, so + job.pause, job.turns);
      var passes := LiveRun(job.plan, job.Start(), capacity, so + job.pause, job.turns).passes;
      RunIsOneJob(job.plan, job.prologue, job.lead, passes);
      GroupedAppend(Fanout.Run(capacity, so).log, RunLoop(job.plan, job.Start(), passes).job.published);
    }
  }

  // --- What a subscriber makes of it --------------------------------------

  // Where the last message with index 0 is.
  function LastStart(messages: seq<Flashblock>): (k: Option<nat>)
    ensures k.Some? ==> k.value < |messages| && messages[k.value].index == 0
    ensures k.Some? ==> forall j :: k.value < j < |messages| ==> messages[j].index != 0
    ensures k.None? ==> forall j :: 0 <= j < |messages| ==> messages[j].index != 0
  {
    if messages == [] then None
    else if messages[|messages| - 1].index == 0 then Some(|messages| - 1)
    else LastStart(messages[..|messages| - 1])
  }

  // If the messages at the end are numbered up to n, it is n before the last,
  // or nowhere when there are not as many.
  lemma {:induction false} LastStartAt(messages: seq<Flashblock>, n: nat)
    requires messages != []
    requires forall i :: 0 <= i < |messages| && |messages| - 1 - n <= i ==>
                           messages[i].index == i - (|messages| - 1 - n)
    ensures LastStart(messages) == if n < |messages| then Some(|messages| - 1 - n) else None
  {
    var k := LastStart(messages);
    if n < |messages| {
      assert messages[|messages| - 1 - n].index == 0;
    }
  }

  lemma {:induction false} StretchOfGroups(log: seq<Flashblock>, from: nat, messages: seq<Flashblock>)
    requires Grouped(log) && messages != []
    requires from + |messages| <= |log| && messages == log[from..from + |messages|]
    ensures var last := messages[|messages| - 1];
            var start := LastStart(messages);
            && (start.Some? <==> last.index < |messages|)
            && (start.Some? ==> Replayed(messages[start.value..]) == last.block.transactions)
  {
    var j := from + |messages| - 1;
    var n := log[j].index;
    assert EndsGroup(log, j);
    forall i | 0 <= i < |messages| && |messages| - 1 - n <= i
      ensures messages[i].index == i - (|messages| - 1 - n)
    {
      assert messages[i] == log[from + i];
    }
    LastStartAt(messages, n);
    if n < |messages| {
      assert messages[|messages| - 1 - n..] == log[j - n..j + 1];
    }
  }

  lemma AllDelivered<T>(log: seq<T>, lo: nat, hi: nat, delivered: seq<T>, rest: seq<T>)
    requires lo <= hi <= |log| && delivered + rest == log[lo..hi]
    ensures lo + |delivered| <= |log| && delivered == log[lo..lo + |delivered|]
  {
    WindowDelivered(log, lo, hi, delivered, rest, lo, |delivered|);
    assert delivered[0..|delivered|] == delivered;
  }

  // A peer that never fell behind has got a stretch of the log.
  lemma {:induction false} DeliveredStretch(capacity: pos, traffic: Traffic, i: nat)
    requires i < |Fanout.Run(capacity, traffic).peers|
    requires forall t :: 0 <= t < |traffic| ==> !Fanout.LagsAt(capacity, traffic, i, t)
    ensures var s := Fanout.Run(capacity, traffic);
            var peer := s.peers[i];
            && peer.joined + |peer.delivered| <= |s.log|
            && peer.delivered == s.log[peer.joined..peer.joined + |peer.delivered|]
  {
    var s := Fanout.Run(capacity, traffic);
    var peer := s.peers[i];
    Fanout.NothingSkipped(capacity, traffic, i);
    AllDelivered(s.log, peer.joined, peer.cursor, peer.delivered, peer.unsent);
  }

  lemma TakeOfSlice<T>(log: seq<T>, from: nat, length: nat, n: nat)
    requires from + length <= |log| && n <= length
    ensures log[from..from + length][..n] == log[from..from + n]
  {
  }

  // Peer i never read while more than the capacity behind, and has received at
  // least n messages.
  ghost predicate NeverBehind(capacity: pos, traffic: Traffic, i: nat, n: nat) {
    && i < |Fanout.Run(capacity, traffic).peers|
    && (forall t :: 0 <= t < |traffic| ==> !Fanout.LagsAt(capacity, traffic, i, t))
    && n <= |Fanout.Run(capacity, traffic).peers[i].delivered|
  }

  // The first n of them.
  function FirstReceived(capacity: pos, traffic: Traffic, i: nat, n: nat): seq<Flashblock>
    requires NeverBehind(capacity, traffic, i, n)
  {
    Fanout.Run(capacity, traffic).peers[i].delivered[..n]
  }

  // The messages from the last one with index 0 on replay to the block the
  // newest was sealed from; there is none exactly when the newest has not got
  // its whole job before it.
  ghost predicate Rebuildable(received: seq<Flashblock>) {
    && received != []
    && (LastStart(received).Some? <==> received[|received| - 1].index < |received|)
    && (LastStart(received).Some? ==>
          Replayed(received[LastStart(received).value..]) == received[|received| - 1].block.transactions)
  }

  lemma {:induction false} GroupsReceived(capacity: pos, traffic: Traffic, i: nat, n: nat)
    requires Grouped(Fanout.Run(capacity, traffic).log) && NeverBehind(capacity, traffic, i, n) && 0 < n
    ensures Rebuildable(FirstReceived(capacity, traffic, i, n))
  {
    var s := Fanout.Run(capacity, traffic);
    var peer := s.peers[i];
    DeliveredStretch(capacity, traffic, i);
    TakeOfSlice(s.log, peer.joined, |peer.delivered|, n);
    StretchOfGroups(s.log, peer.joined, peer.delivered[..n]);
  }

  // A subscriber that never fell behind, whenever it joined and whatever jobs,
  // refusals, connections and peers there were: at every moment, after any
  // number n of messages, those from the last one with index 0 on replay to the
  // block the newest was sealed from. Only while it is still receiving the job
  // in the middle of which it joined is there no such message.
  lemma {:induction false} SubscriberFollowsJobs(capacity: pos, jobs: seq<LiveJob>, after: seq<PeerEvent>,
                                                 i: nat, n: nat)
    requires AllValid(jobs) && NeverBehind(capacity, AfterJobs(capacity, jobs) + after, i, n) && 0 < n
    ensures Rebuildable(FirstReceived(capacity, AfterJobs(capacity, jobs) + after, i, n))
  {
    LogIsGrouped(capacity, jobs);
    ServedKeepsLog(capacity, AfterJobs(capacity, jobs), after);
    GroupsReceived(capacity, AfterJobs(capacity, jobs) + after, i, n);
  }
}
