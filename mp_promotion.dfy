/**
 * The leader-promotion protocol of the multi-partition initiator
 * (MpInitiator.acceptPromotion), stated as the sequence of calls it makes
 * into its collaborators: the term, the repair algorithm, the initiator
 * mailbox and the leader cache. Those collaborators are opaque here; the
 * outcomes of successive repair rounds are an input that drives the loop.
 */
module MpPromotion {
  import opened Wrappers

  /** Host-site id: the address of one replica's mailbox. */
  type HSId = int

  /** The second half of a repair result: the state the new leader resumes from. */
  type LeaderState = int

  /** TxnEgo.PARTITIONID_MAX_VALUE, (1 << 14) - 1; TxnEgo is not part of this model. */
  const PartitionIdMaxValue: int := 16383

  /** The partition id of the multi-partition role (MP_INIT_PID). */
  const MpInitPid: int := PartitionIdMaxValue

  /** The execution backends configure distinguishes; all others are kept by name. */
  datatype Backend = NativeEeJni | NativeEeIpc | NativeEeValgrindIpc | OtherBackend(name: string)

  /** Backend the multi-partition site runs on: never an IPC one. */
  function SiteBackend(backend: Backend): (r: Backend)
    ensures backend.NativeEeIpc? || backend.NativeEeValgrindIpc? ==> r == NativeEeJni
    ensures !backend.NativeEeIpc? && !backend.NativeEeValgrindIpc? ==> r == backend
  {
    if backend == NativeEeIpc || backend == NativeEeValgrindIpc then NativeEeJni else backend
  }

  /** Who the initiator is: its partition, its own HSId, its mailbox's HSId and its log name. */
  datatype Identity = Identity(partitionId: int, initiatorHSId: HSId, mailboxHSId: HSId, whoami: string)

  /** An MpTerm; the replicas it finds interesting come from the coordination service. */
  datatype Term = MpTerm(initiatorHSId: HSId, mailboxHSId: HSId, whoami: string, interesting: seq<HSId>)

  /**
   * An MpPromoteAlgo as constructed; `instance` stands for the identity of
   * the object (the n-th repair algorithm this initiator has built).
   */
  datatype RepairAlgo = MpPromoteAlgo(instance: nat, survivors: seq<HSId>, mailboxHSId: HSId, whoami: string)

  /** An interrupted multi-partition transaction (Iv2InitiateTaskMessage), by id. */
  datatype InitiateTask = InitiateTask(txnId: int)

  /** What awaiting one repair round yields. */
  datatype RepairOutcome =
    | Finished(success: bool, leaderState: LeaderState, interrupted: seq<InitiateTask>)
    | Threw  // the future failed or the wait was interrupted

  /** One call into a collaborator, in the order acceptPromotion makes them. */
  datatype Effect =
    | ParticipantRegistered(partitionId: int, hsId: HSId)  // election node created by configure
    | TermCreated(term: Term)
    | TermStarted(term: Term)
    | RepairInstalled(algo: RepairAlgo)                     // mailbox.setRepairAlgo
    | RepairStarted(algo: RepairAlgo)                       // repair.start()
    | LeaderStateSet(state: LeaderState)                    // mailbox.setLeaderState
    | Rebroadcast(txn: InitiateTask)                        // mailbox.repairReplicasWith(null, txn)
    | DumpSent(targets: seq<HSId>)                          // mailbox.send(targets, DumpMessage)
    | LeaderCachePut(partitionId: int, hsId: HSId)          // leader cache put

  /** Why the process was crashed (VoltDB.crashLocalVoltDB). */
  datatype Cause = UnresolvableRepair(candidates: seq<InitiateTask>) | RepairThrew

  /** How a call of acceptPromotion ends; Retrying means the outcomes ran out while it still retried. */
  datatype Promotion = Promoted | Retrying | Crashed(cause: Cause)

  /** Everything one call of acceptPromotion does. */
  datatype Run = Run(term: Term, effects: seq<Effect>, result: Promotion, attempts: nat, leaderState: Option<LeaderState>)

  /** createTerm: the partition id argument is not used. */
  function CreateTerm(partitionId: int, initiatorHSId: HSId, mailboxHSId: HSId, whoami: string, interesting: seq<HSId>): Term
  {
    MpTerm(initiatorHSId, mailboxHSId, whoami, interesting)
  }

  /** The repair algorithm built on the given attempt, from the term and the initiator's own fields. */
  function Algo(id: Identity, term: Term, instance: nat): RepairAlgo
  {
    MpPromoteAlgo(instance, term.interesting, id.mailboxHSId, id.whoami)
  }

  /** A repair round that reported failure: the loop goes round again. */
  predicate Failed(o: RepairOutcome)
  {
    o.Finished? && !o.success
  }

  /** The first outcome that ends the loop, if any. */
  function Deciding(outcomes: seq<RepairOutcome>): (k: Option<nat>)
    ensures k.None? ==> forall j :: 0 <= j < |outcomes| ==> Failed(outcomes[j])
    ensures k.Some? ==> k.value < |outcomes| && !Failed(outcomes[k.value])
    ensures k.Some? ==> forall j :: 0 <= j < k.value ==> Failed(outcomes[j])
  {
    if outcomes == [] then None
    else if !Failed(outcomes[0]) then Some(0)
    else match Deciding(outcomes[1..])
      case None => None
      case Some(k) => Some(k + 1)
  }

  /** The effects of n attempts that each build, install and start a repair algorithm. */
  function Begun(id: Identity, term: Term, next: nat, n: nat): seq<Effect>
    decreases n
  {
    if n == 0 then []
    else [RepairInstalled(Algo(id, term, next)), RepairStarted(Algo(id, term, next))]
         + Begun(id, term, next + 1, n - 1)
  }

  /** The j-th effect of Begun. */
  function BegunAt(id: Identity, term: Term, next: nat, j: nat): Effect
  {
    if j % 2 == 0 then RepairInstalled(Algo(id, term, next + j / 2))
    else RepairStarted(Algo(id, term, next + j / 2))
  }

  /** What a successful or throwing repair round leads to, after its algorithm was started. */
  function Verdict(id: Identity, term: Term, o: RepairOutcome): (seq<Effect>, Promotion)
    requires !Failed(o)
  {
    match o
    case Threw => ([], Crashed(RepairThrew))
    case Finished(_, state, txns) =>
      if |txns| > 1 then
        ([LeaderStateSet(state), DumpSent(term.interesting)], Crashed(UnresolvableRepair(txns)))
      else
        ([LeaderStateSet(state)]
         + (if |txns| == 1 then [Rebroadcast(txns[0])] else [])
         + [LeaderCachePut(id.partitionId, id.mailboxHSId)], Promoted)
  }

  /**
   * One call of acceptPromotion, with `interesting` the replicas the new term
   * finds, `next` the number of repair algorithms built before, and
   * `outcomes` the results of the successive repair rounds.
   */
  function PromotionRun(id: Identity, interesting: seq<HSId>, next: nat, outcomes: seq<RepairOutcome>): Run
  {
    var term := CreateTerm(id.partitionId, id.initiatorHSId, id.mailboxHSId, id.whoami, interesting);
    var rounds := Rounds(id, term, next, outcomes);
    rounds.(effects := [TermCreated(term), TermStarted(term)] + rounds.effects)
  }

  /** The repair rounds of one acceptPromotion call, once `term` has been started. */
  function Rounds(id: Identity, term: Term, next: nat, outcomes: seq<RepairOutcome>): Run
  {
    match Deciding(outcomes)
    case None => Run(term, Begun(id, term, next, |outcomes|), Retrying, |outcomes|, None)
    case Some(k) =>
      var v := Verdict(id, term, outcomes[k]);
      Run(term, Begun(id, term, next, k + 1) + v.0, v.1, k + 1,
          if outcomes[k].Finished? then Some(outcomes[k].leaderState) else None)
  }

  // ---------------------------------------------------------------------
  // Lemmas about Begun

  lemma {:induction false} BegunFacts(id: Identity, term: Term, next: nat, n: nat)
    ensures |Begun(id, term, next, n)| == 2 * n
    ensures forall j :: 0 <= j < 2 * n ==> Begun(id, term, next, n)[j] == BegunAt(id, term, next, j)
    decreases n
  {
    if n > 0 {
      BegunFacts(id, term, next + 1, n - 1);
      var b := Begun(id, term, next, n);
      var rest := Begun(id, term, next + 1, n - 1);
      assert b == [RepairInstalled(Algo(id, term, next)), RepairStarted(Algo(id, term, next))] + rest;
      forall j | 2 <= j < 2 * n
        ensures b[j] == BegunAt(id, term, next, j)
      {
        assert b[j] == rest[j - 2];
        assert (j - 2) % 2 == j % 2 && next + 1 + (j - 2) / 2 == next + j / 2;
      }
    }
  }

  lemma {:induction false} BegunSnoc(id: Identity, term: Term, next: nat, n: nat)
    ensures Begun(id, term, next, n + 1)
         == Begun(id, term, next, n) + [RepairInstalled(Algo(id, term, next + n)), RepairStarted(Algo(id, term, next + n))]
    decreases n
  {
    if n > 0 {
      BegunSnoc(id, term, next + 1, n - 1);
    }
  }

  /** The round at index k decides the loop when all rounds before it failed and it did not. */
  lemma DecidingAt(id: Identity, term: Term, next: nat, outcomes: seq<RepairOutcome>, k: nat)
    requires k < |outcomes| && !Failed(outcomes[k])
    requires forall j :: 0 <= j < k ==> Failed(outcomes[j])
    ensures Deciding(outcomes) == Some(k)
    ensures var v := Verdict(id, term, outcomes[k]);
      Rounds(id, term, next, outcomes)
      == Run(term, Begun(id, term, next, k + 1) + v.0, v.1, k + 1,
             if outcomes[k].Finished? then Some(outcomes[k].leaderState) else None)
  {
  }

  /** No round decides the loop when every round failed. */
  lemma Undecided(id: Identity, term: Term, next: nat, outcomes: seq<RepairOutcome>)
    requires forall j :: 0 <= j < |outcomes| ==> Failed(outcomes[j])
    ensures Deciding(outcomes) == None
    ensures Rounds(id, term, next, outcomes) == Run(term, Begun(id, term, next, |outcomes|), Retrying, |outcomes|, None)
  {
  }

  // ---------------------------------------------------------------------
  // Safety of the promotion loop

  /**
   * The term is created and started exactly once, before anything else, and
   * every repair algorithm is built from that term's interesting replicas and
   * the initiator's own mailbox and name.
   */
  lemma TermCreatedOnceBeforeRepairs(id: Identity, interesting: seq<HSId>, next: nat, outcomes: seq<RepairOutcome>)
    ensures var run := PromotionRun(id, interesting, next, outcomes);
      && |run.effects| >= 2
      && run.effects[0] == TermCreated(run.term)
      && run.effects[1] == TermStarted(run.term)
      && run.term.interesting == interesting
      && (forall j :: 2 <= j < |run.effects| ==> !run.effects[j].TermCreated? && !run.effects[j].TermStarted?)
      && (forall j :: 0 <= j < |run.effects| && run.effects[j].RepairInstalled? ==>
            run.effects[j].algo.survivors == interesting
            && run.effects[j].algo.mailboxHSId == id.mailboxHSId
            && run.effects[j].algo.whoami == id.whoami)
  {
    var run := PromotionRun(id, interesting, next, outcomes);
    var n := run.attempts;
    BegunFacts(id, run.term, next, n);
    var b := Begun(id, run.term, next, n);
    assert run.effects[..2 + |b|] == [TermCreated(run.term), TermStarted(run.term)] + b;
    forall j | 2 <= j < |run.effects|
      ensures !run.effects[j].TermCreated? && !run.effects[j].TermStarted?
      ensures run.effects[j].RepairInstalled? ==>
            run.effects[j].algo.survivors == interesting
            && run.effects[j].algo.mailboxHSId == id.mailboxHSId
            && run.effects[j].algo.whoami == id.whoami
    {
      if j < 2 + |b| {
        assert run.effects[j] == b[j - 2];
      }
    }
  }

  /**
   * Every attempt installs its repair algorithm in the mailbox immediately
   * before starting it, and every attempt builds a new one.
   */
  lemma RepairInstalledBeforeStarted(id: Identity, interesting: seq<HSId>, next: nat, outcomes: seq<RepairOutcome>)
    ensures var e := PromotionRun(id, interesting, next, outcomes).effects;
      && (forall j :: 0 <= j < |e| && e[j].RepairStarted? ==> 1 <= j && e[j - 1] == RepairInstalled(e[j].algo))
      && (forall i, j :: 0 <= i < j < |e| && e[i].RepairInstalled? && e[j].RepairInstalled? ==>
            e[i].algo.instance < e[j].algo.instance)
  {
    var run := PromotionRun(id, interesting, next, outcomes);
    var post := RunShape(id, interesting, next, outcomes);
    StartedAfterInstalled(id, run.term, next, run.attempts, post);
    InstancesIncrease(id, run.term, next, run.attempts, post);
  }

  lemma StartedAfterInstalled(id: Identity, term: Term, next: nat, n: nat, post: seq<Effect>)
    requires forall t :: 0 <= t < |post| ==> !post[t].RepairInstalled? && !post[t].RepairStarted?
    ensures var e := [TermCreated(term), TermStarted(term)] + Begun(id, term, next, n) + post;
      forall j :: 0 <= j < |e| && e[j].RepairStarted? ==> 1 <= j && e[j - 1] == RepairInstalled(e[j].algo)
  {
    var pre := [TermCreated(term), TermStarted(term)];
    var e := pre + Begun(id, term, next, n) + post;
    BegunFacts(id, term, next, n);
    var m := 2 + 2 * n;
    forall j | 0 <= j < |e| && e[j].RepairStarted?
      ensures 1 <= j && e[j - 1] == RepairInstalled(e[j].algo)
    {
      if j < m {
        RepairsOnly(id, term, next, n, pre, post, j);
        RepairsOnly(id, term, next, n, pre, post, j - 1);
      }
    }
  }

  lemma InstancesIncrease(id: Identity, term: Term, next: nat, n: nat, post: seq<Effect>)
    requires forall t :: 0 <= t < |post| ==> !post[t].RepairInstalled? && !post[t].RepairStarted?
    ensures var e := [TermCreated(term), TermStarted(term)] + Begun(id, term, next, n) + post;
      forall i, j :: 0 <= i < j < |e| && e[i].RepairInstalled? && e[j].RepairInstalled? ==>
        e[i].algo.instance < e[j].algo.instance
  {
    var pre := [TermCreated(term), TermStarted(term)];
    var e := pre + Begun(id, term, next, n) + post;
    BegunFacts(id, term, next, n);
    var m := 2 + 2 * n;
    forall i, j | 0 <= i < j < |e| && e[i].RepairInstalled? && e[j].RepairInstalled?
      ensures e[i].algo.instance < e[j].algo.instance
    {
      if j < m {
        RepairsOnly(id, term, next, n, pre, post, i);
        RepairsOnly(id, term, next, n, pre, post, j);
      }
    }
  }

  /**
   * While every repair round fails, the loop only retries: it builds a new
   * algorithm per round and never touches the leader state, never
   * rebroadcasts, never dumps and never writes the leader cache.
   */
  lemma FailedRoundsOnlyRetry(id: Identity, interesting: seq<HSId>, next: nat, outcomes: seq<RepairOutcome>)
    requires forall j :: 0 <= j < |outcomes| ==> Failed(outcomes[j])
    ensures var run := PromotionRun(id, interesting, next, outcomes);
      && run.result == Retrying
      && run.attempts == |outcomes|
      && run.leaderState.None?
      && forall j :: 0 <= j < |run.effects| ==>
           !run.effects[j].LeaderStateSet? && !run.effects[j].Rebroadcast?
           && !run.effects[j].DumpSent? && !run.effects[j].LeaderCachePut?
  {
    var run := PromotionRun(id, interesting, next, outcomes);
    BegunFacts(id, run.term, next, |outcomes|);
    var b := Begun(id, run.term, next, |outcomes|);
    assert run.effects == [TermCreated(run.term), TermStarted(run.term)] + b;
    forall j | 2 <= j < |run.effects|
      ensures !run.effects[j].LeaderStateSet? && !run.effects[j].Rebroadcast?
      ensures !run.effects[j].DumpSent? && !run.effects[j].LeaderCachePut?
    {
      assert run.effects[j] == b[j - 2];
    }
  }

  /** The effects of a run whose round k decides: the term's two, the k + 1 attempts, the verdict's. */
  lemma DecidedEffects(id: Identity, interesting: seq<HSId>, next: nat, outcomes: seq<RepairOutcome>, k: nat)
    requires Deciding(outcomes) == Some(k)
    ensures k < |outcomes| && !Failed(outcomes[k])
    ensures var run := PromotionRun(id, interesting, next, outcomes);
      var v := Verdict(id, run.term, outcomes[k]);
      && run.term == CreateTerm(id.partitionId, id.initiatorHSId, id.mailboxHSId, id.whoami, interesting)
      && run.effects == [TermCreated(run.term), TermStarted(run.term)] + Begun(id, run.term, next, k + 1) + v.0
      && run.result == v.1
      && run.attempts == k + 1
      && run.leaderState == (if outcomes[k].Finished? then Some(outcomes[k].leaderState) else None)
  {
  }

  /** Inside the attempts, an effect only installs or starts a repair algorithm. */
  lemma RepairsOnly(id: Identity, term: Term, next: nat, n: nat, pre: seq<Effect>, post: seq<Effect>, j: nat)
    requires |pre| <= j < |pre| + 2 * n
    ensures |Begun(id, term, next, n)| == 2 * n
    ensures (pre + Begun(id, term, next, n) + post)[j] == BegunAt(id, term, next, j - |pre|)
  {
    BegunFacts(id, term, next, n);
  }

  /** Every run: the term's two effects, its attempts, then effects that neither touch the term nor repair. */
  lemma RunShape(id: Identity, interesting: seq<HSId>, next: nat, outcomes: seq<RepairOutcome>) returns (post: seq<Effect>)
    ensures var run := PromotionRun(id, interesting, next, outcomes);
      && run.effects == [TermCreated(run.term), TermStarted(run.term)] + Begun(id, run.term, next, run.attempts) + post
      && |Begun(id, run.term, next, run.attempts)| == 2 * run.attempts
      && forall t :: 0 <= t < |post| ==>
           !post[t].RepairInstalled? && !post[t].RepairStarted? && !post[t].TermCreated? && !post[t].TermStarted?
  {
    var run := PromotionRun(id, interesting, next, outcomes);
    match Deciding(outcomes) {
      case None =>
        Undecided(id, run.term, next, outcomes);
        post := [];
      case Some(k) =>
        DecidedEffects(id, interesting, next, outcomes, k);
        post := Verdict(id, run.term, outcomes[k]).0;
    }
    BegunFacts(id, run.term, next, run.attempts);
  }

  /**
   * When the deciding round succeeds, the leader state is set to its second
   * component right after its algorithm was started, before the restart list
   * is acted on, and so also on the fatal path.
   */
  lemma LeaderStateSetBeforeRestarts(id: Identity, interesting: seq<HSId>, next: nat, outcomes: seq<RepairOutcome>, k: nat)
    requires Deciding(outcomes) == Some(k) && outcomes[k].Finished?
    ensures var run := PromotionRun(id, interesting, next, outcomes);
      && run.leaderState == Some(outcomes[k].leaderState)
      && run.attempts == k + 1
      && |run.effects| > 2 * k + 4
      && run.effects[2 * k + 4] == LeaderStateSet(outcomes[k].leaderState)
      && forall j :: 0 <= j < |run.effects| && j != 2 * k + 4 ==>
           !run.effects[j].LeaderStateSet?
           && (run.effects[j].Rebroadcast? || run.effects[j].DumpSent? || run.effects[j].LeaderCachePut? ==> j > 2 * k + 4)
  {
    DecidedEffects(id, interesting, next, outcomes, k);
    var run := PromotionRun(id, interesting, next, outcomes);
    var pre := [TermCreated(run.term), TermStarted(run.term)];
    var v := Verdict(id, run.term, outcomes[k]);
    BegunFacts(id, run.term, next, k + 1);
    forall j | 2 <= j < 2 * k + 4
      ensures !run.effects[j].LeaderStateSet? && !run.effects[j].Rebroadcast?
      ensures !run.effects[j].DumpSent? && !run.effects[j].LeaderCachePut?
    {
      RepairsOnly(id, run.term, next, k + 1, pre, v.0, j);
    }
    assert v.0[0] == LeaderStateSet(outcomes[k].leaderState);
    assert forall t :: 1 <= t < |v.0| ==> !v.0[t].LeaderStateSet?;
    assert forall j :: 2 * k + 4 <= j < |run.effects| ==> run.effects[j] == v.0[j - 2 * k - 4];
  }

  /** An empty restart list: promoted, with nothing rebroadcast and nothing dumped. */
  lemma NoRestartCandidate(id: Identity, interesting: seq<HSId>, next: nat, outcomes: seq<RepairOutcome>, k: nat)
    requires Deciding(outcomes) == Some(k) && outcomes[k].Finished? && outcomes[k].interrupted == []
    ensures var run := PromotionRun(id, interesting, next, outcomes);
      && run.result == Promoted
      && forall j :: 0 <= j < |run.effects| ==> !run.effects[j].Rebroadcast? && !run.effects[j].DumpSent?
  {
    DecidedEffects(id, interesting, next, outcomes, k);
    var run := PromotionRun(id, interesting, next, outcomes);
    var pre := [TermCreated(run.term), TermStarted(run.term)];
    var v := Verdict(id, run.term, outcomes[k]);
    BegunFacts(id, run.term, next, k + 1);
    forall j | 2 <= j < 2 * k + 4
      ensures !run.effects[j].Rebroadcast? && !run.effects[j].DumpSent?
    {
      RepairsOnly(id, run.term, next, k + 1, pre, v.0, j);
    }
    assert forall j :: 2 * k + 4 <= j < |run.effects| ==> run.effects[j] == v.0[j - 2 * k - 4];
  }

  /** Exactly one restart candidate: promoted, and that transaction is rebroadcast exactly once. */
  lemma OneRestartCandidate(id: Identity, interesting: seq<HSId>, next: nat, outcomes: seq<RepairOutcome>, k: nat)
    requires Deciding(outcomes) == Some(k) && outcomes[k].Finished? && |outcomes[k].interrupted| == 1
    ensures var run := PromotionRun(id, interesting, next, outcomes);
      && run.result == Promoted
      && |run.effects| >= 2
      && run.effects[|run.effects| - 2] == Rebroadcast(outcomes[k].interrupted[0])
      && (forall j :: 0 <= j < |run.effects| && run.effects[j].Rebroadcast? ==> j == |run.effects| - 2)
      && (forall j :: 0 <= j < |run.effects| ==> !run.effects[j].DumpSent?)
  {
    DecidedEffects(id, interesting, next, outcomes, k);
    var run := PromotionRun(id, interesting, next, outcomes);
    var pre := [TermCreated(run.term), TermStarted(run.term)];
    var v := Verdict(id, run.term, outcomes[k]);
    BegunFacts(id, run.term, next, k + 1);
    forall j | 2 <= j < 2 * k + 4
      ensures !run.effects[j].Rebroadcast? && !run.effects[j].DumpSent?
    {
      RepairsOnly(id, run.term, next, k + 1, pre, v.0, j);
    }
    assert |v.0| == 3 && v.0[1] == Rebroadcast(outcomes[k].interrupted[0]);
    assert forall j :: 2 * k + 4 <= j < |run.effects| ==> run.effects[j] == v.0[j - 2 * k - 4];
  }

  /**
   * More than one restart candidate is fatal: the dump goes to the term's
   * interesting replicas as the last effect, no candidate is rebroadcast (none
   * is merged or dropped in favour of another) and the leader cache is not written.
   */
  lemma ManyRestartCandidatesAreFatal(id: Identity, interesting: seq<HSId>, next: nat, outcomes: seq<RepairOutcome>, k: nat)
    requires Deciding(outcomes) == Some(k) && outcomes[k].Finished? && |outcomes[k].interrupted| > 1
    ensures var run := PromotionRun(id, interesting, next, outcomes);
      && run.result == Crashed(UnresolvableRepair(outcomes[k].interrupted))
      && |run.effects| >= 1
      && run.effects[|run.effects| - 1] == DumpSent(interesting)
      && forall j :: 0 <= j < |run.effects| ==> !run.effects[j].Rebroadcast? && !run.effects[j].LeaderCachePut?
  {
    DecidedEffects(id, interesting, next, outcomes, k);
    var run := PromotionRun(id, interesting, next, outcomes);
    var pre := [TermCreated(run.term), TermStarted(run.term)];
    var v := Verdict(id, run.term, outcomes[k]);
    BegunFacts(id, run.term, next, k + 1);
    forall j | 2 <= j < 2 * k + 4
      ensures !run.effects[j].Rebroadcast? && !run.effects[j].LeaderCachePut?
    {
      RepairsOnly(id, run.term, next, k + 1, pre, v.0, j);
    }
    assert v.0 == [LeaderStateSet(outcomes[k].leaderState), DumpSent(interesting)];
    assert forall j :: 2 * k + 4 <= j < |run.effects| ==> run.effects[j] == v.0[j - 2 * k - 4];
  }

  /** Where the leader cache write can be: only in the verdict of a deciding round. */
  lemma NoCacheWriteInAttempts(id: Identity, interesting: seq<HSId>, next: nat, outcomes: seq<RepairOutcome>)
    ensures var run := PromotionRun(id, interesting, next, outcomes);
      && 2 + 2 * run.attempts <= |run.effects|
      && forall j :: 0 <= j < 2 + 2 * run.attempts ==> !run.effects[j].LeaderCachePut?
  {
    var run := PromotionRun(id, interesting, next, outcomes);
    var pre := [TermCreated(run.term), TermStarted(run.term)];
    var post := RunShape(id, interesting, next, outcomes);
    forall j | 2 <= j < 2 + 2 * run.attempts ensures !run.effects[j].LeaderCachePut? {
      RepairsOnly(id, run.term, next, run.attempts, pre, post, j);
    }
  }

  /**
   * The leader cache is written if and only if the promotion succeeds; the
   * write publishes this partition's mailbox, is the last effect and happens once.
   */
  lemma LeaderCacheWrittenOnlyOnPromotion(id: Identity, interesting: seq<HSId>, next: nat, outcomes: seq<RepairOutcome>)
    ensures var run := PromotionRun(id, interesting, next, outcomes);
      && ((exists j :: 0 <= j < |run.effects| && run.effects[j].LeaderCachePut?) <==> run.result == Promoted)
      && (run.result == Promoted ==>
            && run.effects[|run.effects| - 1] == LeaderCachePut(id.partitionId, id.mailboxHSId)
            && forall j :: 0 <= j < |run.effects| - 1 ==> !run.effects[j].LeaderCachePut?)
  {
    var run := PromotionRun(id, interesting, next, outcomes);
    NoCacheWriteInAttempts(id, interesting, next, outcomes);
    var m := 2 + 2 * run.attempts;
    match Deciding(outcomes)
    case None =>
      Undecided(id, run.term, next, outcomes);
      BegunFacts(id, run.term, next, |outcomes|);
      assert |run.effects| == m;
    case Some(k) =>
      DecidedEffects(id, interesting, next, outcomes, k);
      BegunFacts(id, run.term, next, k + 1);
      var v := Verdict(id, run.term, outcomes[k]);
      assert forall j :: m <= j < |run.effects| ==> run.effects[j] == v.0[j - m];
      if run.result == Promoted {
        assert v.0[|v.0| - 1] == LeaderCachePut(id.partitionId, id.mailboxHSId);
        assert forall t :: 0 <= t < |v.0| - 1 ==> !v.0[t].LeaderCachePut?;
        assert run.effects[|run.effects| - 1] == v.0[|v.0| - 1];
      } else {
        assert forall t :: 0 <= t < |v.0| ==> !v.0[t].LeaderCachePut?;
      }
  }
}
