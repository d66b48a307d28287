/**
 * The multi-partition initiator: its configuration and the promotion loop
 * that runs when it wins the election for the multi-partition role.
 * Mailbox and leader-cache state are fields updated in place; `log` records
 * every call into a collaborator so that the loop can be proved equal to
 * MpPromotion.PromotionRun.
 */
module MpInitiator {
  import opened Wrappers
  import opened MpPromotion

  class MpInitiator {
    const id: Identity
    /** The backend configure chose for the site, once configured. */
    var backend: Option<Backend>
    /** m_term */
    var term: Option<Term>
    /** How many repair algorithms this initiator has built so far. */
    var algosCreated: nat
    /** The mailbox's active repair algorithm. */
    var repairAlgo: Option<RepairAlgo>
    /** The mailbox's leader state. */
    var leaderState: Option<LeaderState>
    /** The published partition -> leader HSId map, as this initiator writes it. */
    var leaderCache: map<int, HSId>
    /** Calls into collaborators, oldest first. */
    var log: seq<Effect>

    constructor (initiatorHSId: HSId, mailboxHSId: HSId, whoami: string)
      ensures id == Identity(MpInitPid, initiatorHSId, mailboxHSId, whoami)
      ensures backend == None && term == None && algosCreated == 0
      ensures repairAlgo == None && leaderState == None && leaderCache == map[] && log == []
    {
      id := Identity(MpInitPid, initiatorHSId, mailboxHSId, whoami);
      backend := None;
      term := None;
      algosCreated := 0;
      repairAlgo := None;
      leaderState := None;
      leaderCache := map[];
      log := [];
    }

    /**
     * Chooses a non-IPC backend for the site and registers this initiator as
     * a candidate in its partition's election directory.
     */
    method Configure(requested: Backend)
      modifies this
      ensures backend == Some(SiteBackend(requested))
      ensures log == old(log) + [ParticipantRegistered(id.partitionId, id.initiatorHSId)]
      ensures term == old(term) && algosCreated == old(algosCreated) && repairAlgo == old(repairAlgo)
      ensures leaderState == old(leaderState) && leaderCache == old(leaderCache)
    {
      var b := requested;
      if b == NativeEeIpc || b == NativeEeValgrindIpc {
        b := NativeEeJni;
      }
      backend := Some(b);
      log := log + [ParticipantRegistered(id.partitionId, id.initiatorHSId)];
    }

    /** The multi-partition initiator holds no user data to rejoin with. */
    function IsRejoinable(): (r: bool)
      ensures !r
    {
      false
    }

    /**
     * createPromoteAlgo: the three arguments are ignored; the algorithm is
     * built from m_term's interesting replicas, this initiator's mailbox and name.
     */
    function CreatePromoteAlgo(survivors: seq<HSId>, mailboxHSId: HSId, whoami: string): (r: RepairAlgo)
      reads this
      requires term.Some?
      ensures r.survivors == term.value.interesting
      ensures r.mailboxHSId == id.mailboxHSId && r.whoami == id.whoami
      ensures r.instance == algosCreated
    {
      MpPromoteAlgo(algosCreated, term.value.interesting, id.mailboxHSId, id.whoami)
    }

    /**
     * One iteration of acceptPromotion's loop: build a new repair algorithm,
     * install it in the mailbox, start it, and act on its outcome. `success`
     * is the loop's flag; `crash` is the cause when the iteration ends the process.
     */
    method RepairRound(t: Term, outcome: RepairOutcome) returns (success: bool, crash: Option<Cause>)
      requires term == Some(t)
      modifies this
      ensures var algo := Algo(id, t, old(algosCreated));
        && algosCreated == old(algosCreated) + 1
        && repairAlgo == Some(algo)
        && success == (outcome.Finished? && outcome.success)
        && (Failed(outcome) ==>
              && crash == None
              && log == old(log) + [RepairInstalled(algo), RepairStarted(algo)]
              && leaderState == old(leaderState) && leaderCache == old(leaderCache))
        && (!Failed(outcome) ==>
              var v := Verdict(id, t, outcome);
              && log == old(log) + [RepairInstalled(algo), RepairStarted(algo)] + v.0
              && (if v.1.Crashed? then crash == Some(v.1.cause) else crash == None && v.1 == Promoted)
              && leaderState == (if outcome.Finished? then Some(outcome.leaderState) else old(leaderState))
              && leaderCache == (if v.1.Promoted? then old(leaderCache)[id.partitionId := id.mailboxHSId]
                                 else old(leaderCache)))
      ensures Failed(outcome) <==> !success && crash == None
      ensures term == old(term) && backend == old(backend)
    {
      var repair := CreatePromoteAlgo(term.value.interesting, id.mailboxHSId, id.whoami);
      algosCreated := algosCreated + 1;
      repairAlgo := Some(repair);
      log := log + [RepairInstalled(repair)];
      log := log + [RepairStarted(repair)];
      match outcome
      case Threw =>
        success, crash := false, Some(RepairThrew);
      case Finished(ok, state, restartTxns) =>
        success, crash := ok, None;
        if success {
          leaderState := Some(state);
          log := log + [LeaderStateSet(state)];
          if |restartTxns| != 0 {
            if |restartTxns| > 1 {
              log := log + [DumpSent(term.value.interesting)];
              crash := Some(UnresolvableRepair(restartTxns));
              return;
            }
            log := log + [Rebroadcast(restartTxns[0])];
          }
          leaderCache := leaderCache[id.partitionId := id.mailboxHSId];
          log := log + [LeaderCachePut(id.partitionId, id.mailboxHSId)];
        }
    }

    /**
     * acceptPromotion, driven by the outcomes of the successive repair rounds;
     * `interesting` is what the new term reads from the coordination service.
     */
    method AcceptPromotion(interesting: seq<HSId>, outcomes: seq<RepairOutcome>) returns (result: Promotion)
      modifies this
      ensures var run := PromotionRun(id, interesting, old(algosCreated), outcomes);
        && term == Some(run.term)
        && Ended(run, result, old(log), old(algosCreated), old(repairAlgo), old(leaderState), old(leaderCache))
      ensures backend == old(backend)
    {
      var t := CreateTerm(id.partitionId, id.initiatorHSId, id.mailboxHSId, id.whoami, interesting);
      term := Some(t);
      log := log + [TermCreated(t)];
      log := log + [TermStarted(t)];
      result := RepairUntilDecided(t, outcomes);
    }

    /**
     * The state after i failed rounds, counted from the state whose log,
     * algorithm count, repair algorithm, leader state and leader cache were
     * log0, n0, algo0, state0 and cache0.
     */
    ghost predicate Retried(t: Term, i: nat, log0: seq<Effect>, n0: nat, algo0: Option<RepairAlgo>,
                            state0: Option<LeaderState>, cache0: map<int, HSId>)
      reads this
    {
      && log == log0 + Begun(id, t, n0, i)
      && algosCreated == n0 + i
      && repairAlgo == (if i == 0 then algo0 else Some(Algo(id, t, n0 + i - 1)))
      && leaderState == state0 && leaderCache == cache0
    }

    /** The state at the end of `run`, counted from the same starting state. */
    ghost predicate Ended(run: Run, result: Promotion, log0: seq<Effect>, n0: nat, algo0: Option<RepairAlgo>,
                          state0: Option<LeaderState>, cache0: map<int, HSId>)
      reads this
    {
      && result == run.result
      && log == log0 + run.effects
      && algosCreated == n0 + run.attempts
      && repairAlgo == (if run.attempts == 0 then algo0 else Some(Algo(id, run.term, n0 + run.attempts - 1)))
      && leaderState == (if run.leaderState.Some? then run.leaderState else state0)
      && leaderCache == (if result.Promoted? then cache0[id.partitionId := id.mailboxHSId] else cache0)
    }

    /**
     * The `while (!success)` loop of acceptPromotion under the started term
     * `t`; a round that throws or finds several transactions to restart ends it.
     */
    method RepairUntilDecided(t: Term, outcomes: seq<RepairOutcome>) returns (result: Promotion)
      requires term == Some(t)
      modifies this
      ensures Ended(Rounds(id, t, old(algosCreated), outcomes), result,
                    old(log), old(algosCreated), old(repairAlgo), old(leaderState), old(leaderCache))
      ensures term == old(term) && backend == old(backend)
    {
      var decided := false;
      var i := 0;
      result := Retrying;
      while !decided
        invariant 0 <= i <= |outcomes|
        invariant term == Some(t) && backend == old(backend)
        invariant !decided ==> forall j :: 0 <= j < i ==> Failed(outcomes[j])
        invariant !decided ==>
          Retried(t, i, old(log), old(algosCreated), old(repairAlgo), old(leaderState), old(leaderCache))
        invariant !decided ==> result == Retrying
        invariant decided ==> Ended(Rounds(id, t, old(algosCreated), outcomes), result,
                                    old(log), old(algosCreated), old(repairAlgo), old(leaderState), old(leaderCache))
        decreases if decided then 0 else |outcomes| - i + 1
      {
        if i == |outcomes| {
          // the outcomes ran out: the source would go on retrying
          Undecided(id, t, old(algosCreated), outcomes);
          BegunFacts(id, t, old(algosCreated), i);
          return;
        }
        decided, result := Round(t, outcomes, i, old(log), old(algosCreated), old(repairAlgo), old(leaderState), old(leaderCache));
        if !decided {
          i := i + 1;
        }
      }
    }

    /** One turn of that loop: the round at index i, after i failed ones. */
    method Round(t: Term, outcomes: seq<RepairOutcome>, i: nat, ghost log0: seq<Effect>, ghost n0: nat,
                 ghost algo0: Option<RepairAlgo>, ghost state0: Option<LeaderState>, ghost cache0: map<int, HSId>)
      returns (decided: bool, result: Promotion)
      requires term == Some(t) && i < |outcomes|
      requires forall j :: 0 <= j < i ==> Failed(outcomes[j])
      requires Retried(t, i, log0, n0, algo0, state0, cache0)
      modifies this
      ensures term == old(term) && backend == old(backend)
      ensures decided <==> !Failed(outcomes[i])
      ensures !decided ==> result == Retrying
      ensures !decided ==> Retried(t, i + 1, log0, n0, algo0, state0, cache0)
      ensures decided ==> Ended(Rounds(id, t, n0, outcomes), result, log0, n0, algo0, state0, cache0)
    {
      BegunSnoc(id, t, n0, i);
      ghost var before := log;
      var success, crash := RepairRound(t, outcomes[i]);
      decided := success || crash.Some?;
      result := Retrying;
      if decided {
        result := if crash.Some? then Crashed(crash.value) else Promoted;
        // this round decided: promoted, or the process crashes
        DecidingAt(id, t, n0, outcomes, i);
        ghost var v := Verdict(id, t, outcomes[i]);
        assert log == before + [RepairInstalled(Algo(id, t, n0 + i)), RepairStarted(Algo(id, t, n0 + i))] + v.0;
        assert log == log0 + (Begun(id, t, n0, i + 1) + v.0);
      }
    }
  }
}
