/**
 What one tick of the Ethereum monitor does, as a trace of steps: when its loop goes on, when it
 commits, and when it stops. The answers of the world leave it no choice.
 */
module EthTick {
  import opened Words
  import opened Depth
  import opened EthLoop

  /** es[..|es| - 1] */
  function Init<T>(es: seq<T>): seq<T>
    requires es != []
  {
    es[..|es| - 1]
  }

  function Last<T>(es: seq<T>): T
    requires es != []
  {
    es[|es| - 1]
  }

  /**
   After the steps es the loop is at its guard again: every turn handled a block because the guard held,
   and was followed by a commit exactly when the queue had reached the batch size, and that commit did
   not fail.
   */
  ghost predicate AtLoopHead(w: World, height: uint64, batch: int, s: Loop, es: seq<Step>)
    decreases |es|
  {
    es == [] || Turned(w, height, batch, s, es) || CommittedBatch(w, height, batch, s, es)
  }

  /** The last turn handled a block and left the queue below the batch size. */
  ghost predicate Turned(w: World, height: uint64, batch: int, s: Loop, es: seq<Step>)
    requires es != []
    decreases |es|, 0
  {
    && Last(es).Handled? && EthLoopRuns(height, Run(w, s, Init(es)).cur)
    && |Run(w, s, es).queue| < batch
    && AtLoopHead(w, height, batch, s, Init(es))
  }

  /** The last turn handled a block and filled a batch. */
  ghost predicate Filled(w: World, height: uint64, batch: int, s: Loop, es: seq<Step>)
    requires es != []
    decreases |es|, 0
  {
    && Last(es).Handled? && EthLoopRuns(height, Run(w, s, Init(es)).cur)
    && |Run(w, s, es).queue| >= batch
    && AtLoopHead(w, height, batch, s, Init(es))
  }

  /** The last turn filled a batch, and its commit succeeded or rolled back. */
  ghost predicate CommittedBatch(w: World, height: uint64, batch: int, s: Loop, es: seq<Step>)
    requires es != []
    decreases |es|, 1
  {
    (Last(es).Committed? || Last(es).RolledBack?) && |es| >= 2 && Filled(w, height, batch, s, Init(es))
  }

  /**
   The four ways a tick ends before call `until`; `stop` is the call at which it asks for a block it
   cannot handle.
   */
  ghost predicate Done(w: World, height: uint64, batch: int, s: Loop, es: seq<Step>, stop: nat, until: nat) {
    || BlockFailed(w, height, batch, s, es, stop, until)
    || BatchFailed(w, height, batch, s, es)
    || (AtLoopHead(w, height, batch, s, es)
        && !EthLoopRuns(height, Run(w, s, es).cur) && Run(w, s, es).queue == [])
    || CommittedRest(w, height, batch, s, es)
  }

  /** A tick under way: at its guard, or before the commit of a full batch. */
  ghost predicate Going(w: World, height: uint64, batch: int, s: Loop, es: seq<Step>) {
    AtLoopHead(w, height, batch, s, es) || (es != [] && Filled(w, height, batch, s, es))
  }

  /** The next block could not be handled: nothing more is committed. */
  ghost predicate BlockFailed(w: World, height: uint64, batch: int, s: Loop, es: seq<Step>, stop: nat, until: nat) {
    && Run(w, s, es).now <= stop < until
    && AtLoopHead(w, height, batch, s, es) && EthLoopRuns(height, Run(w, s, es).cur)
    && !BlockOk(w, Run(w, s, es).cur + 1, stop)
  }

  /** A batch commit failed: nothing more is handled. */
  ghost predicate BatchFailed(w: World, height: uint64, batch: int, s: Loop, es: seq<Step>) {
    |es| >= 2 && Last(es).CommitFailed? && Filled(w, height, batch, s, Init(es))
  }

  /** The loop ran to the confirmed height, and the headers left over were sent. */
  ghost predicate CommittedRest(w: World, height: uint64, batch: int, s: Loop, es: seq<Step>) {
    && es != [] && !Last(es).Handled? && AtLoopHead(w, height, batch, s, Init(es))
    && !EthLoopRuns(height, Run(w, s, Init(es)).cur) && Run(w, s, Init(es)).queue != []
  }

  // ---- One turn at a time ------------------------------------------------------------------------------------

  /** A turn that handles a block leads back to the guard, or fills a batch. */
  lemma AfterBlock(w: World, height: uint64, batch: int, s: Loop, es: seq<Step>, e: Step)
    requires AtLoopHead(w, height, batch, s, es) && EthLoopRuns(height, Run(w, s, es).cur) && e.Handled?
    ensures if |Run(w, s, es + [e]).queue| < batch then AtLoopHead(w, height, batch, s, es + [e])
            else Filled(w, height, batch, s, es + [e])
  {
    assert Init(es + [e]) == es && Last(es + [e]) == e;
  }

  /** A block that could not be handled ends the tick. */
  lemma StopsAtBlock(w: World, height: uint64, batch: int, s: Loop, es: seq<Step>, stop: nat, until: nat)
    requires AtLoopHead(w, height, batch, s, es) && EthLoopRuns(height, Run(w, s, es).cur)
    requires Run(w, s, es).now <= stop < until && !BlockOk(w, Run(w, s, es).cur + 1, stop)
    ensures Done(w, height, batch, s, es, stop, until)
  {
  }

  /** A batch commit leads back to the guard, or ends the tick if it failed. */
  lemma AfterBatch(w: World, height: uint64, batch: int, s: Loop, es: seq<Step>, e: Step)
    requires es != [] && Filled(w, height, batch, s, es) && !e.Handled?
    ensures if e.CommitFailed? then BatchFailed(w, height, batch, s, es + [e])
            else AtLoopHead(w, height, batch, s, es + [e])
  {
    assert Init(es + [e]) == es && Last(es + [e]) == e;
  }

  /** Sending the headers left over ends the tick. */
  lemma AfterRest(w: World, height: uint64, batch: int, s: Loop, es: seq<Step>, e: Step)
    requires AtLoopHead(w, height, batch, s, es) && !EthLoopRuns(height, Run(w, s, es).cur)
    requires Run(w, s, es).queue != [] && !e.Handled?
    ensures CommittedRest(w, height, batch, s, es + [e])
  {
    assert Init(es + [e]) == es && Last(es + [e]) == e;
  }

  // ---- How a tick ends -------------------------------------------------------------------------------------

  /** At its guard a tick never holds a full batch. */
  lemma {:induction false} BatchIsSent(w: World, height: uint64, batch: int, s: Loop, es: seq<Step>)
    requires AtLoopHead(w, height, batch, s, es) && |s.queue| < batch
    ensures |Run(w, s, es).queue| < batch
    decreases |es|
  {
  }

  /**
   A tick ends for one of three reasons: the block after currentHeight was asked for, in this tick, and its
   header or the synced height was not answered; a commit failed; or no header is left to send and every
   confirmed block was handled, unless the last commit rolled back.
   */
  ghost predicate Finished(w: World, height: uint64, t: Loop, es: seq<Step>, stop: nat, until: nat) {
    || (t.cur < TWO_64 - 1 && t.now <= stop < until
        && (w.rpc.header(stop, t.cur + 1) == [] || w.rpc.synced(stop + 1).None?))
    || (es != [] && es[|es| - 1].CommitFailed?)
    || (t.queue == [] && (height <= t.cur + 3 || (es != [] && es[|es| - 1].RolledBack?)))
  }

  lemma WhyTickEnds(w: World, height: uint64, batch: int, s: Loop, es: seq<Step>, stop: nat, until: nat)
    requires height >= 3 && Done(w, height, batch, s, es, stop, until)
    ensures Finished(w, height, Run(w, s, es), es, stop, until)
  {
  }

  // ---- What follows for every tick -------------------------------------------------------------------------

  /** The heights whose handling is new since s are all at least 3 below the node. */
  ghost predicate NewAreConfirmed(s: Loop, t: Loop, height: uint64) {
    forall h :: h in t.log && (h !in s.log || t.log[h] != s.log[h]) ==> h + 3 <= height
  }

  /** A trace handles only confirmed heights, from node height 3 on. */
  lemma {:induction false} LoopIsConfirmed(w: World, height: uint64, batch: int, s: Loop, es: seq<Step>)
    requires height >= 3 && AtLoopHead(w, height, batch, s, es)
    ensures NewAreConfirmed(s, Run(w, s, es), height)
    decreases |es|
  {
    if es != [] {
      if Turned(w, height, batch, s, es) {
        LoopIsConfirmed(w, height, batch, s, Init(es));
      } else {
        FilledIsConfirmed(w, height, batch, s, Init(es));
      }
    }
  }

  lemma {:induction false} FilledIsConfirmed(w: World, height: uint64, batch: int, s: Loop, es: seq<Step>)
    requires height >= 3 && es != [] && Filled(w, height, batch, s, es)
    ensures NewAreConfirmed(s, Run(w, s, es), height)
    decreases |es|
  {
    LoopIsConfirmed(w, height, batch, s, Init(es));
  }

  lemma TickIsConfirmed(w: World, height: uint64, batch: int, s: Loop, es: seq<Step>, stop: nat, until: nat)
    requires height >= 3
    requires Done(w, height, batch, s, es, stop, until) || Going(w, height, batch, s, es)
    ensures NewAreConfirmed(s, Run(w, s, es), height)
  {
    if AtLoopHead(w, height, batch, s, es) {
      LoopIsConfirmed(w, height, batch, s, es);
    } else if Going(w, height, batch, s, es) {
      FilledIsConfirmed(w, height, batch, s, es);
    } else if BatchFailed(w, height, batch, s, es) {
      FilledIsConfirmed(w, height, batch, s, Init(es));
    } else {
      LoopIsConfirmed(w, height, batch, s, Init(es));
    }
  }

  /** The entries put in Retry along a trace. */
  ghost function AllPuts(w: World, s: Loop, es: seq<Step>): set<bytes>
    decreases |es|
  {
    if es == [] then {}
    else AllPuts(w, s, Init(es)) + StepPuts(w, Run(w, s, Init(es)), Last(es))
  }

  /** The entries step e puts in Retry when taken in state s. */
  ghost function StepPuts(w: World, s: Loop, e: Step): set<bytes> {
    if e.Handled? then FetchPuts(w, Add64(s.cur, 1), e.at + 2) else {}
  }

  /** es is a legal trace from `start` to t, and `held` is `held0` with the entries it put in Retry. */
  ghost predicate Traces(w: World, start: Loop, held0: set<bytes>, es: seq<Step>, t: Loop, held: set<bytes>) {
    Legal(w, start, es) && t == Run(w, start, es) && held == held0 + AllPuts(w, start, es)
  }

  lemma TracesOn(w: World, start: Loop, held0: set<bytes>, es: seq<Step>, t: Loop, held: set<bytes>, e: Step)
    requires Traces(w, start, held0, es, t, held) && Enabled(w, t, e)
    ensures Traces(w, start, held0, es + [e], Do(w, t, e), held + StepPuts(w, t, e))
  {
    RunMore(w, start, es, e);
    var puts := StepPuts(w, t, e);
    assert Init(es + [e]) == es && Last(es + [e]) == e;
    assert AllPuts(w, start, es + [e]) == AllPuts(w, start, es) + puts;
  }

  /** Every height of s handled at call `since` or later is settled by `held`. */
  ghost predicate SettledSince(w: World, s: Loop, since: nat, held: set<bytes>) {
    forall h :: h in s.log && s.log[h] >= since ==> Settled(w, h, s.log[h], held)
  }

  lemma SettledWithMore(w: World, s: Loop, since: nat, held: set<bytes>, more: set<bytes>)
    requires SettledSince(w, s, since, held) && held <= more
    ensures SettledSince(w, s, since, more)
  {
    forall h | h in s.log && s.log[h] >= since ensures Settled(w, h, s.log[h], more) {
      SettledGrows(w, h, s.log[h], held, more);
    }
  }

  lemma StepSettles(w: World, s: Loop, since: nat, held: set<bytes>, e: Step)
    requires Enabled(w, s, e) && SettledSince(w, s, since, held)
    ensures SettledSince(w, Do(w, s, e), since, held + StepPuts(w, s, e))
  {
    var t, more := Do(w, s, e), held + StepPuts(w, s, e);
    forall h | h in t.log && t.log[h] >= since ensures Settled(w, h, t.log[h], more) {
      if e.Handled? && h == t.cur {
        FetchSettles(w, h, e.at, more);
      } else {
        SettledGrows(w, h, s.log[h], held, more);
      }
    }
  }

  /**
   Every height handled along a trace is settled by the entries the trace put in Retry: each target
   event the node answered for it is among them, or was answered to be relayed, or was refused.
   */
  lemma {:induction false} TraceSettles(w: World, s: Loop, es: seq<Step>)
    requires LogInv(s) && Legal(w, s, es)
    ensures LogInv(Run(w, s, es)) && s.now <= Run(w, s, es).now
    ensures SettledSince(w, Run(w, s, es), s.now, AllPuts(w, s, es))
    decreases |es|
  {
    if es != [] {
      TraceSettles(w, s, Init(es));
      StepMovesOn(w, Run(w, s, Init(es)), Last(es));
      StepSettles(w, Run(w, s, Init(es)), s.now, AllPuts(w, s, Init(es)), Last(es));
    }
  }

  /** Every height of s handled at call `since` or later had its header and the synced height answered. */
  ghost predicate AnsweredSince(w: World, s: Loop, since: nat) {
    forall h :: h in s.log && s.log[h] >= since ==> w.rpc.header(s.log[h], h) != [] && w.rpc.synced(s.log[h] + 1).Some?
  }

  lemma StepIsAnswered(w: World, s: Loop, since: nat, e: Step)
    requires Enabled(w, s, e) && AnsweredSince(w, s, since)
    ensures AnsweredSince(w, Do(w, s, e), since)
  {
    if e.Handled? {
      HandledQueues(w, s, e.at);
    }
  }

  lemma {:induction false} TraceIsAnswered(w: World, s: Loop, es: seq<Step>)
    requires LogInv(s) && Legal(w, s, es)
    ensures AnsweredSince(w, Run(w, s, es), s.now)
    decreases |es|
  {
    if es != [] {
      TraceIsAnswered(w, s, Init(es));
      StepIsAnswered(w, Run(w, s, Init(es)), s.now, Last(es));
    }
  }

  // ---- How header syncing stalls ------------------------------------------------------------------------------

  lemma NeverFilled(w: World, height: uint64, batch: int, s: Loop, synced: uint64, es: seq<Step>)
    requires batch >= 2 && AtMostOne(s, synced) && Legal(w, s, es) && OwnCommitsOnly(w, s, synced, es)
    ensures es != [] ==> !Filled(w, height, batch, s, es)
  {
    QueueHoldsAtMostOne(w, s, synced, es);
  }

  /** With own commits only, the queue never fills a batch of two: the loop of a tick commits nothing. */
  lemma {:induction false} BatchNeverFires(w: World, height: uint64, batch: int, s: Loop, synced: uint64, es: seq<Step>)
    requires batch >= 2 && AtMostOne(s, synced) && Legal(w, s, es) && OwnCommitsOnly(w, s, synced, es)
    requires AtLoopHead(w, height, batch, s, es)
    ensures (forall i :: 0 <= i < |es| ==> es[i].Handled?) && SyncedAtEnd(w, s, synced, es) == synced
    decreases |es|
  {
    if es != [] {
      NeverFilled(w, height, batch, s, synced, Init(es));
      assert Turned(w, height, batch, s, es);
      BatchNeverFires(w, height, batch, s, synced, Init(es));
      assert forall i :: 0 <= i < |es| - 1 ==> es[i] == Init(es)[i];
    }
  }

  /**
   A tick that handles two blocks or more past the synced height and then commits what is left stops
   header syncing: the queue is empty and currentHeight has passed the synced height for good.
   */
  lemma StallingTick(w: World, height: uint64, batch: int, s: Loop, synced: uint64, es: seq<Step>)
    requires batch >= 2 && AtMostOne(s, synced) && Legal(w, s, es) && OwnCommitsOnly(w, s, synced, es)
    requires CommittedRest(w, height, batch, s, es) && Last(es).Committed?
    requires Run(w, s, es).cur >= synced + 2
    ensures Run(w, s, es).queue == [] && SyncedAtEnd(w, s, synced, es) < Run(w, s, es).cur
    ensures SyncedAtEnd(w, s, synced, es) < TWO_64 - 1 ==>
              !CanSync(Run(w, s, es), SyncedAtEnd(w, s, synced, es))
  {
    BatchNeverFires(w, height, batch, s, synced, Init(es));
    QueueHoldsAtMostOne(w, s, synced, Init(es));
    if SyncedAtEnd(w, s, synced, es) < TWO_64 - 1 {
      CanSyncIff(Run(w, s, es), SyncedAtEnd(w, s, synced, es));
    }
  }

  // ---- A batch of one never stalls --------------------------------------------------------------------------

  /** No header waits, and currentHeight has not passed the synced height. */
  ghost predicate KeepsUp(s: Loop, synced: uint64) {
    s.queue == [] && s.cur <= synced
  }

  lemma {:induction false} OneByOne(w: World, height: uint64, batch: int, s: Loop, synced: uint64, es: seq<Step>)
    requires batch <= 1 && KeepsUp(s, synced) && synced < TWO_64 - 1
    requires Legal(w, s, es) && OwnCommitsOnly(w, s, synced, es) && forall e :: e in es ==> !e.RolledBack?
    requires AtLoopHead(w, height, batch, s, es)
    ensures KeepsUp(Run(w, s, es), SyncedAtEnd(w, s, synced, es))
    decreases |es|, 0
  {
    if es != [] {
      assert Last(es) in es;
      if CommittedBatch(w, height, batch, s, es) {
        OneFilled(w, height, batch, s, synced, Init(es));
      } else {
        OneByOne(w, height, batch, s, synced, Init(es));
      }
    }
  }

  /** A filled batch is the one next header, and currentHeight is its height. */
  lemma {:induction false} OneFilled(w: World, height: uint64, batch: int, s: Loop, synced: uint64, es: seq<Step>)
    requires batch <= 1 && KeepsUp(s, synced) && synced < TWO_64 - 1 && es != []
    requires Legal(w, s, es) && OwnCommitsOnly(w, s, synced, es) && forall e :: e in es ==> !e.RolledBack?
    requires Filled(w, height, batch, s, es)
    ensures var t := Run(w, s, es);
      t.queue == [] ==> KeepsUp(t, SyncedAtEnd(w, s, synced, es))
    ensures var t := Run(w, s, es);
      t.queue != [] ==> t.queue == [t.cur] && SyncedAtEnd(w, s, synced, es) + 1 == t.cur
    decreases |es|, 1
  {
    OneByOne(w, height, batch, s, synced, Init(es));
  }

  /**
   With HeadersPerBatch of 1 or less the stall does not arise: a tick that starts with no header waiting
   and currentHeight not past the synced height leaves header syncing possible.
   */
  lemma SmallBatchKeepsSyncing(w: World, height: uint64, batch: int, s: Loop, synced: uint64, es: seq<Step>,
                               stop: nat, until: nat)
    requires batch <= 1 && KeepsUp(s, synced) && synced < TWO_64 - 1
    requires Legal(w, s, es) && OwnCommitsOnly(w, s, synced, es) && forall e :: e in es ==> !e.RolledBack?
    requires Done(w, height, batch, s, es, stop, until) && SyncedAtEnd(w, s, synced, es) < TWO_64 - 1
    ensures CanSync(Run(w, s, es), SyncedAtEnd(w, s, synced, es))
  {
    QueueHoldsAtMostOne(w, s, synced, es);
    CanSyncIff(Run(w, s, es), SyncedAtEnd(w, s, synced, es));
    if AtLoopHead(w, height, batch, s, es) {
      OneByOne(w, height, batch, s, synced, es);
    } else if BatchFailed(w, height, batch, s, es) {
      OneFilled(w, height, batch, s, synced, Init(es));
    } else {
      OneByOne(w, height, batch, s, synced, Init(es));
    }
  }
}
