/**
 The Ethereum side of the relayer: MonitorChain and what it calls. Every answer of a node or of the
 store is an oracle indexed by `now`, the number of calls made so far.
 */
module EthManager {
  import opened Words
  import opened CrossTransfers
  import opened Depth
  import opened EthLoop
  import opened EthTick
  import DB

  /**
   How far a tick is followed: until the process is killed, once it has made `at` calls, or to its end.
   The second needs a lasting common ancestor `anc`, no header above `top`, and finitely many rollbacks
   and failed lookups, all before call `quiet`; without them a tick may go on for ever.
   */
  datatype Horizon = Killed(at: nat) | Lasting(anc: uint64, quiet: nat, top: uint64)

  class EthereumManager {
    const w: World
    const headersPerBatch: int
    const forceHeight: uint64
    const db: DB.BoltDB
    var currentHeight: uint64
    var header4sync: seq<bytes>
    var now: nat
    ghost var view: Loop  // this loop as the transition system sees it

    ghost predicate Valid()
      reads this
    {
      && view.cur == currentHeight && header4sync == Headers(w, view) && view.now <= now
      && LogInv(view) && QueueInv(view)
    }

    /** `before` is where an earlier process left off, after `clock` calls. */
    constructor (w: World, headersPerBatch: int, start: uint64, force: uint64, db: DB.BoltDB, clock: nat, ghost before: Loop)
      requires before.now <= clock && LogInv(before)
      ensures Valid() && currentHeight == start && header4sync == [] && now == clock
      ensures this.w == w && this.headersPerBatch == headersPerBatch
      ensures this.forceHeight == force && this.db == db
      ensures view == before.(cur := start, queue := [])
    {
      this.w, this.headersPerBatch, forceHeight, this.db := w, headersPerBatch, force, db;
      currentHeight, header4sync, now := start, [], clock;
      view := before.(cur := start, queue := []);
    }

    /** The start height: the bridge's synced height, or an earlier height forced by a flag. */
    method Init() returns (ok: bool)
      requires Valid() && header4sync == []
      modifies this`now, this`currentHeight, this`view
      ensures Valid() && now == old(now) + 1
      ensures ok <==> w.rpc.synced(old(now)).Some? && w.rpc.synced(old(now)).value != 0
      ensures ok ==> currentHeight <= w.rpc.synced(old(now)).value
      ensures ok && (forceHeight == 0 || forceHeight >= w.rpc.synced(old(now)).value) ==>
                currentHeight == w.rpc.synced(old(now)).value
      ensures ok && 0 < forceHeight <= w.rpc.synced(old(now)).value ==> currentHeight == forceHeight
      ensures ok <==> StartOf(w, forceHeight, old(now)).Some?
      ensures view == if ok then Restarted(w, old(view), forceHeight, old(now)) else old(view)
    {
      var latest := w.rpc.synced(now);
      now := now + 1;
      if latest.None? || latest.value == 0 {
        return false;
      }
      if forceHeight > 0 && forceHeight < latest.value {
        currentHeight := forceHeight;
      } else {
        currentHeight := latest.value;
      }
      view := Restarted(w, view, forceHeight, now - 1);
      ok := true;
    }

    /** The filter on an event's contract and destination chain. */
    method IsTarget(ev: LockEvent) returns (isTarget: bool)
      ensures isTarget <==> Target(w.targets, ev)
      ensures isTarget <==>
        || w.targets == []
        || exists i :: 0 <= i < |w.targets| && ev.contract in w.targets[i]
             && (OUTBOUND !in w.targets[i][ev.contract] || w.targets[i][ev.contract][OUTBOUND] == []
                 || ev.toChain in w.targets[i][ev.contract][OUTBOUND])
    {
      if |w.targets| == 0 {
        return true;
      }
      isTarget := false;
      for i := 0 to |w.targets|
        invariant isTarget <==> exists j :: 0 <= j < i && Admits(w.targets[j], ev)
      {
        var v := w.targets[i];
        if ev.contract in v {
          var ids := Outbound(v[ev.contract]);
          if |ids| == 0 {
            return true;
          }
          for k := 0 to |ids|
            invariant !isTarget
            invariant ev.toChain !in ids[..k]
          {
            if ids[k] == ev.toChain {
              assert Admits(w.targets[i], ev);
              return true;
            }
            assert ids[..k + 1] == ids[..k] + [ids[k]];
          }
          assert ids[..|ids|] == ids;
          assert !Admits(w.targets[i], ev);
        }
      }
    }

    /** Handles one event of a block: filters it, looks it up on the bridge, or records it in Retry. */
    method RecordEvent(ev: LockEvent, height: uint64) returns (out: Outcome)
      modifies this`now, db`retry
      ensures out == OutcomeAt(w, ev, old(now)) && now == old(now) + CallsAt(w, ev, old(now))
      ensures out.Ignored? <==> !Target(w.targets, ev)
      ensures out.PutDone? <==>
        Target(w.targets, ev) && !w.rpc.relayed(old(now), ev.txHash) && w.rpc.stored(old(now) + 1)
      ensures out.PutRefused? <==>
        Target(w.targets, ev) && !w.rpc.relayed(old(now), ev.txHash) && !w.rpc.stored(old(now) + 1)
      ensures db.retry == if out.PutDone? then old(db.retry) + {EntryOf(ev, height)} else old(db.retry)
    {
      var isTarget := IsTarget(ev);
      if !isTarget {
        return Ignored;
      }
      var relayed := w.rpc.relayed(now, ev.txHash);
      now := now + 1;
      if relayed {
        return AlreadyRelayed;
      }
      var crossTx := Deposit(ev, height);
      var sink := new ZeroCopySink();
      Serialization(crossTx, sink);
      assert sink.buf == EntryOf(ev, height);
      var ok := db.PutRetry(sink.buf, w.rpc.stored(now));
      now := now + 1;
      out := if ok then PutDone else PutRefused;
    }

    /** The events of one block, in order; Retry gains exactly the entries the answers let it put. */
    method FetchLockDepositEvents(height: uint64) returns (ok: bool)
      modifies this`now, db`retry
      ensures ok <==> w.rpc.events(old(now), height).Some?
      ensures now == FetchEnd(w, height, old(now)) && now > old(now)
      ensures db.retry == old(db.retry) + FetchPuts(w, height, old(now))
    {
      var events := w.rpc.events(now, height);
      now := now + 1;
      if events.None? {
        return false;
      }
      var evs := events.value;
      ghost var first := now;
      for i := 0 to |evs|
        invariant now == EventCall(w, evs, i, first)
        invariant db.retry == old(db.retry) + PutsUpTo(w, evs, i, first, height)
      {
        var _ := RecordEvent(evs[i], height);
      }
      EventCallGrows(w, evs, |evs|, first);
      ok := true;
    }

    /** Queues the header exactly when it is the next one the bridge wants. */
    method HandleBlockHeader(height: uint64) returns (ok: bool)
      modifies this`now, this`header4sync
      ensures ok <==> w.rpc.header(old(now), height) != [] && w.rpc.synced(old(now) + 1).Some?
      ensures if ok then now == old(now) + 2 else now > old(now)
      ensures header4sync == if ok && w.rpc.synced(old(now) + 1).value == Sub64(height, 1)
                             then old(header4sync) + [w.rpc.header(old(now), height)]
                             else old(header4sync)
    {
      var hdrStr := w.rpc.header(now, height);
      now := now + 1;
      if |hdrStr| == 0 {
        return false;
      }
      var latestHeight := w.rpc.synced(now);
      now := now + 1;
      if latestHeight.None? {
        return false;
      }
      if Add64(latestHeight.value, 1) == height {
        header4sync := header4sync + [hdrStr];
      }
      ok := true;
    }

    /** One block. A failed fetch of its events is reported but does not stop the loop. */
    method HandleNewBlock(height: uint64) returns (ok: bool)
      requires Valid() && height == currentHeight + 1
      modifies this`now, this`header4sync, this`view, db`retry
      ensures now > old(now)
      ensures ok <==> w.rpc.header(old(now), height) != [] && w.rpc.synced(old(now) + 1).Some?
      ensures !ok ==> Valid() && view == old(view) && db.retry == old(db.retry) && header4sync == old(header4sync)
      ensures ok ==> Enabled(w, old(view), Handled(old(now))) && view == Do(w, old(view), Handled(old(now)))
      ensures ok ==> header4sync == Headers(w, view) && view.now == now && LogInv(view) && QueueInv(view)
      ensures ok ==> db.retry == old(db.retry) + StepPuts(w, old(view), Handled(old(now)))
    {
      ghost var at := now;
      ok := HandleBlockHeader(height);
      if !ok {
        return;
      }
      var _ := FetchLockDepositEvents(height);
      Advance(height, at);
    }

    /** The transition system takes the step of the block just handled. */
    ghost method Advance(height: uint64, at: nat)
      requires height == view.cur + 1 && BlockOk(w, height, at) && view.now <= at && LogInv(view) && QueueInv(view)
      requires now == FetchEnd(w, height, at + 2)
      requires header4sync == if Wanted(w, height, at) then Headers(w, view) + [w.rpc.header(at, height)]
                              else Headers(w, view)
      modifies this`view
      ensures Enabled(w, old(view), Handled(at)) && view == Do(w, old(view), Handled(at)) && view.now == now
      ensures StepPuts(w, old(view), Handled(at)) == FetchPuts(w, height, at + 2)
      ensures header4sync == Headers(w, view) && LogInv(view) && QueueInv(view)
    {
      BlockStep(w, view, at);
      view := Do(w, view, Handled(at));
    }

    // ---- Rollback -------------------------------------------------------------------------------------

    /** From call t on, the bridge header at h is always found and never contradicted. */
    ghost predicate Ancestor(h: uint64, t: nat) {
      && (forall u: nat :: u >= t ==> w.rpc.bridgeHash(u, h).Some?)
      && (forall u: nat, v: nat :: u >= t && v >= t && w.rpc.ethHash(v, h).Some? ==>
            w.rpc.ethHash(v, h) == w.rpc.bridgeHash(u, h))
    }

    /** From call `quiet` on no Ethereum header up to `top` fails to be found, and no commit misses its parent. */
    ghost predicate QuietFrom(quiet: nat, top: uint64) {
      && (forall t: nat, h: uint64 :: t >= quiet && h <= top ==> w.rpc.ethHash(t, h).Some?)
      && (forall t: nat, hdrs :: t >= quiet ==> !w.rpc.commit(t, hdrs).ParentMissing?)
    }

    /** The Ethereum node never has a header above `top`. */
    ghost predicate Tip(top: uint64) {
      forall t: nat, h: uint64 :: h > top ==> w.rpc.header(t, h) == []
    }

    /** What the horizon says from here on. */
    ghost predicate Holds(z: Horizon)
      reads this
    {
      z.Lasting? ==>
        z.anc <= currentHeight <= z.top && Ancestor(z.anc, now) && QuietFrom(z.quiet, z.top) && Tip(z.top)
    }

    /**
     The work was cut short between calls lo and hi: the process was killed, or a rollback found no match
     down to height 0.
     */
    ghost predicate Cut(z: Horizon, lo: nat, hi: nat) {
      z.Killed? && (z.at <= hi || Passed(w, 0, lo, hi))
    }

    function Rest(end: nat, t: nat): nat {
      if t < end then end - t else 0
    }

    /**
     Walks down to a height where both chains agree. A failed Ethereum lookup retries the same height.
     */
    method RollBackToCommAncestor(z: Horizon) returns (found: bool)
      requires Valid() && Holds(z)
      modifies this`now, this`currentHeight, this`header4sync
      ensures now >= old(now) && currentHeight <= old(currentHeight) && (z.Lasting? ==> z.anc <= currentHeight)
      ensures AllPassed(w, currentHeight, old(currentHeight), old(now), now)
      ensures if found then Matches(w, currentHeight, old(now), now) && header4sync == []
              else Cut(z, old(now), now) && header4sync == old(header4sync)
    {
      while z.Lasting? || now < z.at
        invariant currentHeight <= old(currentHeight) && now >= old(now) && (z.Lasting? ==> z.anc <= currentHeight)
        invariant AllPassed(w, currentHeight, old(currentHeight), old(now), now) && header4sync == old(header4sync)
        decreases currentHeight, Rest(if z.Killed? then z.at else z.quiet, now)
      {
        ghost var t, was := now, currentHeight;
        var raw := w.rpc.bridgeHash(now, currentHeight);
        now := now + 1;
        if raw.None? {
          if currentHeight == 0 {
            StillPassed(was, old(currentHeight), old(now), t, now);
            return false;
          }
          currentHeight := currentHeight - 1;
          OnePassed(was, old(currentHeight), old(now), t, now);
          continue;
        }
        var hdr := w.rpc.ethHash(now, currentHeight);
        now := now + 1;
        StillPassed(was, old(currentHeight), old(now), t, now);
        if hdr.None? {
          continue;
        }
        if hdr.value == raw.value {
          assert w.rpc.ethHash(t + 1, currentHeight) == w.rpc.bridgeHash(t, currentHeight);
          header4sync := [];
          return true;
        }
        if currentHeight == 0 {
          return false;
        }
        currentHeight := currentHeight - 1;
        OnePassed(was, old(currentHeight), old(now), t, now);
      }
      found := false;
    }

    lemma StillPassed(h: uint64, top: uint64, lo: nat, t: nat, hi: nat)
      requires t <= hi && AllPassed(w, h, top, lo, t)
      ensures AllPassed(w, h, top, lo, hi)
    {
      forall k: uint64 | h < k <= top ensures Passed(w, k, lo, hi) {
        assert Passed(w, k, lo, t);
      }
    }

    lemma OnePassed(h: uint64, top: uint64, lo: nat, t: nat, hi: nat)
      requires lo <= t < hi && 0 < h && AllPassed(w, h, top, lo, t)
      requires w.rpc.bridgeHash(t, h).None? ||
               (t + 1 < hi && w.rpc.ethHash(t + 1, h).Some? && w.rpc.ethHash(t + 1, h) != w.rpc.bridgeHash(t, h))
      ensures AllPassed(w, h - 1, top, lo, hi)
    {
      forall k: uint64 | h - 1 < k <= top ensures Passed(w, k, lo, hi) {
        if k > h {
          assert Passed(w, k, lo, t);
        }
      }
    }

    /**
     Sends the queued headers; the confirmation wait is one answer. 0 is success or a rollback. If the
     rollback is cut short, nothing has happened yet as far as the trace is concerned.
     */
    method CommitHeader(z: Horizon) returns (res: int, cut: bool, ghost step: Step)
      requires Valid() && Holds(z)
      modifies this`now, this`currentHeight, this`header4sync, this`view
      ensures now > old(now)
      ensures cut ==> Cut(z, old(now), now) && view == old(view) && w.rpc.commit(old(now), old(header4sync)).ParentMissing?
      ensures !cut ==> Valid() && Holds(z) && step.at == old(now) && !step.Handled? && (res != 0 <==> step.CommitFailed?)
      ensures !cut ==> Enabled(w, old(view), step) && view == Do(w, old(view), step)
      ensures !cut ==> match w.rpc.commit(old(now), old(header4sync))
                       case Confirmed => step.Committed?
                       case ParentMissing => step.RolledBack?
                       case Failed => step.CommitFailed?
      ensures !cut && z.Lasting? && old(now) >= z.quiet ==> currentHeight == old(currentHeight)
    {
      var reply := w.rpc.commit(now, header4sync);
      ghost var at := now;
      now, cut, step := now + 1, false, CommitFailed(at);
      if reply.ParentMissing? {
        var found := RollBackToCommAncestor(z);
        if !found {
          return 0, true, step;
        }
        step := RolledBack(at, now, currentHeight);
        view := Do(w, view, step);
        return 0, false, step;
      }
      if reply.Failed? {
        view := Do(w, view, step);
        return 1, false, step;
      }
      header4sync := [];
      step := Committed(at);
      view := Do(w, view, step);
      return 0, false, step;
    }

    // ---- One tick of MonitorChain ------------------------------------------------------------------------

    /** es is a legal trace from `start` to here, and accounts for all of Retry beyond `retry0`. */
    ghost predicate Traced(start: Loop, retry0: set<bytes>, es: seq<Step>)
      reads this, db
    {
      Traces(w, start, retry0, es, view, db.retry)
    }

    /** The answer a tick starts from sends it into its loop. */
    ghost predicate Proceeds(t: nat, cur: uint64) {
      w.rpc.nodeHeight(t).Some? && EthTickProceeds(w.rpc.nodeHeight(t).value, cur)
    }

    /**
     One tick. Without a node height, or too close to it, nothing happens. Otherwise the tick ends in one
     of the ways of EthTick.Done: it goes on while blocks can be handled and are confirmed, commits when
     a batch is full and at the end, and stops early only at a block that was not answered or a commit
     that failed. Ended or killed, every target deposit answered at a height it handled is in Retry, or
     was answered to be relayed, or was refused by the store.
     */
    method Tick(z: Horizon) returns (ended: bool, ghost es: seq<Step>, ghost stop: nat)
      requires Valid() && Holds(z)
      modifies this`now, this`currentHeight, this`header4sync, this`view, db`retry
      ensures now > old(now) && Traced(old(view), old(db.retry), es)
      ensures z.Lasting? ==> ended && Holds(z)
      ensures ended ==> Valid()
      ensures w.rpc.nodeHeight(old(now)).None? ==> ended && es == []
      ensures w.rpc.nodeHeight(old(now)).Some? ==>
                (old(currentHeight) <= w.rpc.nodeHeight(old(now)).value <= old(currentHeight) + 3 ==> ended && es == [])
      ensures if !Proceeds(old(now), old(currentHeight)) then ended && es == []
              else if ended then Done(w, w.rpc.nodeHeight(old(now)).value, headersPerBatch, old(view), es, stop, now)
                                 && old(now) < stop
              else Cut(z, old(now), now) && Going(w, w.rpc.nodeHeight(old(now)).value, headersPerBatch, old(view), es)
      ensures SettledSince(w, view, old(view.now), db.retry) && AnsweredSince(w, view, old(view.now))
      ensures Proceeds(old(now), old(currentHeight)) && w.rpc.nodeHeight(old(now)).value >= 3 ==>
                NewAreConfirmed(old(view), view, w.rpc.nodeHeight(old(now)).value)
                && (ended ==> Finished(w, w.rpc.nodeHeight(old(now)).value, view, es, stop, now))
    {
      ended, es, stop := true, [], now + 1;
      var node := w.rpc.nodeHeight(now);
      now := now + 1;
      if node.None? {
        return;
      }
      var height := node.value;
      if !EthTickProceeds(height, currentHeight) {
        return;
      }
      ended, es, stop := RunLoop(z, height);
      TraceSettles(w, old(view), es);
      TraceIsAnswered(w, old(view), es);
      SettledWithMore(w, view, old(view).now, AllPuts(w, old(view), es), db.retry);
      if height >= 3 {
        TickIsConfirmed(w, height, headersPerBatch, old(view), es, stop, now);
        if ended {
          WhyTickEnds(w, height, headersPerBatch, old(view), es, stop, now);
        }
      }
    }

    /** The loop of a tick and the commit after it. */
    method RunLoop(z: Horizon, height: uint64) returns (ended: bool, ghost es: seq<Step>, ghost stop: nat)
      requires Valid() && Holds(z)
      modifies this`now, this`currentHeight, this`header4sync, this`view, db`retry
      ensures now >= old(now) && Traced(old(view), old(db.retry), es)
      ensures z.Lasting? ==> ended && Holds(z)
      ensures if ended
              then Valid() && Done(w, height, headersPerBatch, old(view), es, stop, now) && old(now) <= stop
              else Cut(z, old(now), now) && Going(w, height, headersPerBatch, old(view), es)
    {
      var result;
      result, ended, es, stop := HandleBlocks(z, height);
      if ended && result && |header4sync| > 0 {
        ended, es := CommitRest(z, height, old(view), old(db.retry), es);
      }
    }

    /** The loop: a result means that its guard ended it, and otherwise the tick is over. */
    method HandleBlocks(z: Horizon, height: uint64)
      returns (result: bool, ended: bool, ghost es: seq<Step>, ghost stop: nat)
      requires Valid() && Holds(z)
      modifies this`now, this`currentHeight, this`header4sync, this`view, db`retry
      ensures now >= old(now) && Traced(old(view), old(db.retry), es) && old(now) <= stop
      ensures z.Lasting? ==> ended && Holds(z)
      ensures ended ==> Valid()
      ensures After(z, height, old(view), es, result, ended, old(now), stop, now)
      ensures result && ended ==> !EthLoopRuns(height, currentHeight)
    {
      result, ended, es, stop := true, true, [], now;
      while EthLoopRuns(height, currentHeight)
        invariant result && ended && Valid() && Holds(z) && old(now) <= stop <= now
        invariant Traced(old(view), old(db.retry), es) && AtLoopHead(w, height, headersPerBatch, old(view), es)
        decreases Rest(if z.Killed? then z.at else z.quiet, now), if z.Killed? then 0 else TWO_64 - currentHeight
      {
        if z.Killed? && z.at <= now {
          ended := false;
          return;
        }
        result, ended, es, stop := Turn(z, height, old(view), old(db.retry), es);
        if !result || !ended {
          return;
        }
      }
    }

    /** The commit of the headers left over. */
    method CommitRest(z: Horizon, ghost height: uint64, ghost start: Loop, ghost retry0: set<bytes>, ghost es: seq<Step>)
      returns (ended: bool, ghost more: seq<Step>)
      requires Valid() && Holds(z) && Traced(start, retry0, es) && |header4sync| > 0
      requires AtLoopHead(w, height, headersPerBatch, start, es) && !EthLoopRuns(height, currentHeight)
      modifies this`now, this`currentHeight, this`header4sync, this`view
      ensures now > old(now) && Traced(start, retry0, more) && (z.Lasting? ==> ended && Holds(z))
      ensures if ended then Valid() && CommittedRest(w, height, headersPerBatch, start, more)
              else Cut(z, old(now), now) && more == es
    {
      var ok;
      ok, ended, more := Commit(z, start, retry0, es);
      if ended {
        AfterRest(w, height, headersPerBatch, start, es, more[|es|]);
      }
    }

    /** One turn of the loop; without a result the tick is over. */
    method Turn(z: Horizon, ghost height: uint64, ghost start: Loop, ghost retry0: set<bytes>, ghost es: seq<Step>)
      returns (result: bool, ended: bool, ghost more: seq<Step>, ghost stop: nat)
      requires Valid() && Holds(z) && Traced(start, retry0, es)
      requires AtLoopHead(w, height, headersPerBatch, start, es) && EthLoopRuns(height, currentHeight)
      modifies this`now, this`currentHeight, this`header4sync, this`view, db`retry
      ensures now > old(now) && Traced(start, retry0, more) && stop == old(now)
      ensures z.Lasting? ==> ended && Holds(z)
      ensures ended ==> Valid()
      ensures After(z, height, start, more, result, ended, old(now), stop, now)
      ensures result && ended && z.Lasting? && old(now) >= z.quiet ==> currentHeight > old(currentHeight)
    {
      stop, ended := now, true;
      result, more := HandleNext(z, start, retry0, es);
      if !result {
        StopsAtBlock(w, height, headersPerBatch, start, es, stop, now);
        return;
      }
      AfterBlock(w, height, headersPerBatch, start, es, Handled(stop));
      if |header4sync| >= headersPerBatch {
        result, ended, more := CommitBatch(z, height, start, retry0, more, stop);
      }
    }

    /** Where the calls from lo to hi leave the tick: cut short, at the guard again, or over. */
    ghost predicate After(z: Horizon, height: uint64, start: Loop, es: seq<Step>, result: bool, ended: bool,
                          lo: nat, stop: nat, hi: nat) {
      if !ended then Cut(z, lo, hi) && Going(w, height, headersPerBatch, start, es)
      else if result then AtLoopHead(w, height, headersPerBatch, start, es)
      else Done(w, height, headersPerBatch, start, es, stop, hi)
    }

    /** The commit of a full batch, in the turn that began at call lo. */
    method CommitBatch(z: Horizon, ghost height: uint64, ghost start: Loop, ghost retry0: set<bytes>, ghost es: seq<Step>,
                       ghost lo: nat)
      returns (ok: bool, ended: bool, ghost more: seq<Step>)
      requires Valid() && Holds(z) && Traced(start, retry0, es) && lo <= now
      requires es != [] && Filled(w, height, headersPerBatch, start, es)
      modifies this`now, this`currentHeight, this`header4sync, this`view
      ensures now > old(now) && Traced(start, retry0, more) && (z.Lasting? ==> ended && Holds(z))
      ensures ended ==> Valid()
      ensures After(z, height, start, more, ok, ended, lo, lo, now)
      ensures ended && z.Lasting? && old(now) >= z.quiet ==> currentHeight == old(currentHeight)
    {
      ok, ended, more := Commit(z, start, retry0, es);
      if ended {
        AfterBatch(w, height, headersPerBatch, start, es, more[|es|]);
      }
    }

    /** Handles the next block, with its step added to the trace. */
    method HandleNext(z: Horizon, ghost start: Loop, ghost retry0: set<bytes>, ghost es: seq<Step>)
      returns (ok: bool, ghost more: seq<Step>)
      requires Valid() && Holds(z) && Traced(start, retry0, es) && currentHeight < TWO_64 - 1
      modifies this`now, this`currentHeight, this`header4sync, this`view, db`retry
      ensures Valid() && Holds(z) && Traced(start, retry0, more) && now > old(now)
      ensures ok <==> w.rpc.header(old(now), old(currentHeight) + 1) != [] && w.rpc.synced(old(now) + 1).Some?
      ensures !ok ==> header4sync == old(header4sync) && db.retry == old(db.retry)
      ensures currentHeight == old(currentHeight) + if ok then 1 else 0
      ensures more == if ok then es + [Handled(old(now))] else es
    {
      ghost var at := now;
      more := es;
      ok := HandleNewBlock(currentHeight + 1);
      if ok {
        currentHeight := currentHeight + 1;
        TracesOn(w, start, retry0, es, old(view), old(db.retry), Handled(at));
        more := es + [Handled(at)];
      }
    }

    /** CommitHeader, with its step added to the trace. */
    method Commit(z: Horizon, ghost start: Loop, ghost retry0: set<bytes>, ghost es: seq<Step>)
      returns (ok: bool, ended: bool, ghost more: seq<Step>)
      requires Valid() && Holds(z) && Traced(start, retry0, es)
      modifies this`now, this`currentHeight, this`header4sync, this`view
      ensures now > old(now) && Traced(start, retry0, more) && (z.Lasting? ==> ended && Holds(z))
      ensures !ended ==> Cut(z, old(now), now) && more == es
      ensures ended ==> Valid() && |more| == |es| + 1 && more == es + [more[|es|]] && !more[|es|].Handled?
      ensures ended ==> (ok <==> !more[|es|].CommitFailed?)
      ensures ended && z.Lasting? && old(now) >= z.quiet ==> currentHeight == old(currentHeight)
    {
      var res, cut;
      ghost var step;
      res, cut, step := CommitHeader(z);
      ok, ended, more := res == 0, !cut, es;
      if !cut {
        TracesOn(w, start, retry0, es, old(view), db.retry, step);
        more := es + [step];
      }
    }
  }
}
