/**
 The bridge side of the relayer: MonitorChain and the relaying of one block. As in the Ethereum
 manager, every answer is an oracle indexed by `now`, which goes on counting across restarts.
 */
module BridgeManager {
  import opened Words
  import opened Depth
  import opened BridgeLoop
  import opened Paging
  import opened SenderChoice
  import DB

  /**
   How far a tick is followed: until the process is killed, once it has made `at` calls, or to its end.
   The second needs a height `absent` that the chain never has; without one, a tick at LatestBlockHeight
   1 may go on for ever.
   */
  datatype Horizon = Killed(at: nat) | Lasting(absent: uint64)

  class BridgeManager {
    const rpc: Rpc
    const flag: uint64
    const db: DB.BoltDB
    var currentHeight: uint64
    var now: nat
    ghost var view: Relay

    ghost predicate Valid()
      reads this, db
    {
      view.running && view.cur == currentHeight && view.raw == db.bridgeHeight && view.now <= now
    }

    /** Every balance answer names at least one sender, as the senders loaded at start-up do. */
    ghost predicate HasSenders() {
      forall t :: rpc.balances(t) != []
    }

    /** `before` is where earlier runs on this store left off, after `clock` calls. */
    constructor (rpc: Rpc, flag: uint64, db: DB.BoltDB, clock: nat, ghost before: Relay)
      requires !before.running && before.raw == db.bridgeHeight && before.now <= clock
      ensures this.rpc == rpc && this.flag == flag && this.db == db && currentHeight == flag && now == clock
      ensures view == before
    {
      this.rpc, this.flag, this.db := rpc, flag, db;
      currentHeight, now, view := flag, clock, before;
    }

    /** A start flag wins; otherwise the later of the stored height and the epoch start. */
    method Init()
      requires !view.running && view.raw == db.bridgeHeight && view.now <= now && currentHeight == flag
      modifies this
      ensures Valid() && Enabled(rpc, old(view), Start(flag, old(now)))
      ensures view == Do(rpc, old(view), Start(flag, old(now)))
      ensures flag > 0 ==> currentHeight == flag && now == old(now)
      ensures flag == 0 ==> now == old(now) + 1
      ensures flag == 0 ==> currentHeight >= DB.StoredHeight(db.bridgeHeight) && currentHeight >= rpc.epochStart(old(now))
      ensures flag == 0 ==> currentHeight == DB.StoredHeight(db.bridgeHeight) || currentHeight == rpc.epochStart(old(now))
    {
      view := Do(rpc, view, Start(flag, now));
      if currentHeight > 0 {
        return;
      }
      var h := db.GetBridgeHeight();
      currentHeight := h;
      var latestHeight := rpc.epochStart(now);
      now := now + 1;
      if latestHeight > currentHeight {
        currentHeight := latestHeight;
      }
    }

    /**
     Relays one block: true exactly when its header, all pages and all proofs were answered, and the
     sender chosen after them committed the header.
     */
    method HandleDepositTxs(height: uint64) returns (ok: bool)
      requires HasSenders()
      modifies this`now
      ensures ok <==> RelayOk(rpc, height, old(now))
      ensures now > old(now) && (ok ==> now == CommitCall(rpc, height, old(now)) + 1)
    {
      ghost var at := now;
      var found := rpc.header(now, height);
      now := now + 1;
      if !found {
        return false;
      }
      var txs, err := GetBridgeTxs(rpc.search(now - 1, height), rpc.proof(now - 1));
      if err {
        return false;
      }
      var cnt := 0;
      for i := 0 to |txs|
        invariant now == at + 1 + i
      {
        var _ := SelectSender(rpc.balances(now), rpc.draw(now));
        now := now + 1;
      }
      ok := true;
      if cnt == 0 {
        var sender := SelectSender(rpc.balances(now), rpc.draw(now));
        ok := rpc.commitHeader(now, sender, height);
        SenderDecides(height, at, sender);
        now := now + 1;
      }
    }

    /** Once everything of a block was answered, the chosen sender's commit decides. */
    lemma SenderDecides(height: uint64, at: nat, sender: nat)
      requires rpc.header(at, height) && Available(rpc.search(at, height), rpc.proof(at))
      requires var t := CommitCall(rpc, height, at); Chosen(rpc.balances(t), rpc.draw(t), sender)
      ensures RelayOk(rpc, height, at) <==> rpc.commitHeader(CommitCall(rpc, height, at), sender, height)
    {
      var t := CommitCall(rpc, height, at);
      if other :| HeaderCommitted(rpc, height, t, other) {
        ChosenIsUnique(rpc.balances(t), rpc.draw(t), sender, other);
      }
      if rpc.commitHeader(t, sender, height) {
        assert HeaderCommitted(rpc, height, t, sender);
      }
    }

    /** es is a legal trace from `start` to here. */
    ghost predicate Traced(start: Relay, es: seq<Step>)
      reads this
    {
      Legal(rpc, start, es) && view == Run(rpc, start, es)
    }

    /** The answer a tick starts from sends it into its loop. */
    ghost predicate Proceeds(t: nat, cur: uint64) {
      rpc.status(t).Some? && BridgeTickProceeds(rpc.status(t).value, cur)
    }

    /** What the horizon says from here on. */
    ghost predicate Holds(z: Horizon)
      reads this
    {
      z.Lasting? ==> currentHeight <= z.absent && forall t :: !rpc.header(t, z.absent)
    }

    /**
     One tick. Without a status, or too close to it, nothing happens. Otherwise it relays block after
     block, stops only at its guard or at a block that could not be relayed, and then saves once. A tick
     that is killed has relayed what it handled and saved nothing.
     */
    method Tick(z: Horizon) returns (ended: bool, ghost es: seq<Step>, ghost stop: nat)
      requires Valid() && HasSenders() && Holds(z)
      modifies this`now, this`currentHeight, this`view, db`bridgeHeight
      ensures Valid() && Traced(old(view), es) && (z.Lasting? ==> ended)
      ensures rpc.status(old(now)).None? || rpc.status(old(now)) == Some(old(currentHeight) + 1) ==> ended && es == []
      ensures if !Proceeds(old(now), old(currentHeight)) then ended && es == []
              else if ended then Done(rpc, rpc.status(old(now)).value, old(view), es, stop)
              else z.Killed? && z.at <= now && AtLoopHead(rpc, rpc.status(old(now)).value, old(view), es)
      ensures z.Lasting? && es != [] ==> currentHeight == old(currentHeight) + |es| - 1
      ensures z.Lasting? || old(currentHeight) + |es| < TWO_64 ==>
                forall h: uint64 :: old(currentHeight) <= h < currentHeight ==> RelayedSince(rpc, view, h, old(view.now))
    {
      ended, es, stop := true, [], now + 1;
      var status := rpc.status(now);
      now := now + 1;
      if status.None? {
        return;
      }
      if !BridgeTickProceeds(status.value, currentHeight) {
        return;
      }
      ended, es, stop := RunLoop(z, status.value);
      if old(currentHeight) + |es| < TWO_64 {
        LoopRelays(rpc, status.value, old(view), es);
      }
      if ended {
        es := SaveHeight(old(view), es, status.value, stop);
        if old(currentHeight) + |es| <= TWO_64 {
          TickRelays(rpc, status.value, old(view), es, stop);
        }
      }
    }

    /** The loop of a tick, up to its guard, to the block that fails at call `stop`, or to the kill. */
    method RunLoop(z: Horizon, status: uint64) returns (ended: bool, ghost es: seq<Step>, ghost stop: nat)
      requires Valid() && HasSenders() && Holds(z)
      modifies this`now, this`currentHeight, this`view
      ensures Valid() && Traced(old(view), es) && AtLoopHead(rpc, status, old(view), es)
      ensures if ended then Stops(rpc, status, view, stop, now) else z.Killed? && z.at <= now
      ensures z.Lasting? ==> currentHeight == old(currentHeight) + |es|
    {
      ended, es, stop := true, [], now;
      var ok := true;
      while BridgeLoopRuns(status, currentHeight)
        invariant Holds(z) && ended && (z.Lasting? ==> currentHeight == old(currentHeight) + |es|)
        invariant Valid() && Traced(old(view), es) && AtLoopHead(rpc, status, old(view), es)
        decreases if z.Lasting? then z.absent - currentHeight else if now < z.at then z.at - now else 0
      {
        if z.Killed? && z.at <= now {
          ended := false;
          return;
        }
        ok, es, stop := HandleNext(z, status, old(view), es);
        if !ok {
          break;
        }
      }
    }

    /** Relays the block at currentHeight and moves on, wrapping at 64 bits, if that succeeded. */
    method RelayNext(z: Horizon) returns (ok: bool)
      requires Valid() && HasSenders() && Holds(z)
      modifies this`now, this`currentHeight, this`view
      ensures Valid() && now > old(now) && Holds(z)
      ensures currentHeight == if ok then Add64(old(currentHeight), 1) else old(currentHeight)
      ensures z.Lasting? && ok ==> currentHeight == old(currentHeight) + 1
      ensures if ok then Enabled(rpc, old(view), Handled(old(now))) && view == Do(rpc, old(view), Handled(old(now)))
              else view == old(view) && !RelayOk(rpc, currentHeight, old(now))
    {
      ghost var at := now;
      ok := HandleDepositTxs(currentHeight);
      if ok {
        view := Do(rpc, view, Handled(at));
        currentHeight := Add64(currentHeight, 1);
      }
    }

    /** One turn of the loop, with its step added to the trace; `stop` is the call it starts at. */
    method HandleNext(z: Horizon, ghost status: uint64, ghost start: Relay, ghost es: seq<Step>)
      returns (ok: bool, ghost more: seq<Step>, ghost stop: nat)
      requires Valid() && HasSenders() && Traced(start, es) && AtLoopHead(rpc, status, start, es)
      requires BridgeLoopRuns(status, currentHeight) && Holds(z)
      modifies this`now, this`currentHeight, this`view
      ensures Valid() && Traced(start, more) && AtLoopHead(rpc, status, start, more) && Holds(z) && now > old(now)
      ensures z.Lasting? && ok ==> currentHeight == old(currentHeight) + 1
      ensures more == if ok then es + [Handled(old(now))] else es
      ensures !ok ==> Stops(rpc, status, view, stop, now)
    {
      stop, more := now, es;
      ok := RelayNext(z);
      if ok {
        LoopMore(rpc, status, start, es, stop);
        more := es + [Handled(stop)];
      }
    }

    /** The end of a tick: the record of the last height handled, whether or not the loop failed. */
    method SaveHeight(ghost start: Relay, ghost es: seq<Step>, ghost status: uint64, ghost stop: nat)
      returns (ghost more: seq<Step>)
      requires Valid() && Traced(start, es) && AtLoopHead(rpc, status, start, es)
      requires Stops(rpc, status, view, stop, now)
      modifies this`now, this`view, db`bridgeHeight
      ensures Valid() && Traced(start, more) && Done(rpc, status, start, more, stop) && now == old(now) + 1
      ensures more == es + [Save(old(now))] && view == Do(rpc, old(view), Save(old(now)))
    {
      ghost var at := now;
      var stored := rpc.stored(now);
      now := now + 1;
      SaveMore(rpc, status, start, es, stop, at);
      more := es + [Save(at)];
      view := Do(rpc, view, Save(at));
      var _ := db.UpdateBridgeHeight(Low32(Sub64(currentHeight, 1)), stored);
    }
  }
}
