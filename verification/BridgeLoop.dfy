/**
 The bridge monitor across restarts: the height it works at, the height it persists, and the heights
 it has relayed. A crash may fall between any two steps. As in the Ethereum loop, a step carries only
 the call it starts at, and the answers from that call on decide it.
 */
module BridgeLoop {
  import opened Words
  import opened Bytes
  import opened DB
  import opened Depth
  import opened Paging
  import opened SenderChoice

  /** All answers, by the number of calls made so far; the queries of a block, by the call its handling starts at. */
  datatype Rpc = Rpc(
    status: nat -> Option<uint64>,                  // LatestBlockHeight
    epochStart: nat -> uint64,                      // GetCurEpochStartHeight, 0 on error
    header: (nat, uint64) -> bool,                  // GetBridgeHdr succeeds
    search: (nat, uint64) -> (nat -> Option<Page>), // TxSearch by height and page
    proof: nat -> (Tx -> Option<Proof>),
    balances: nat -> seq<nat>,                      // of all senders, after retries
    draw: nat -> nat,
    commitHeader: (nat, nat, uint64) -> bool,       // by call, sender and height
    stored: nat -> bool)

  /** The call at which the header of a block is committed: after its own, and one per transaction. */
  function CommitCall(rpc: Rpc, height: uint64, at: nat): nat {
    at + 1 + |Flat(rpc.search(at, height), Pages(rpc.search(at, height)))|
  }

  /**
   Relaying the block at `height` from call `at` on succeeds: its header, every page and every proof
   are answered, and the commitHeader of the sender chosen then returns true. It does so once the
   transaction was mined, whatever its receipt says.
   */
  ghost predicate RelayOk(rpc: Rpc, height: uint64, at: nat) {
    && rpc.header(at, height)
    && Available(rpc.search(at, height), rpc.proof(at))
    && exists sender :: HeaderCommitted(rpc, height, CommitCall(rpc, height, at), sender)
  }

  ghost predicate HeaderCommitted(rpc: Rpc, height: uint64, t: nat, sender: nat) {
    Chosen(rpc.balances(t), rpc.draw(t), sender) && rpc.commitHeader(t, sender, height)
  }

  /** The first answer that is missing, or the refusal of the header, is what makes relaying fail. */
  lemma RelayFailsIff(rpc: Rpc, height: uint64, at: nat)
    ensures var search := rpc.search(at, height);
      var txs := Flat(search, Pages(search));
      var t := at + 1 + |txs|;
      !RelayOk(rpc, height, at) <==>
        || !rpc.header(at, height)
        || search(1).None?
        || (exists p :: 1 <= p <= Pages(search) && search(p).None?)
        || (exists tx :: tx in txs && rpc.proof(at)(tx).None?)
        || forall sender :: Chosen(rpc.balances(t), rpc.draw(t), sender) ==> !rpc.commitHeader(t, sender, height)
  {
    var t := CommitCall(rpc, height, at);
    assert forall sender :: HeaderCommitted(rpc, height, t, sender) <==>
      Chosen(rpc.balances(t), rpc.draw(t), sender) && rpc.commitHeader(t, sender, height);
  }

  datatype Relay = Relay(
    running: bool,
    cur: uint64,
    raw: HeightRecord,           // the persisted little-endian record
    handled: map<uint64, nat>,   // history: the call from which each height was last relayed
    epoch: uint64,               // history: the greatest epoch start height ever read
    first: Option<uint64>,       // history: the height of the very first start
    saved: bool,                 // history: some record was accepted since
    now: nat)                    // calls made by the steps so far

  datatype Step =
    | Start(flag: uint64, at: nat)   // init, with its start flag
    | Handled(at: nat)               // handleDepositTxs succeeded at cur
    | Save(at: nat)                  // end of a tick: UpdateBridgeHeight
    | Crash

  /** The height a start without flag resumes at. */
  function Resume(stored: uint64, epochStart: uint64): uint64 {
    if epochStart > stored then epochStart else stored
  }

  ghost predicate Enabled(rpc: Rpc, s: Relay, e: Step) {
    match e
    case Start(_, at) => !s.running && s.now <= at
    case Handled(at) => s.running && s.now <= at && RelayOk(rpc, s.cur, at)
    case Save(at) => s.running && s.now <= at
    case Crash => true
  }

  /** The record written at the end of a tick: currentHeight - 1 wraps, and is cut to 32 bits. */
  function Saved(cur: uint64): HeightRecord {
    LittleEndian(Low32(Sub64(cur, 1)), 4)
  }

  function Do(rpc: Rpc, s: Relay, e: Step): Relay {
    match e
    case Start(flag, at) =>
      if flag > 0 then
        s.(running := true, cur := flag, first := if s.first.Some? then s.first else Some(flag), now := at)
      else
        var epochStart := rpc.epochStart(at);
        var cur := Resume(StoredHeight(s.raw), epochStart);
        s.(running := true, cur := cur, epoch := if epochStart > s.epoch then epochStart else s.epoch,
           first := if s.first.Some? then s.first else Some(cur), now := at + 1)
    case Handled(at) =>
      s.(handled := s.handled[s.cur := at], cur := Add64(s.cur, 1), now := CommitCall(rpc, s.cur, at) + 1)
    case Save(at) => if rpc.stored(at) then s.(raw := Saved(s.cur), saved := true, now := at + 1) else s.(now := at + 1)
    case Crash => s.(running := false)
  }

  ghost predicate Legal(rpc: Rpc, s: Relay, es: seq<Step>)
    decreases |es|
  {
    es == [] || (Legal(rpc, s, es[..|es| - 1]) && Enabled(rpc, Run(rpc, s, es[..|es| - 1]), es[|es| - 1]))
  }

  function Run(rpc: Rpc, s: Relay, es: seq<Step>): Relay
    decreases |es|
  {
    if es == [] then s else Do(rpc, Run(rpc, s, es[..|es| - 1]), es[|es| - 1])
  }

  lemma RunMore(rpc: Rpc, s: Relay, es: seq<Step>, e: Step)
    ensures Run(rpc, s, es + [e]) == Do(rpc, Run(rpc, s, es), e)
    ensures Legal(rpc, s, es + [e]) <==> Legal(rpc, s, es) && Enabled(rpc, Run(rpc, s, es), e)
  {
    assert (es + [e])[..|es|] == es;
  }

  /**
   A start without flag resumes at the later of the stored record and the epoch start; a start with one at
   the flag.
   */
  lemma StartResumesAt(rpc: Rpc, s: Relay, flag: uint64, at: nat)
    ensures var cur, stored, epochStart := Do(rpc, s, Start(flag, at)).cur, StoredHeight(s.raw), rpc.epochStart(at);
      if flag > 0 then cur == flag
      else cur >= stored && cur >= epochStart && (cur == stored || cur == epochStart)
  {
  }

  // ---- One tick ------------------------------------------------------------------------------------------

  /** After the steps es the loop of a tick is at its guard again: each turn relayed a block the guard admits. */
  ghost predicate AtLoopHead(rpc: Rpc, status: uint64, s: Relay, es: seq<Step>)
    decreases |es|
  {
    es == [] ||
    (es[|es| - 1].Handled? && BridgeLoopRuns(status, Run(rpc, s, es[..|es| - 1]).cur)
     && AtLoopHead(rpc, status, s, es[..|es| - 1]))
  }

  /**
   A whole tick: the loop stops at its guard, or at a block whose relaying from call `stop` on fails, and
   the tick then saves.
   */
  ghost predicate Done(rpc: Rpc, status: uint64, s: Relay, es: seq<Step>, stop: nat) {
    && es != [] && es[|es| - 1].Save? && AtLoopHead(rpc, status, s, es[..|es| - 1])
    && Stops(rpc, status, Run(rpc, s, es[..|es| - 1]), stop, es[|es| - 1].at)
  }

  /** The loop cannot go on from s: its guard fails, or the block it started to relay at call `stop` did. */
  ghost predicate Stops(rpc: Rpc, status: uint64, s: Relay, stop: nat, until: nat) {
    !BridgeLoopRuns(status, s.cur) || (s.now <= stop < until && !RelayOk(rpc, s.cur, stop))
  }

  /** h was relayed, its header commit returning true, from some call between `since` and here on. */
  ghost predicate RelayedSince(rpc: Rpc, s: Relay, h: uint64, since: nat) {
    h in s.handled && since <= s.handled[h] < s.now && RelayOk(rpc, h, s.handled[h])
  }

  /** One more turn. */
  lemma LoopMore(rpc: Rpc, status: uint64, s: Relay, es: seq<Step>, at: nat)
    requires Legal(rpc, s, es) && AtLoopHead(rpc, status, s, es) && Enabled(rpc, Run(rpc, s, es), Handled(at))
    requires BridgeLoopRuns(status, Run(rpc, s, es).cur)
    ensures var more := es + [Handled(at)];
      Legal(rpc, s, more) && AtLoopHead(rpc, status, s, more) && Run(rpc, s, more) == Do(rpc, Run(rpc, s, es), Handled(at))
  {
    RunMore(rpc, s, es, Handled(at));
    assert (es + [Handled(at)])[..|es|] == es;
  }

  /** The save after the loop. */
  lemma SaveMore(rpc: Rpc, status: uint64, s: Relay, es: seq<Step>, stop: nat, at: nat)
    requires Legal(rpc, s, es) && AtLoopHead(rpc, status, s, es) && Enabled(rpc, Run(rpc, s, es), Save(at))
    requires Stops(rpc, status, Run(rpc, s, es), stop, at)
    ensures var more := es + [Save(at)];
      Legal(rpc, s, more) && Done(rpc, status, s, more, stop) && Run(rpc, s, more) == Do(rpc, Run(rpc, s, es), Save(at))
  {
    RunMore(rpc, s, es, Save(at));
    assert (es + [Save(at)])[..|es|] == es;
  }

  /**
   The loop of a tick relays the heights from currentHeight on, without a gap,
   and from LatestBlockHeight 2 on only heights at least 2 below it.
   */
  lemma {:induction false} LoopRelays(rpc: Rpc, status: uint64, s: Relay, es: seq<Step>)
    requires Legal(rpc, s, es) && AtLoopHead(rpc, status, s, es) && s.cur + |es| < TWO_64
    ensures var t := Run(rpc, s, es);
      && t.cur == s.cur + |es| && t.raw == s.raw && s.now <= t.now
      && (forall h: uint64 :: s.cur <= h < t.cur ==> RelayedSince(rpc, t, h, s.now))
      && (s.cur < t.cur && status >= 2 ==> t.cur + 1 <= status)
    decreases |es|
  {
    if es != [] {
      var init := es[..|es| - 1];
      LoopRelays(rpc, status, s, init);
      var t, end := Run(rpc, s, init), Run(rpc, s, es);
      forall h: uint64 | s.cur <= h < end.cur ensures RelayedSince(rpc, end, h, s.now) {
        assert h < t.cur ==> RelayedSince(rpc, t, h, s.now);
      }
    }
  }

  /** So does a whole tick, which then writes the last height relayed, if the store accepts it. */
  lemma TickRelays(rpc: Rpc, status: uint64, s: Relay, es: seq<Step>, stop: nat)
    requires Legal(rpc, s, es) && Done(rpc, status, s, es, stop) && s.cur + |es| <= TWO_64
    ensures var t := Run(rpc, s, es);
      && t.cur == s.cur + |es| - 1
      && (forall h: uint64 :: s.cur <= h < t.cur ==> RelayedSince(rpc, t, h, s.now))
      && (s.cur < t.cur && status >= 2 ==> t.cur + 1 <= status)
      && t.raw == (if rpc.stored(es[|es| - 1].at) then Saved(t.cur) else s.raw)
      && (status >= 2 ==> t.cur + 2 > status || (s.now <= stop < es[|es| - 1].at && !RelayOk(rpc, t.cur, stop)))
  {
    var init := es[..|es| - 1];
    LoopRelays(rpc, status, s, init);
    var t, end := Run(rpc, s, init), Run(rpc, s, es);
    forall h: uint64 | s.cur <= h < end.cur ensures RelayedSince(rpc, end, h, s.now) {
      assert RelayedSince(rpc, t, h, s.now);
    }
  }

  // ---- What has been relayed ------------------------------------------------------------------------------

  /** Every height in [from, upto) was relayed or precedes an epoch start. */
  ghost predicate Covered(s: Relay, from: uint64, upto: nat) {
    forall h: uint64 :: from <= h < upto ==> h in s.handled || h < s.epoch
  }

  /** Every height from the first start up to (not including) `upto` is covered. */
  ghost predicate CoveredBelow(s: Relay, upto: nat) {
    s.first.Some? ==> Covered(s, s.first.value, upto)
  }

  ghost predicate Inv(rpc: Rpc, s: Relay) {
    && (s.running ==> s.first.Some? && CoveredBelow(s, s.cur))
    && CoveredBelow(s, StoredHeight(s.raw))
    && (s.saved ==> s.first.Some? && CoveredBelow(s, StoredHeight(s.raw) + 1))
    && (forall h :: h in s.handled ==> RelayOk(rpc, h, s.handled[h]))
  }

  /** Saving at height 0 persists 2^32 - 1; saving at any other height persists at most that height less one. */
  lemma SavedHeight(cur: uint64)
    ensures StoredHeight(Saved(cur)) == if cur == 0 then TWO_32 - 1 else (cur - 1) % TWO_32
    ensures StoredHeight(Saved(cur)) == cur - 1 <==> 1 <= cur <= TWO_32
    ensures StoredHeight(Saved(cur)) < cur <==> cur >= 1
  {
    StoredHeightRoundTrip(Low32(Sub64(cur, 1)));
  }

  lemma CoverGrows(s: Relay, t: Relay)
    requires s.handled.Keys <= t.handled.Keys && s.epoch <= t.epoch
    ensures forall from: uint64, n: nat :: Covered(s, from, n) ==> Covered(t, from, n)
  {
  }

  /** The end of a tick keeps the coverage exactly when currentHeight is not 0 (or 2^32 heights were done). */
  lemma SaveKeepsCoverageIff(rpc: Rpc, s: Relay, at: nat)
    requires Inv(rpc, s) && s.running && rpc.stored(at)
    ensures Inv(rpc, Do(rpc, s, Save(at))) <==> s.cur >= 1 || CoveredBelow(s, TWO_32)
  {
    SavedHeight(s.cur);
    var t := Do(rpc, s, Save(at));
    CoverGrows(s, t);
    CoverGrows(t, s);
  }

  /** What a start flag does to the coverage. */
  lemma FlagKeepsCoverageIff(rpc: Rpc, s: Relay, flag: uint64, at: nat)
    requires Inv(rpc, s) && !s.running && flag > 0
    ensures Inv(rpc, Do(rpc, s, Start(flag, at))) <==>
      if s.first.Some? then CoveredBelow(s, flag) else Covered(s, flag, StoredHeight(s.raw))
  {
  }

  /** A start without flag, and a save that is not at height 0. */
  ghost predicate Trusted(rpc: Rpc, s: Relay, e: Step) {
    && (e.Start? ==> e.flag == 0)
    && (e.Save? && rpc.stored(e.at) ==> s.cur >= 1)
  }

  ghost predicate AllTrusted(rpc: Rpc, s: Relay, es: seq<Step>)
    decreases |es|
  {
    es == [] || (AllTrusted(rpc, s, es[..|es| - 1]) && Trusted(rpc, Run(rpc, s, es[..|es| - 1]), es[|es| - 1]))
  }

  lemma StepKeepsCoverage(rpc: Rpc, s: Relay, e: Step)
    requires Inv(rpc, s) && Enabled(rpc, s, e) && Trusted(rpc, s, e)
    ensures Inv(rpc, Do(rpc, s, e))
  {
    var t := Do(rpc, s, e);
    match e
    case Start(_, _) =>
      CoverGrows(s, t);
    case Handled(_) =>
      CoverGrows(s, t);
    case Save(at) =>
      if rpc.stored(at) { SaveKeepsCoverageIff(rpc, s, at); }
    case Crash =>
      CoverGrows(s, t);
  }

  /** The state before the first start, with whatever record an earlier installation left. */
  function Fresh(raw: HeightRecord): Relay {
    Relay(false, 0, raw, map[], 0, None, false, 0)
  }

  /**
   Over any sequence of starts, failures and crashes: every height from the first start up to the
   current one, and up to and including a saved one, was relayed from the call noted for
   it, or lies below an epoch start.
   */
  lemma {:induction false} CoverageOverRuns(rpc: Rpc, s: Relay, es: seq<Step>)
    requires Inv(rpc, s) && Legal(rpc, s, es) && AllTrusted(rpc, s, es)
    ensures Inv(rpc, Run(rpc, s, es))
    decreases |es|
  {
    if es != [] {
      CoverageOverRuns(rpc, s, es[..|es| - 1]);
      StepKeepsCoverage(rpc, Run(rpc, s, es[..|es| - 1]), es[|es| - 1]);
    }
  }

  /**
   A restart resumes at or below the first height that was not relayed and is not below an epoch start
   (strictly below it once a record was saved), unless the epoch start itself lies above it.
   */
  lemma ResumeSkipsNothing(rpc: Rpc, raw: HeightRecord, es: seq<Step>, missed: uint64, epochStart: uint64)
    requires Legal(rpc, Fresh(raw), es) && AllTrusted(rpc, Fresh(raw), es)
    requires var s := Run(rpc, Fresh(raw), es);
      s.first.Some? && s.first.value <= missed && missed !in s.handled && missed >= s.epoch
    ensures var s := Run(rpc, Fresh(raw), es);
      && StoredHeight(s.raw) <= missed && (s.saved ==> StoredHeight(s.raw) < missed)
      && (epochStart <= missed ==> Resume(StoredHeight(s.raw), epochStart) <= missed)
  {
    CoverageOverRuns(rpc, Fresh(raw), es);
  }

  /**
   The exception is real. On a new store with no epoch yet, a first tick that fails at height 0 saves
   2^32 - 1, and the next start resumes there with no height relayed.
   */
  lemma SaveAtZeroSkips(rpc: Rpc)
    requires rpc.epochStart(0) == 0 && rpc.stored(1) && rpc.epochStart(2) == 0
    ensures var es := [Start(0, 0)] + [Save(1)] + [Crash] + [Start(0, 2)];
      var s := Run(rpc, Fresh([]), es);
      Legal(rpc, Fresh([]), es) && s.cur == TWO_32 - 1 && s.handled == map[] && s.first == Some(0)
  {
    SavedHeight(0);
    var s := Fresh([]);
    RunMore(rpc, s, [], Start(0, 0));
    assert [] + [Start(0, 0)] == [Start(0, 0)];
    RunMore(rpc, s, [Start(0, 0)], Save(1));
    RunMore(rpc, s, [Start(0, 0)] + [Save(1)], Crash);
    RunMore(rpc, s, [Start(0, 0)] + [Save(1)] + [Crash], Start(0, 2));
  }

  // ---- Which start flags are safe -----------------------------------------------------------------------------

  /** On the very first start a flag is safe exactly when it is not below a record left by an earlier installation. */
  lemma FirstFlagIsSafeIff(rpc: Rpc, raw: HeightRecord, flag: uint64, at: nat)
    requires flag > 0
    ensures CoveredBelow(Do(rpc, Fresh(raw), Start(flag, at)), StoredHeight(raw)) <==> flag >= StoredHeight(raw)
  {
    var t := Do(rpc, Fresh(raw), Start(flag, at));
    if flag < StoredHeight(raw) {
      assert flag !in t.handled && t.epoch == 0;
    }
  }

  /** A stopped relayer with its coverage intact, after some run on a new store; record and epoch can be read. */
  ghost predicate Stopped(rpc: Rpc, s: Relay, record: uint32, epoch: uint64) {
    && !s.running && s.saved && StoredHeight(s.raw) == record && s.epoch == epoch && Inv(rpc, s)
    && exists es: seq<Step> :: LeadsTo(rpc, es, s)
  }

  ghost predicate LeadsTo(rpc: Rpc, es: seq<Step>, s: Relay) {
    Legal(rpc, Fresh([]), es) && s == Run(rpc, Fresh([]), es)
  }

  /** Whatever happened before, a start with this flag skips nothing. */
  ghost predicate FlagIsSafe(record: uint32, epoch: uint64, flag: uint64) {
    forall rpc: Rpc, s: Relay, at: nat :: Stopped(rpc, s, record, epoch) ==> Inv(rpc, Do(rpc, s, Start(flag, at)))
  }

  /**
   An operator can tell a safe start flag from the stored record and the latest epoch start read: it is
   at most one above the record, or not above the epoch start.
   */
  lemma FlagIsSafeIff(record: uint32, epoch: uint64, flag: uint64)
    requires flag > 0
    ensures FlagIsSafe(record, epoch, flag) <==> flag <= record + 1 || flag <= epoch
  {
    if flag <= record + 1 || flag <= epoch {
      forall rpc: Rpc, s: Relay, at: nat | Stopped(rpc, s, record, epoch)
        ensures Inv(rpc, Do(rpc, s, Start(flag, at)))
      {
        FlagKeepsCoverageIff(rpc, s, flag, at);
      }
    } else {
      var rpc, s := NothingRelayed(record, epoch);
      FlagKeepsCoverageIff(rpc, s, flag, 2);
      var skipped: uint64 := if epoch > record + 1 then epoch else record + 1;
      assert skipped !in s.handled && s.epoch <= skipped < flag;
      assert !Inv(rpc, Do(rpc, s, Start(flag, 2)));
    }
  }

  /** Answers under which no block is relayed and every record is stored. */
  function Idle(epoch: uint64): Rpc {
    Rpc(_ => None, _ => epoch, (_, _) => false, (_, _) => (_ => None), _ => (_ => None), _ => [], _ => 0,
        (_, _, _) => false, _ => true)
  }

  /** A start above the record, an empty tick, and a start that reads the epoch. */
  lemma NothingRelayed(record: uint32, epoch: uint64) returns (rpc: Rpc, s: Relay)
    ensures Stopped(rpc, s, record, epoch) && s.first == Some(record + 1) && s.handled == map[]
  {
    rpc := Idle(epoch);
    SavedHeight(record + 1);
    var s0 := Fresh([]);
    var s1 := Do(rpc, s0, Start(record + 1, 0));
    var s2 := Do(rpc, s1, Save(0));
    var s3 := Do(rpc, s2, Crash);
    var s4 := Do(rpc, s3, Start(0, 1));
    s := Do(rpc, s4, Crash);
    assert LeadsTo(rpc, [], s0);
    LeadsOn(rpc, [], s0, Start(record + 1, 0));
    LeadsOn(rpc, [] + [Start(record + 1, 0)], s1, Save(0));
    LeadsOn(rpc, [] + [Start(record + 1, 0)] + [Save(0)], s2, Crash);
    LeadsOn(rpc, [] + [Start(record + 1, 0)] + [Save(0)] + [Crash], s3, Start(0, 1));
    LeadsOn(rpc, [] + [Start(record + 1, 0)] + [Save(0)] + [Crash] + [Start(0, 1)], s4, Crash);
  }

  lemma LeadsOn(rpc: Rpc, es: seq<Step>, s: Relay, e: Step)
    requires LeadsTo(rpc, es, s) && Enabled(rpc, s, e)
    ensures LeadsTo(rpc, es + [e], Do(rpc, s, e))
  {
    RunMore(rpc, Fresh([]), es, e);
  }
}
