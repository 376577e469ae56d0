/** The Ethereum monitor and the deposit ledger taken together. */
module EndToEnd {
  import opened Words
  import opened EthLoop
  import opened EthRestart
  import opened Bytes
  import opened CrossTransfers
  import opened RetryPass
  import opened Utils
  import L = DepositLedger

  // ---- What the monitor does to the ledger --------------------------------------------------------------

  /** The PutRetry calls for the first n events of a block, in order, each with the store's answer. */
  function BlockRecords(w: World, evs: seq<LockEvent>, n: nat, t: nat, height: uint64): seq<L.Event>
    requires n <= |evs|
  {
    if n == 0 then []
    else BlockRecords(w, evs, n - 1, t, height) +
         match OutcomeAt(w, evs[n - 1], EventCall(w, evs, n - 1, t))
         case PutDone => [L.Record(EntryOf(evs[n - 1], height), true)]
         case PutRefused => [L.Record(EntryOf(evs[n - 1], height), false)]
         case _ => []
  }

  /** The PutRetry calls of one step. */
  function StepRecords(w: World, s: Loop, e: Step): seq<L.Event> {
    if !e.Handled? then []
    else
      var h := Add64(s.cur, 1);
      var evs := w.rpc.events(e.at + 2, h);
      if evs.None? then [] else BlockRecords(w, evs.value, |evs.value|, e.at + 3, h)
  }

  /** The PutRetry calls of a run of the monitor. */
  function RunRecords(w: World, s: Loop, steps: seq<Step>): seq<L.Event>
    decreases |steps|
  {
    if steps == [] then []
    else
      var init := steps[..|steps| - 1];
      RunRecords(w, s, init) + StepRecords(w, Run(w, s, init), steps[|steps| - 1])
  }

  /** The PutRetry calls of all processes, one after the other. */
  function LivesRecords(w: World, s: Loop, ls: seq<Life>): seq<L.Event>
    decreases |ls|
  {
    if ls == [] then []
    else
      var init, l := ls[..|ls| - 1], ls[|ls| - 1];
      LivesRecords(w, s, init) +
      if StartOf(w, l.force, l.at).None? then []
      else RunRecords(w, Restarted(w, RunLives(w, s, init), l.force, l.at), l.steps)
  }

  /** The PutRetry calls among the events of the ledger. */
  function Records(es: seq<L.Event>): seq<L.Event> {
    if es == [] then [] else (if es[0].Record? then [es[0]] else []) + Records(es[1..])
  }

  lemma {:induction false} RecordsAreEvents(es: seq<L.Event>, e: L.Event)
    requires e in Records(es)
    ensures e in es
  {
    if e != es[0] {
      RecordsAreEvents(es[1..], e);
    }
  }

  /** a is b with some elements left out. */
  predicate Subsequence<T(==)>(a: seq<T>, b: seq<T>)
    decreases |b|
  {
    a == [] || (b != [] && ((a[0] == b[0] && Subsequence(a[1..], b[1..])) || Subsequence(a, b[1..])))
  }

  lemma {:induction false} SubsequenceHas<T>(a: seq<T>, b: seq<T>, x: T)
    requires Subsequence(a, b) && x in a
    ensures x in b
    decreases |b|
  {
    if a[0] == b[0] && Subsequence(a[1..], b[1..]) {
      if x != a[0] {
        SubsequenceHas(a[1..], b[1..], x);
      }
    } else {
      SubsequenceHas(a, b[1..], x);
    }
  }

  lemma {:induction false} PutIsRecord(w: World, evs: seq<LockEvent>, n: nat, t: nat, height: uint64, v: bytes)
    requires n <= |evs| && v in PutsUpTo(w, evs, n, t, height)
    ensures L.Record(v, true) in BlockRecords(w, evs, n, t, height)
  {
    if v in PutsUpTo(w, evs, n - 1, t, height) {
      PutIsRecord(w, evs, n - 1, t, height, v);
    }
  }

  /** Everything the monitor recorded, it recorded by an accepted PutRetry. */
  lemma {:induction false} RecordedIsPut(w: World, s: Loop, steps: seq<Step>, v: bytes)
    requires v in Run(w, s, steps).recorded && v !in s.recorded
    ensures L.Record(v, true) in RunRecords(w, s, steps)
    decreases |steps|
  {
    var init, e := steps[..|steps| - 1], steps[|steps| - 1];
    if v in Run(w, s, init).recorded {
      RecordedIsPut(w, s, init, v);
    } else {
      var h := Add64(Run(w, s, init).cur, 1);
      var evs := w.rpc.events(e.at + 2, h);
      PutIsRecord(w, evs.value, |evs.value|, e.at + 3, h, v);
    }
  }

  lemma {:induction false} RecordedInLives(w: World, s: Loop, ls: seq<Life>, v: bytes)
    requires v in RunLives(w, s, ls).recorded && v !in s.recorded
    ensures L.Record(v, true) in LivesRecords(w, s, ls)
    decreases |ls|
  {
    var init, l := ls[..|ls| - 1], ls[|ls| - 1];
    if v in RunLives(w, s, init).recorded {
      RecordedInLives(w, s, init, v);
    } else {
      RecordedIsPut(w, Restarted(w, RunLives(w, s, init), l.force, l.at), l.steps, v);
    }
  }

  // ---- Nothing answered is lost -----------------------------------------------------------------------------

  /** The entries the store holds. */
  ghost function HeldBy(s: L.Ledger): set<L.Entry> {
    s.retry + s.check.Values
  }

  /** Before the first process of the monitor. */
  function Unstarted(start: uint64, clock: nat): Loop {
    Loop(start, [], map[], {}, clock)
  }

  lemma RecordedIsHeld(w: World, start: uint64, clock: nat, ls: seq<Life>,
                       retry: set<L.Entry>, check: map<L.Hash, L.Entry>, es: seq<L.Event>, v: bytes)
    requires L.Legal(L.Start(retry, check), es) && L.AllTrusted(L.Start(retry, check), es)
    requires forall e :: e in es ==> L.AsWritten(e)
    requires Subsequence(LivesRecords(w, Unstarted(start, clock), ls), Records(es))
    requires v in RunLives(w, Unstarted(start, clock), ls).recorded
    ensures v in HeldBy(L.Run(L.Start(retry, check), es))
  {
    L.NoDepositLostAsWritten(retry, check, es);
    RecordedInLives(w, Unstarted(start, clock), ls, v);
    SubsequenceHas(LivesRecords(w, Unstarted(start, clock), ls), Records(es), L.Record(v, true));
    RecordsAreEvents(es, L.Record(v, true));
  }

  /**
   Let the monitor run, in any number of processes, while the mover, the checker and crashes interleave
   with it in any way; its PutRetry calls are found in the ledger in the same order, where any others are
   those for a block that a crash cut short. As long as no restart resumes above the greatest height
   handled, every target deposit the node answered at any height above the start is at the end in Retry
   or in Check, or was answered to be on the bridge already, or was refused by the store.
   */
  lemma EveryDepositIsHeld(w: World, start: uint64, clock: nat, ls: seq<Life>,
                           retry: set<L.Entry>, check: map<L.Hash, L.Entry>, es: seq<L.Event>)
    requires LegalLives(w, Unstarted(start, clock), ls) && ResumesBelow(w, Unstarted(start, clock), start, ls)
    requires L.Legal(L.Start(retry, check), es) && L.AllTrusted(L.Start(retry, check), es)
    requires forall e :: e in es ==> L.AsWritten(e)
    requires Subsequence(LivesRecords(w, Unstarted(start, clock), ls), Records(es))
    ensures SettledTo(w, RunLives(w, Unstarted(start, clock), ls), start,
                      TopOfLives(w, Unstarted(start, clock), start, ls), HeldBy(L.Run(L.Start(retry, check), es)))
  {
    var s0 := Unstarted(start, clock);
    var s, end := RunLives(w, s0, ls), L.Run(L.Start(retry, check), es);
    CoverageOverLives(w, s0, ls, start, start);
    forall v | v in s.recorded ensures v in HeldBy(end) {
      RecordedIsHeld(w, start, clock, ls, retry, check, es, v);
    }
    CoverIsSettled(w, s, start, TopOfLives(w, s0, start, ls), HeldBy(end));
  }

  /** Every height in (start, top] was handled, and is settled by `held`. */
  ghost predicate SettledTo(w: World, s: Loop, start: uint64, top: uint64, held: set<bytes>) {
    forall h: uint64 :: start < h <= top ==> h in s.log && Settled(w, h, s.log[h], held)
  }

  lemma CoverIsSettled(w: World, s: Loop, start: uint64, top: uint64, held: set<bytes>)
    requires CoveredTo(w, s, start, top) && s.recorded <= held
    ensures SettledTo(w, s, start, top, held)
  {
    forall h: uint64 | start < h <= top ensures h in s.log && Settled(w, h, s.log[h], held) {
      SettledGrows(w, h, s.log[h], s.recorded, held);
    }
  }

  /**
   What the monitor saw is what the mover commits: for the entry of an event, the storage key is looked up
   for a text that spells the event's id (or zero), maturity is counted from the height it was seen at, and
   the message sent carries its payload and its transaction hash.
   */
  lemma SeenIsCommitted(ev: LockEvent, height: uint64, i: nat, p: Pass, f: Fate)
    requires Decided(EntryOf(ev, height), i, p, f) && f.Done?
    ensures exists index: bytes, key: bytes, proof: bytes ::
      && SpellsId(index, ev) && p.mapping(index) == Some(key)
      && p.refHeight > Add64(height, p.blockConfig)
      && p.proof(i, key, ProofHeight(p)) == Some(proof)
      && p.commit(i, Message(Low32(ProofHeight(p)), proof, ev.rawdata, ev.txHash)) == Some(f.hash)
  {
    DepositIsRead(ev, height);
    CommittedIff(EntryOf(ev, height), i, p, f);
    var ct := Decode(EntryOf(ev, height)).value.0;
    RecordIsCommittedIff(ct, i, p, f);
    var key := p.mapping(ct.txIndex).value;
    assert SpellsId(ct.txIndex, ev) && p.mapping(ct.txIndex) == Some(key);
    assert p.proof(i, key, ProofHeight(p)) == Some(p.proof(i, key, ProofHeight(p)).value);
  }

  predicate SpellsId(index: bytes, ev: LockEvent) {
    var id := FromBigEndian(ev.txId);
    DecodeBigInt(index) == Some(if id % TWO_64 == 0 then 0 else id)
  }
}
