/**
 The life of a deposit in the store, as three goroutines interleave. Every store call, every answer
 of a chain and every crash is one atomic event; a panic is a crash.

 The mover is handleLockDepositEvents, the checker is checkLockDepositEvents. The checker is modelled
 twice: as written it only ever leaves entries alone, as meant it also settles them (Confirm for a
 transaction that succeeded, Requeue and then Clear for one that failed).
 */
module DepositLedger {
  import opened Words
  import opened DB

  type Entry = bytes
  type Hash = bytes

  datatype Mover =
    | Resting
    | Moving(todo: seq<Entry>)
    | Broadcast(v: Entry, hash: Hash, todo: seq<Entry>)  // commitProof returned, PutCheck is next
    | Filed(v: Entry, hash: Hash, todo: seq<Entry>)      // PutCheck returned, DeleteRetry is next

  datatype Checker =
    | Waiting
    | Checking(left: map<Hash, Entry>)
    | Requeued(hash: Hash, v: Entry, left: map<Hash, Entry>)  // PutRetry returned, DeleteCheck is next

  datatype Ledger = Ledger(
    retry: set<Entry>,
    check: map<Hash, Entry>,
    mover: Mover,
    checker: Checker,
    recorded: set<Entry>,   // history: every entry ever put in Retry by the monitor loop
    confirmed: set<Entry>,  // history: entries whose transaction was seen to succeed
    used: set<Hash>)        // history: every transaction hash ever broadcast

  datatype Event =
    | Record(v: Entry, stored: bool)      // monitor: PutRetry
    | StartPass(list: seq<Entry>)         // mover: GetAllRetry
    | Skip                                // mover: undecodable, unmapped, immature or unproved entry
    | Commit(hash: Hash)                  // mover: commitProof
    | File(stored: bool)                  // mover: PutCheck
    | Remove(stored: bool)                // mover: DeleteRetry
    | EndPass
    | StartCheck(keys: seq<Hash>)         // checker: GetAllCheck
    | Leave(hash: Hash)                   // checker: continue with the next entry
    | Confirm(hash: Hash, stored: bool)   // checker, as meant: success, DeleteCheck
    | Requeue(hash: Hash, stored: bool)   // checker, as meant: failure, PutRetry
    | Clear(stored: bool)                 // checker, as meant: DeleteCheck after PutRetry
    | EndCheck
    | Crash

  ghost predicate Enabled(s: Ledger, e: Event) {
    match e
    case Record(_, _) => true
    case StartPass(list) => s.mover.Resting? && FirstKeys(list, s.retry, MAX_NUM)
    case Skip => s.mover.Moving? && s.mover.todo != []
    case Commit(_) => s.mover.Moving? && s.mover.todo != []
    case File(_) => s.mover.Broadcast?
    case Remove(_) => s.mover.Filed?
    case EndPass => s.mover == Moving([])
    case StartCheck(keys) => s.checker.Waiting? && FirstKeys(keys, s.check.Keys, MAX_NUM)
    case Leave(h) => s.checker.Checking? && h in s.checker.left
    case Confirm(h, _) => s.checker.Checking? && h in s.checker.left
    case Requeue(h, _) => s.checker.Checking? && h in s.checker.left
    case Clear(_) => s.checker.Requeued?
    case EndCheck => s.checker == Checking(map[])
    case Crash => true
  }

  ghost function Do(s: Ledger, e: Event): Ledger
    requires Enabled(s, e)
  {
    match e
    case Record(v, stored) =>
      if stored then s.(retry := s.retry + {v}, recorded := s.recorded + {v}) else s
    case StartPass(list) => s.(mover := Moving(list))
    case Skip => s.(mover := Moving(s.mover.todo[1..]))
    case Commit(hash) =>
      s.(mover := Broadcast(s.mover.todo[0], hash, s.mover.todo[1..]), used := s.used + {hash})
    case File(stored) =>
      s.(mover := Filed(s.mover.v, s.mover.hash, s.mover.todo),
         check := if stored then s.check[s.mover.hash := s.mover.v] else s.check)
    case Remove(stored) =>
      s.(mover := Moving(s.mover.todo), retry := if stored then s.retry - {s.mover.v} else s.retry)
    case EndPass => s.(mover := Resting)
    case StartCheck(keys) => s.(checker := Checking(map h | h in keys && h in s.check :: s.check[h]))
    case Leave(h) => s.(checker := Checking(s.checker.left - {h}))
    case Confirm(h, stored) =>
      s.(checker := Checking(s.checker.left - {h}),
         confirmed := s.confirmed + {s.checker.left[h]},
         check := if stored then s.check - {h} else s.check)
    case Requeue(h, stored) =>
      s.(checker := Requeued(h, s.checker.left[h], s.checker.left - {h}),
         retry := if stored then s.retry + {s.checker.left[h]} else s.retry)
    case Clear(stored) =>
      s.(checker := Checking(s.checker.left), check := if stored then s.check - {s.checker.hash} else s.check)
    case EndCheck => s.(checker := Waiting)
    case Crash => s.(mover := Resting, checker := Waiting)
  }

  ghost predicate Legal(s: Ledger, es: seq<Event>)
    decreases |es|
  {
    es == [] || (Enabled(s, es[0]) && Legal(Do(s, es[0]), es[1..]))
  }

  ghost function Run(s: Ledger, es: seq<Event>): Ledger
    requires Legal(s, es)
    decreases |es|
  {
    if es == [] then s else Run(Do(s, es[0]), es[1..])
  }

  lemma {:induction false} RunMore(s: Ledger, es: seq<Event>, e: Event)
    requires Legal(s, es) && Enabled(Run(s, es), e)
    ensures Legal(s, es + [e]) && Run(s, es + [e]) == Do(Run(s, es), e)
    decreases |es|
  {
    if es == [] {
      assert [e][1..] == [];
    } else {
      RunMore(Do(s, es[0]), es[1..], e);
      assert (es + [e])[1..] == es[1..] + [e];
    }
  }

  /** The state after a start on an existing store: everything in it counts as recorded. */
  function Start(retry: set<Entry>, check: map<Hash, Entry>): Ledger {
    Ledger(retry, check, Resting, Waiting, retry + check.Values, {}, check.Keys)
  }

  // ---- No deposit is lost ----------------------------------------------------------------------------

  ghost predicate Held(s: Ledger, v: Entry) {
    v in s.retry || v in s.check.Values || v in s.confirmed
  }

  /** Every entry ever recorded is still in Retry, is a value in Check, or was confirmed. */
  ghost predicate NothingLost(s: Ledger) {
    forall v :: v in s.recorded ==> Held(s, v)
  }

  /**
   What one event is trusted with: broadcast hashes are new, PutCheck and the requeueing PutRetry are
   accepted, and no failed entry is requeued while the mover stands between that entry's PutCheck
   and its DeleteRetry.
   */
  ghost predicate Trusted(s: Ledger, e: Event)
    requires Enabled(s, e)
  {
    match e
    case Commit(hash) => hash !in s.used
    case File(stored) => stored
    case Requeue(h, stored) => stored && !(s.mover.Filed? && s.mover.hash == h)
    case _ => true
  }

  ghost predicate AllTrusted(s: Ledger, es: seq<Event>)
    requires Legal(s, es)
    decreases |es|
  {
    es == [] || (Trusted(s, es[0]) && AllTrusted(Do(s, es[0]), es[1..]))
  }

  /** Where an entry must be besides one Check record that is about to be deleted. */
  ghost predicate HeldWithout(s: Ledger, v: Entry, h: Hash) {
    v in s.retry || v in s.confirmed || exists j :: j in s.check && j != h && s.check[j] == v
  }

  ghost predicate MoverInv(s: Ledger) {
    match s.mover
    case Broadcast(_, h, _) =>
      && h in s.used && h !in s.check
      && !(s.checker.Checking? && h in s.checker.left)
      && !(s.checker.Requeued? && (h in s.checker.left || h == s.checker.hash))
    case Filed(v, h, _) =>
      && h in s.used
      && (v in s.confirmed || (h in s.check && s.check[h] == v))
      && !(s.checker.Requeued? && h == s.checker.hash)
    case _ => true
  }

  ghost predicate CheckerInv(s: Ledger) {
    match s.checker
    case Waiting => true
    case Checking(left) => LeftInv(s, left)
    case Requeued(h, v, left) =>
      && LeftInv(s, left)
      && h in s.used && (h in s.check ==> s.check[h] == v)
      && HeldWithout(s, v, h)
  }

  ghost predicate LeftInv(s: Ledger, left: map<Hash, Entry>) {
    left.Keys <= s.used && forall h :: h in left && h in s.check ==> s.check[h] == left[h]
  }

  ghost predicate Inv(s: Ledger) {
    NothingLost(s) && s.check.Keys <= s.used && MoverInv(s) && CheckerInv(s)
  }

  lemma StartInv(retry: set<Entry>, check: map<Hash, Entry>)
    ensures Inv(Start(retry, check))
  {
  }

  /** The events of the mover. */
  lemma MoverStep(s: Ledger, e: Event)
    requires Inv(s) && Enabled(s, e) && Trusted(s, e)
    requires e.Commit? || e.File? || e.Remove?
    ensures Inv(Do(s, e))
  {
    var t := Do(s, e);
    match e
    case Commit(_) =>
    case File(_) =>
      var h := s.mover.hash;
      forall v | v in s.check.Values ensures v in t.check.Values {
        var j :| j in s.check && s.check[j] == v;
        assert j != h && j in t.check && t.check[j] == v;
      }
      if s.checker.Requeued? {
        HeldWithoutGrows(s, t, s.checker.v, s.checker.hash);
      }
    case Remove(_) =>
      var v, h := s.mover.v, s.mover.hash;
      assert v in s.confirmed || (h in t.check && t.check[h] == v);
      assert forall w :: w in s.recorded && w != v && Held(s, w) ==> Held(t, w);
      assert Held(t, v);
      if s.checker.Requeued? {
        assert h != s.checker.hash;
        assert HeldWithout(s, s.checker.v, s.checker.hash);
      }
  }

  lemma HeldWithoutGrows(s: Ledger, t: Ledger, v: Entry, h: Hash)
    requires HeldWithout(s, v, h) && s.retry <= t.retry && s.confirmed <= t.confirmed
    requires forall j :: j in s.check ==> j in t.check && t.check[j] == s.check[j]
    ensures HeldWithout(t, v, h)
  {
  }

  /** The events of the checker as meant. */
  lemma CheckerStep(s: Ledger, e: Event)
    requires Inv(s) && Enabled(s, e) && Trusted(s, e)
    requires e.Confirm? || e.Requeue? || e.Clear?
    ensures Inv(Do(s, e))
  {
    var t := Do(s, e);
    match e
    case Confirm(h, stored) =>
      forall v | v in s.recorded ensures Held(t, v) {
        assert Held(s, v);
        if v in s.check.Values {
          var j :| j in s.check && s.check[j] == v;
          assert j == h ==> v == s.checker.left[h];
          assert j != h ==> j in t.check && t.check[j] == v;
        }
      }
    case Requeue(h, _) =>
      assert forall v :: v in s.recorded && Held(s, v) ==> Held(t, v);
    case Clear(stored) =>
      forall v | v in s.recorded ensures Held(t, v) {
        assert Held(s, v);
        if v in s.check.Values {
          var j :| j in s.check && s.check[j] == v;
          if j == s.checker.hash {
            assert v == s.checker.v;
            if i :| i in s.check && i != j && s.check[i] == v {
              assert i in t.check && t.check[i] == v;
            }
          } else {
            assert j in t.check && t.check[j] == v;
          }
        }
      }
  }

  lemma Step(s: Ledger, e: Event)
    requires Inv(s) && Enabled(s, e) && Trusted(s, e)
    ensures Inv(Do(s, e))
  {
    match e
    case Commit(_) => MoverStep(s, e);
    case File(_) => MoverStep(s, e);
    case Remove(_) => MoverStep(s, e);
    case Confirm(_, _) => CheckerStep(s, e);
    case Requeue(_, _) => CheckerStep(s, e);
    case Clear(_) => CheckerStep(s, e);
    case Record(v, stored) =>
      assert forall w :: Held(s, w) ==> Held(Do(s, e), w);
    case _ =>
      assert forall w :: Held(s, w) ==> Held(Do(s, e), w);
  }

  /** Over every interleaving of the loops as meant, and every crash, no recorded deposit is lost. */
  lemma {:induction false} NoDepositLost(s: Ledger, es: seq<Event>)
    requires Inv(s) && Legal(s, es) && AllTrusted(s, es)
    ensures Inv(Run(s, es)) && NothingLost(Run(s, es))
    decreases |es|
  {
    if es != [] {
      Step(s, es[0]);
      NoDepositLost(Do(s, es[0]), es[1..]);
    }
  }

  // ---- The check pass as written ------------------------------------------------------------------------

  /** As written, the checker never settles anything. */
  predicate AsWritten(e: Event) {
    !e.Confirm? && !e.Requeue? && !e.Clear?
  }

  lemma {:induction false} AsWrittenConfirmsNothing(s: Ledger, es: seq<Event>)
    requires Legal(s, es) && s.confirmed == {} && !s.checker.Requeued?
    requires forall e :: e in es ==> AsWritten(e)
    ensures Run(s, es).confirmed == {}
    decreases |es|
  {
    if es != [] {
      assert AsWritten(es[0]);
      AsWrittenConfirmsNothing(Do(s, es[0]), es[1..]);
    }
  }

  lemma {:induction false} RecordedStays(s: Ledger, es: seq<Event>)
    requires Legal(s, es)
    ensures s.recorded <= Run(s, es).recorded
    ensures forall v :: Record(v, true) in es ==> v in Run(s, es).recorded
    decreases |es|
  {
    if es != [] {
      RecordedStays(Do(s, es[0]), es[1..]);
      assert es == [es[0]] + es[1..];
    }
  }

  /**
   The relayer as written loses no deposit: from a start on any store, after any legal sequence of
   events, everything found in the store or recorded since is in Retry or is a value in Check.
   */
  lemma NoDepositLostAsWritten(retry: set<Entry>, check: map<Hash, Entry>, es: seq<Event>)
    requires Legal(Start(retry, check), es) && AllTrusted(Start(retry, check), es)
    requires forall e :: e in es ==> AsWritten(e)
    ensures var end := Run(Start(retry, check), es);
      forall v :: v in retry || v in check.Values || Record(v, true) in es ==> v in end.retry || v in end.check.Values
  {
    var s := Start(retry, check);
    StartInv(retry, check);
    NoDepositLost(s, es);
    RecordedStays(s, es);
    AsWrittenConfirmsNothing(s, es);
    var end := Run(s, es);
    forall v | v in retry || v in check.Values || Record(v, true) in es
      ensures v in end.retry || v in end.check.Values
    {
      assert v in end.recorded;
      assert Held(end, v);
    }
  }

  // ---- Exactly when the trust is needed -------------------------------------------------------------------

  /**
   The mover goes on to DeleteRetry whatever PutCheck said. For a new hash, moving an entry out of
   Retry keeps every deposit exactly when PutCheck was accepted or the entry was already held elsewhere.
   */
  lemma MoveKeepsAllIff(s: Ledger, hash: Hash, stored: bool)
    requires Inv(s) && s.mover.Moving? && s.mover.todo != [] && s.mover.todo[0] in s.recorded
    requires hash !in s.used
    ensures var v := s.mover.todo[0];
      var end := Do(Do(Do(s, Commit(hash)), File(stored)), Remove(true));
      NothingLost(end) <==> stored || v in s.check.Values || v in s.confirmed
  {
    var v := s.mover.todo[0];
    var filed := Do(Do(s, Commit(hash)), File(stored));
    var end := Do(filed, Remove(true));
    if stored {
      Step(s, Commit(hash));
      Step(Do(s, Commit(hash)), File(true));
      Step(filed, Remove(true));
    } else {
      assert end.check == s.check && end.retry == s.retry - {v};
      assert forall w :: w in s.recorded && w != v && Held(s, w) ==> Held(end, w);
      assert Held(end, v) <==> v in s.check.Values || v in s.confirmed;
    }
  }

  /** Filing under a hash already in use keeps every deposit exactly when its old entry is held elsewhere. */
  lemma FileKeepsAllIff(s: Ledger)
    requires NothingLost(s) && s.mover.Broadcast?
    requires s.mover.hash in s.check && s.check[s.mover.hash] in s.recorded
    ensures var h := s.mover.hash;
      NothingLost(Do(s, File(true))) <==> s.check[h] == s.mover.v || HeldWithout(s, s.check[h], h)
  {
    var h, t := s.mover.hash, Do(s, File(true));
    var was := s.check[h];
    forall v | v in s.recorded && v != was ensures Held(t, v) {
      assert Held(s, v);
      if v in s.check.Values {
        var j :| j in s.check && s.check[j] == v;
        assert j != h && j in t.check && t.check[j] == v;
      }
    }
    if s.check[h] == s.mover.v {
      assert t.check[h] == was;
      assert Held(t, was);
    } else if HeldWithout(s, was, h) {
      if j :| j in s.check && j != h && s.check[j] == was {
        assert j in t.check && t.check[j] == was;
      }
      assert Held(t, was);
    } else {
      assert !Held(t, was);
    }
  }

  /**
   The checker goes on to DeleteCheck whatever PutRetry said. Requeueing a failed entry keeps every
   deposit exactly when PutRetry was accepted or the entry is held elsewhere.
   */
  lemma RequeueKeepsAllIff(s: Ledger, h: Hash, stored: bool)
    requires Inv(s) && s.checker.Checking? && h in s.checker.left && h in s.check
    requires s.checker.left[h] in s.recorded
    ensures var end := Do(Do(s, Requeue(h, stored)), Clear(true));
      NothingLost(end) <==> stored || HeldWithout(s, s.checker.left[h], h)
  {
    var v := s.checker.left[h];
    var end := Do(Do(s, Requeue(h, stored)), Clear(true));
    assert end.check == s.check - {h} && s.check[h] == v;
    forall w | w in s.recorded && w != v ensures Held(end, w) {
      assert Held(s, w);
      if w in s.check.Values {
        var j :| j in s.check && s.check[j] == w;
        assert j in end.check && end.check[j] == w;
      }
    }
    if j :| j in s.check && j != h && s.check[j] == v {
      assert j in end.check && end.check[j] == v;
    }
    assert Held(end, v) <==> stored || HeldWithout(s, v, h);
  }

  /**
   The proviso on Requeue is needed. Let the checker find the mover's entry failed while the mover
   stands between PutCheck and DeleteRetry: PutRetry changes nothing, and DeleteCheck and DeleteRetry,
   in either order, then keep the entry exactly when it is held somewhere else.
   */
  lemma RequeueRace(s: Ledger)
    requires Inv(s) && s.mover.Filed? && s.checker.Checking? && s.mover.hash in s.checker.left
    requires s.mover.v in s.retry && s.mover.hash in s.check && s.checker.left[s.mover.hash] == s.mover.v
    ensures var v, h := s.mover.v, s.mover.hash;
      var queued := Do(s, Requeue(h, true));
      var end := Do(Do(queued, Clear(true)), Remove(true));
      && queued.retry == s.retry
      && Do(Do(queued, Remove(true)), Clear(true)) == end
      && (Held(end, v) <==> v in s.confirmed || exists j :: j in s.check && j != h && s.check[j] == v)
  {
    var v, h := s.mover.v, s.mover.hash;
    var queued := Do(s, Requeue(h, true));
    var end := Do(Do(queued, Clear(true)), Remove(true));
    assert end.check == s.check - {h};
    if j :| j in s.check && j != h && s.check[j] == v {
      assert j in end.check && end.check[j] == v;
    }
  }

  ghost predicate Leads(s: Ledger, es: seq<Event>, t: Ledger) {
    Legal(s, es) && Run(s, es) == t
  }

  lemma LeadsOn(s: Ledger, es: seq<Event>, t: Ledger, e: Event)
    requires Leads(s, es, t) && Enabled(t, e)
    ensures Leads(s, es + [e], Do(t, e))
  {
    RunMore(s, es, e);
  }

  /** Such a run, from an empty store: the deposit v ends up nowhere. */
  lemma RequeueRaceRun(v: Entry, h: Hash) returns (es: seq<Event>)
    ensures es == [Record(v, true), StartPass([v]), Commit(h), File(true), StartCheck([h]),
                   Requeue(h, true), Clear(true), Remove(true)]
    ensures Legal(Start({}, map[]), es)
    ensures v in Run(Start({}, map[]), es).recorded && !Held(Run(Start({}, map[]), es), v)
  {
    var s := Start({}, map[]);
    var s1 := Ledger({v}, map[], Resting, Waiting, {v}, {}, {});
    RunMore(s, [], Record(v, true));
    es := [] + [Record(v, true)];
    assert Leads(s, es, s1);
    es := Between(s, es, s1, v, h);
    es := LoseBoth(s, es, v, h);
  }

  /** v has been committed under h and filed, and the checker has listed h. */
  function BetweenPutAndDelete(v: Entry, h: Hash): Ledger {
    Ledger({v}, map[h := v], Filed(v, h, []), Checking(map[h := v]), {v}, {}, {h})
  }

  lemma Between(s: Ledger, es: seq<Event>, t: Ledger, v: Entry, h: Hash) returns (more: seq<Event>)
    requires Leads(s, es, t) && t == Ledger({v}, map[], Resting, Waiting, {v}, {}, {})
    ensures more == es + [StartPass([v]), Commit(h), File(true), StartCheck([h])]
    ensures Leads(s, more, BetweenPutAndDelete(v, h))
  {
    LeadsOn(s, es, t, StartPass([v]));
    var t1 := Do(t, StartPass([v]));
    LeadsOn(s, es + [StartPass([v])], t1, Commit(h));
    var t2 := Do(t1, Commit(h));
    LeadsOn(s, es + [StartPass([v])] + [Commit(h)], t2, File(true));
    var t3 := Do(t2, File(true));
    assert t3.check == map[h := v] && t3.check.Keys == {h};
    LeadsOn(s, es + [StartPass([v])] + [Commit(h)] + [File(true)], t3, StartCheck([h]));
    var t4 := Do(t3, StartCheck([h]));
    assert t4.checker.left == map[h := v] && t4.used == {h} && t4.mover == Filed(v, h, []);
    assert t4 == BetweenPutAndDelete(v, h);
    more := es + [StartPass([v])] + [Commit(h)] + [File(true)] + [StartCheck([h])];
  }

  lemma LoseBoth(s: Ledger, es: seq<Event>, v: Entry, h: Hash) returns (more: seq<Event>)
    requires Leads(s, es, BetweenPutAndDelete(v, h))
    ensures more == es + [Requeue(h, true), Clear(true), Remove(true)]
    ensures Legal(s, more) && v in Run(s, more).recorded && !Held(Run(s, more), v)
  {
    var t := BetweenPutAndDelete(v, h);
    LeadsOn(s, es, t, Requeue(h, true));
    var t1 := Do(t, Requeue(h, true));
    LeadsOn(s, es + [Requeue(h, true)], t1, Clear(true));
    var t2 := Do(t1, Clear(true));
    LeadsOn(s, es + [Requeue(h, true)] + [Clear(true)], t2, Remove(true));
    var t3 := Do(t2, Remove(true));
    assert t3.check == map[] && t3.retry == {} && t3.confirmed == {} && t3.recorded == {v};
    more := es + [Requeue(h, true)] + [Clear(true)] + [Remove(true)];
  }
}
