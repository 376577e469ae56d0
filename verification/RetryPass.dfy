/** One pass of the mover over the Retry bucket, and one pass of the checker over the Check bucket. */
module RetryPass {
  import opened Words
  import opened Bytes
  import opened CrossTransfers
  import opened DB
  import L = DepositLedger

  /** What commitProof sends: the header at a 32-bit height, the proof, and two fields of the deposit. */
  datatype Message = Message(height: uint32, proof: bytes, value: bytes, txId: bytes)

  /** The synced height, the confirmation depth, and the answers met, by position in the list. */
  datatype Pass = Pass(
    refHeight: uint64,
    blockConfig: uint64,
    mapping: bytes -> Option<bytes>,           // MappingKeyAt: the storage key of a transaction index
    proof: (nat, bytes, int) -> Option<bytes>, // GetProof of a storage key at a height
    commit: (nat, Message) -> Option<bytes>,   // commitProof: the broadcast hash; None is an error, on
                                               // which it panics
    filed: nat -> bool,                        // the store accepts PutCheck
    removed: nat -> bool,                      // the store accepts DeleteRetry
    before: nat -> seq<bytes>,                 // what the monitor puts in Retry up to the PutCheck of an entry
    between: nat -> seq<bytes>)                // and between its PutCheck and its DeleteRetry

  /** Why an entry is passed over. */
  datatype Cause =
    | Undecodable
    | Unmapped    // its index maps to no storage key
    | Immature    // the bridge has not synced far enough past its height
    | Unproved

  /** What becomes of one entry of the list. */
  datatype Fate = Skipped(cause: Cause) | Panicked | Done(hash: bytes, filed: bool, removed: bool)

  /** The height the proof is asked for, an int64; its low 32 bits name the header sent along. */
  function ProofHeight(p: Pass): int {
    Int64(Sub64(p.refHeight, p.blockConfig))
  }

  function FateOf(v: bytes, i: nat, p: Pass): Fate {
    var record := Decode(v);
    if record.None? then Skipped(Undecodable)
    else FateOfRecord(record.value.0, i, p)
  }

  function FateOfRecord(ct: CrossTransfer, i: nat, p: Pass): Fate {
    var key := p.mapping(ct.txIndex);
    if key.None? then Skipped(Unmapped)
    else if p.refHeight <= Add64(ct.height, p.blockConfig) then Skipped(Immature)
    else
      var proof := p.proof(i, key.value, ProofHeight(p));
      if proof.None? then Skipped(Unproved)
      else
        var hash := p.commit(i, Message(Low32(ProofHeight(p)), proof.value, ct.value, ct.txId));
        if hash.None? then Panicked else Done(hash.value, p.filed(i), p.removed(i))
  }

  /**
   f is what the answers decide for a decoded record. It is committed exactly when its index has a storage
   key, the bridge has synced more than the confirmation depth past it, its proof at that depth is
   answered, and the message made of that proof, its value and its txId is taken.
   */
  ghost predicate DecidedBy(ct: CrossTransfer, i: nat, p: Pass, f: Fate) {
    var key, height := p.mapping(ct.txIndex), Int64(Sub64(p.refHeight, p.blockConfig));
    var mature := p.refHeight > Add64(ct.height, p.blockConfig);
    && (f == Skipped(Unmapped) <==> key.None?)
    && (f == Skipped(Immature) <==> key.Some? && !mature)
    && (f == Skipped(Unproved) <==> key.Some? && mature && p.proof(i, key.value, height).None?)
    && (key.Some? && mature && p.proof(i, key.value, height).Some? ==>
          var sent := p.commit(i, Message(Low32(height), p.proof(i, key.value, height).value, ct.value, ct.txId));
          if sent.Some? then f == Done(sent.value, p.filed(i), p.removed(i)) else f == Panicked)
  }

  /** The same for an entry of the list: passed over if it is no record. */
  ghost predicate Decided(v: bytes, i: nat, p: Pass, f: Fate) {
    if Decode(v).None? then f == Skipped(Undecodable) else DecidedBy(Decode(v).value.0, i, p, f)
  }

  lemma FateIsDecided(v: bytes, i: nat, p: Pass)
    ensures Decided(v, i, p, FateOf(v, i, p))
  {
    if Decode(v).Some? {
      assert DecidedBy(Decode(v).value.0, i, p, FateOfRecord(Decode(v).value.0, i, p));
    }
  }

  /**
   A record is committed: it has a storage key, is mature and proved, and the message made of the proof,
   its value and its txId is taken.
   */
  ghost predicate Committable(ct: CrossTransfer, i: nat, p: Pass) {
    && p.mapping(ct.txIndex).Some?
    && p.refHeight > Add64(ct.height, p.blockConfig)
    && var height := Int64(Sub64(p.refHeight, p.blockConfig));
       var proof := p.proof(i, p.mapping(ct.txIndex).value, height);
       proof.Some? && p.commit(i, Message(Low32(height), proof.value, ct.value, ct.txId)).Some?
  }

  lemma RecordIsCommittedIff(ct: CrossTransfer, i: nat, p: Pass, f: Fate)
    requires DecidedBy(ct, i, p, f)
    ensures f == FateOfRecord(ct, i, p) && (f.Done? <==> Committable(ct, i, p))
  {
  }

  /** The answers leave no choice, and an entry is committed exactly when it is a record that can be. */
  lemma CommittedIff(v: bytes, i: nat, p: Pass, f: Fate)
    requires Decided(v, i, p, f)
    ensures f == FateOf(v, i, p) && (f.Done? <==> Decode(v).Some? && Committable(Decode(v).value.0, i, p))
  {
    if Decode(v).Some? {
      RecordIsCommittedIff(Decode(v).value.0, i, p, f);
    }
  }

  /** A proof was asked for. */
  predicate Asked(f: Fate) {
    f.Skipped? ==> f.cause.Unproved?
  }

  /**
   The proof of an entry is asked for at the synced height less the confirmation depth, and that is
   above the deposit's own height, exactly when neither sum nor conversion wraps. The header sent with
   it is the one at that height exactly below 2^32.
   */
  lemma ProofIsLaterIff(v: bytes, i: nat, p: Pass)
    requires Asked(FateOf(v, i, p))
    ensures Decode(v).Some?
    ensures var height := Decode(v).value.0.height;
      ProofHeight(p) == p.refHeight - p.blockConfig > height <==>
        height + p.blockConfig < TWO_64 && p.refHeight - p.blockConfig < TWO_63
    ensures Low32(ProofHeight(p)) == ProofHeight(p) <==> Sub64(p.refHeight, p.blockConfig) < TWO_32
  {
    AskedIsMature(v, i, p);
    LaterIff(Decode(v).value.0.height, p);
  }

  lemma AskedIsMature(v: bytes, i: nat, p: Pass)
    requires Asked(FateOf(v, i, p))
    ensures Decode(v).Some? && p.refHeight > Add64(Decode(v).value.0.height, p.blockConfig)
  {
  }

  lemma LaterIff(height: uint64, p: Pass)
    requires p.refHeight > Add64(height, p.blockConfig)
    ensures ProofHeight(p) == p.refHeight - p.blockConfig > height <==>
      height + p.blockConfig < TWO_64 && p.refHeight - p.blockConfig < TWO_63
    ensures Low32(ProofHeight(p)) == ProofHeight(p) <==> Sub64(p.refHeight, p.blockConfig) < TWO_32
  {
    var low := Sub64(p.refHeight, p.blockConfig);
    assert low % TWO_64 == low;
  }

  // ---- The mover ---------------------------------------------------------------------------------------

  function Elements(vs: seq<bytes>): set<bytes> {
    set v | v in vs
  }

  /** The monitor's PutRetry calls that the store accepts. */
  method PutAll(db: BoltDB, vs: seq<bytes>)
    modifies db`retry
    ensures db.retry == old(db.retry) + Elements(vs)
  {
    for i := 0 to |vs|
      invariant db.retry == old(db.retry) + Elements(vs[..i])
    {
      var _ := db.PutRetry(vs[i], true);
      assert vs[..i + 1] == vs[..i] + [vs[i]];
    }
    assert vs[..|vs|] == vs;
  }

  /** Retry after an entry was visited, with what the monitor put in meanwhile. */
  function RetryAfter(retry: set<bytes>, v: bytes, i: nat, f: Fate, p: Pass): set<bytes> {
    var met := retry + Elements(p.before(i));
    if !f.Done? then met
    else if f.removed then met + Elements(p.between(i)) - {v}
    else met + Elements(p.between(i))
  }

  function CheckAfter(check: map<bytes, bytes>, v: bytes, f: Fate): map<bytes, bytes> {
    if f.Done? && f.filed then check[f.hash := v] else check
  }

  /** One entry of the list, as long as its proof can be committed: PutCheck and then DeleteRetry. */
  method MoveEntry(db: BoltDB, v: bytes, i: nat, p: Pass) returns (r: Fate)
    modifies db`check, db`retry
    ensures r == FateOf(v, i, p)
    ensures db.check == CheckAfter(old(db.check), v, r)
    ensures db.retry == RetryAfter(old(db.retry), v, i, r, p)
  {
    PutAll(db, p.before(i));
    var source := new ZeroCopySource(v);
    var crosstx := Deserialization(source);
    if crosstx.None? {
      return Skipped(Undecodable);
    }
    var key := p.mapping(crosstx.value.txIndex);
    if key.None? {
      return Skipped(Unmapped);
    }
    if p.refHeight <= Add64(crosstx.value.height, p.blockConfig) {
      return Skipped(Immature);
    }
    var height := Int64(Sub64(p.refHeight, p.blockConfig));
    var proof := p.proof(i, key.value, height);
    if proof.None? {
      return Skipped(Unproved);
    }
    var hash := p.commit(i, Message(Low32(height), proof.value, crosstx.value.value, crosstx.value.txId));
    if hash.None? {
      return Panicked;
    }
    var txHash := Upper(HexEncode(hash.value));
    HexRoundTrip(hash.value);
    var _ := db.PutCheck(txHash, v, p.filed(i));
    PutAll(db, p.between(i));
    var _ := db.DeleteRetry(v, p.removed(i));
    r := Done(hash.value, p.filed(i), p.removed(i));
  }

  function RecordAll(vs: seq<bytes>): seq<L.Event> {
    if vs == [] then [] else RecordAll(vs[..|vs| - 1]) + [L.Record(vs[|vs| - 1], true)]
  }

  /** What happens to the store around an entry, as events of the ledger. */
  function FateEvents(f: Fate, i: nat, p: Pass): seq<L.Event> {
    RecordAll(p.before(i)) +
    match f
    case Skipped(_) => [L.Skip]
    case Panicked => [L.Crash]
    case Done(hash, filed, removed) =>
      [L.Commit(hash), L.File(filed)] + RecordAll(p.between(i)) + [L.Remove(removed)]
  }

  /** The events of a pass over the first entries of a list, with their fates. */
  function PassEvents(list: seq<bytes>, fates: seq<Fate>, p: Pass): seq<L.Event> {
    if fates == [] then [L.StartPass(list)]
    else PassEvents(list, fates[..|fates| - 1], p) + FateEvents(fates[|fates| - 1], |fates| - 1, p)
  }

  /** The ledger state s agrees with the store. */
  ghost predicate Agrees(db: BoltDB, s: L.Ledger)
    reads db
  {
    s.retry == db.retry && s.check == db.check
  }

  /** The fates of the first n entries, as the answers decide them. */
  function FatesUpTo(list: seq<bytes>, n: nat, p: Pass): (r: seq<Fate>)
    requires n <= |list|
    ensures |r| == n
  {
    if n == 0 then [] else FatesUpTo(list, n - 1, p) + [FateOf(list[n - 1], n - 1, p)]
  }

  lemma {:induction false} FateAt(list: seq<bytes>, n: nat, p: Pass, i: nat)
    requires i < n <= |list|
    ensures FatesUpTo(list, n, p)[i] == FateOf(list[i], i, p)
  {
    if i < n - 1 {
      FateAt(list, n - 1, p, i);
    }
  }

  predicate NoPanic(fates: seq<Fate>) {
    forall i :: 0 <= i < |fates| ==> !fates[i].Panicked?
  }

  /** A pass ends at its first panic. */
  predicate PanicsLast(fates: seq<Fate>) {
    forall i :: 0 <= i < |fates| - 1 ==> !fates[i].Panicked?
  }

  /** The pass so far: its fates, and the store as the ledger has it after the same events. */
  ghost predicate Passed(db: BoltDB, s: L.Ledger, list: seq<bytes>, fates: seq<Fate>, p: Pass)
    reads db
  {
    L.Legal(s, PassEvents(list, fates, p)) && Agrees(db, L.Run(s, PassEvents(list, fates, p)))
  }

  /** The mover stands before entry i of the list. */
  ghost predicate AtEntry(s: L.Ledger, list: seq<bytes>, fates: seq<Fate>, p: Pass) {
    |fates| <= |list| && L.Legal(s, PassEvents(list, fates, p))
    && L.Run(s, PassEvents(list, fates, p)).mover == L.Moving(list[|fates|..])
  }

  /** The loop over the list: it stops early only where commitProof panics. */
  method VisitAll(db: BoltDB, retryList: seq<bytes>, p: Pass, ghost s: L.Ledger)
    returns (ghost fates: seq<Fate>, panicked: bool)
    requires Passed(db, s, retryList, [], p) && AtEntry(s, retryList, [], p)
    modifies db`check, db`retry
    ensures |fates| <= |retryList| && fates == FatesUpTo(retryList, |fates|, p) && Passed(db, s, retryList, fates, p)
    ensures PanicsLast(fates)
    ensures if panicked then fates != [] && fates[|fates| - 1].Panicked? else |fates| == |retryList| && NoPanic(fates)
  {
    fates, panicked := [], false;
    for i := 0 to |retryList|
      invariant |fates| == i && fates == FatesUpTo(retryList, i, p) && NoPanic(fates)
      invariant Passed(db, s, retryList, fates, p) && AtEntry(s, retryList, fates, p)
    {
      var r := VisitEntry(db, retryList[i], i, p, s, retryList, fates);
      assert (fates + [r])[..i] == fates;
      fates := fates + [r];
      if r.Panicked? {
        panicked := true;
        return;
      }
    }
  }

  /** Moves one entry, with the ledger keeping step. */
  method VisitEntry(db: BoltDB, v: bytes, i: nat, p: Pass, ghost s: L.Ledger, ghost list: seq<bytes>, ghost fates: seq<Fate>)
    returns (r: Fate)
    requires |fates| == i < |list| && list[i] == v && Passed(db, s, list, fates, p) && AtEntry(s, list, fates, p)
    modifies db`check, db`retry
    ensures r == FateOf(v, i, p)
    ensures Passed(db, s, list, fates + [r], p) && (!r.Panicked? ==> AtEntry(s, list, fates + [r], p))
  {
    r := MoveEntry(db, v, i, p);
    PassStep(s, list, fates, r, p);
  }

  lemma PassStart(s: L.Ledger, list: seq<bytes>, p: Pass)
    requires s.mover.Resting? && FirstKeys(list, s.retry, MAX_NUM)
    ensures L.Legal(s, PassEvents(list, [], p)) && L.Run(s, PassEvents(list, [], p)) == s.(mover := L.Moving(list[0..]))
  {
    L.RunMore(s, [], L.StartPass(list));
    assert PassEvents(list, [], p) == [] + [L.StartPass(list)];
    assert list[0..] == list;
  }

  function WithRecords(t: L.Ledger, vs: seq<bytes>): L.Ledger {
    t.(retry := t.retry + Elements(vs), recorded := t.recorded + Elements(vs))
  }

  lemma {:induction false} RecordsLead(s: L.Ledger, es: seq<L.Event>, t: L.Ledger, vs: seq<bytes>)
    requires L.Leads(s, es, t)
    ensures L.Leads(s, es + RecordAll(vs), WithRecords(t, vs))
  {
    if vs == [] {
      assert es + [] == es;
    } else {
      var init, v := vs[..|vs| - 1], vs[|vs| - 1];
      RecordsLead(s, es, t, init);
      L.LeadsOn(s, es + RecordAll(init), WithRecords(t, init), L.Record(v, true));
      assert vs == init + [v];
      assert es + RecordAll(vs) == es + RecordAll(init) + [L.Record(v, true)];
    }
  }

  lemma FiledLeads(s: L.Ledger, es: seq<L.Event>, t: L.Ledger, hash: bytes, filed: bool) returns (end: L.Ledger)
    requires L.Leads(s, es, t) && t.mover.Moving? && t.mover.todo != []
    ensures L.Leads(s, es + [L.Commit(hash), L.File(filed)], end)
    ensures end.mover == L.Filed(t.mover.todo[0], hash, t.mover.todo[1..]) && end.retry == t.retry
    ensures end.check == if filed then t.check[hash := t.mover.todo[0]] else t.check
  {
    L.LeadsOn(s, es, t, L.Commit(hash));
    L.LeadsOn(s, es + [L.Commit(hash)], L.Do(t, L.Commit(hash)), L.File(filed));
    assert es + [L.Commit(hash)] + [L.File(filed)] == es + [L.Commit(hash), L.File(filed)];
    end := L.Do(L.Do(t, L.Commit(hash)), L.File(filed));
  }

  /** Commit, PutCheck and DeleteRetry, with what the monitor puts in between. */
  lemma DoneLeads(s: L.Ledger, es: seq<L.Event>, t: L.Ledger, f: Fate, vs: seq<bytes>) returns (end: L.Ledger)
    requires L.Leads(s, es, t) && t.mover.Moving? && t.mover.todo != [] && f.Done?
    ensures L.Leads(s, es + [L.Commit(f.hash), L.File(f.filed)] + RecordAll(vs) + [L.Remove(f.removed)], end)
    ensures end.mover == L.Moving(t.mover.todo[1..]) && end.check == CheckAfter(t.check, t.mover.todo[0], f)
    ensures end.retry == t.retry + Elements(vs) - (if f.removed then {t.mover.todo[0]} else {})
  {
    var filed := FiledLeads(s, es, t, f.hash, f.filed);
    var more := es + [L.Commit(f.hash), L.File(f.filed)];
    RecordsLead(s, more, filed, vs);
    L.LeadsOn(s, more + RecordAll(vs), WithRecords(filed, vs), L.Remove(f.removed));
    end := L.Do(WithRecords(filed, vs), L.Remove(f.removed));
  }

  lemma DoneEvents(es: seq<L.Event>, f: Fate, i: nat, p: Pass)
    requires f.Done?
    ensures es + FateEvents(f, i, p) ==
      es + RecordAll(p.before(i)) + [L.Commit(f.hash), L.File(f.filed)] + RecordAll(p.between(i)) + [L.Remove(f.removed)]
  {
  }

  /** The events around one entry. */
  lemma EntryLeads(s: L.Ledger, es: seq<L.Event>, t: L.Ledger, f: Fate, i: nat, p: Pass) returns (end: L.Ledger)
    requires L.Leads(s, es, t) && t.mover.Moving? && t.mover.todo != []
    ensures L.Leads(s, es + FateEvents(f, i, p), end)
    ensures !f.Panicked? ==> end.mover == L.Moving(t.mover.todo[1..])
    ensures end.check == CheckAfter(t.check, t.mover.todo[0], f)
    ensures end.retry == RetryAfter(t.retry, t.mover.todo[0], i, f, p)
  {
    RecordsLead(s, es, t, p.before(i));
    var met, t1 := es + RecordAll(p.before(i)), WithRecords(t, p.before(i));
    match f
    case Skipped(_) =>
      L.LeadsOn(s, met, t1, L.Skip);
      end := L.Do(t1, L.Skip);
      assert met + [L.Skip] == es + FateEvents(f, i, p);
    case Panicked =>
      L.LeadsOn(s, met, t1, L.Crash);
      end := L.Do(t1, L.Crash);
      assert met + [L.Crash] == es + FateEvents(f, i, p);
    case Done(hash, filed, removed) =>
      end := DoneLeads(s, met, t1, f, p.between(i));
      DoneEvents(es, f, i, p);
  }

  /** The ledger after one more entry of a pass. */
  lemma PassStep(s: L.Ledger, list: seq<bytes>, fates: seq<Fate>, f: Fate, p: Pass)
    requires |fates| < |list| && L.Legal(s, PassEvents(list, fates, p))
    requires L.Run(s, PassEvents(list, fates, p)).mover == L.Moving(list[|fates|..])
    ensures var before, es := L.Run(s, PassEvents(list, fates, p)), PassEvents(list, fates + [f], p);
      && L.Legal(s, es)
      && (!f.Panicked? ==> L.Run(s, es).mover == L.Moving(list[|fates| + 1..]))
      && L.Run(s, es).check == CheckAfter(before.check, list[|fates|], f)
      && L.Run(s, es).retry == RetryAfter(before.retry, list[|fates|], |fates|, f, p)
  {
    var es, i := PassEvents(list, fates, p), |fates|;
    assert (fates + [f])[..i] == fates;
    assert list[i..][0] == list[i] && list[i..][1..] == list[i + 1..];
    var end := EntryLeads(s, es, L.Run(s, es), f, i, p);
  }

  // ---- The net effect of a pass --------------------------------------------------------------------------

  /** Entry i was committed and left Retry. */
  predicate Left(fates: seq<Fate>, i: nat) {
    i < |fates| && fates[i].Done? && fates[i].removed
  }

  /** Entry i was committed and filed in Check under h. */
  predicate FiledAs(fates: seq<Fate>, i: nat, h: bytes) {
    i < |fates| && fates[i].Done? && fates[i].filed && fates[i].hash == h
  }

  /** Some entry was filed in Check under h. */
  ghost predicate Files(fates: seq<Fate>, h: bytes) {
    exists i: nat :: FiledAs(fates, i, h)
  }

  /** No entry of the list from position `from` on that was committed and left Retry is v. */
  ghost predicate Survives(list: seq<bytes>, fates: seq<Fate>, v: bytes, from: nat)
    requires |fates| <= |list|
  {
    forall j: nat :: from <= j && Left(fates, j) ==> list[j] != v
  }

  /** The monitor put v in Retry while entry i was visited, before its DeleteRetry. */
  predicate PutIn(p: Pass, fates: seq<Fate>, v: bytes, i: nat) {
    i < |fates| && (v in p.before(i) || (fates[i].Done? && v in p.between(i)))
  }

  /** v was put in Retry during the pass and not removed after that. */
  ghost predicate PutAgain(list: seq<bytes>, fates: seq<Fate>, p: Pass, v: bytes)
    requires |fates| <= |list|
  {
    exists i: nat :: PutIn(p, fates, v, i) && Survives(list, fates, v, i)
  }

  /** The hashes of a pass are distinct, and new to the Check bucket. */
  ghost predicate FreshHashes(fates: seq<Fate>, check: map<bytes, bytes>) {
    && (forall i: nat, h :: FiledAs(fates, i, h) ==> h !in check)
    && (forall i: nat, j: nat, h :: FiledAs(fates, i, h) && FiledAs(fates, j, h) ==> i == j)
  }

  /**
   Retry lost exactly the committed entries (whose removal was accepted), and gained what the monitor put
   in and the pass did not remove after that.
   */
  ghost predicate RetryNet(list: seq<bytes>, fates: seq<Fate>, p: Pass, before: set<bytes>, after: set<bytes>)
    requires |fates| <= |list|
  {
    forall v :: v in after <==> (v in before && Survives(list, fates, v, 0)) || PutAgain(list, fates, p, v)
  }

  lemma SurvivesMore(list: seq<bytes>, fates: seq<Fate>, f: Fate, v: bytes, i: nat)
    requires |fates| < |list| && i <= |fates|
    ensures Survives(list, fates + [f], v, i) <==>
      Survives(list, fates, v, i) && !(f.Done? && f.removed && list[|fates|] == v)
  {
    var more, n := fates + [f], |fates|;
    assert forall j: nat :: Left(more, j) <==> Left(fates, j) || (j == n && f.Done? && f.removed);
  }

  lemma PutAgainMore(list: seq<bytes>, fates: seq<Fate>, f: Fate, p: Pass, v: bytes)
    requires |fates| < |list|
    ensures PutAgain(list, fates + [f], p, v) <==>
      && !(f.Done? && f.removed && list[|fates|] == v)
      && (PutAgain(list, fates, p, v) || v in p.before(|fates|) || (f.Done? && v in p.between(|fates|)))
  {
    var more, n := fates + [f], |fates|;
    if i: nat :| PutIn(p, more, v, i) && Survives(list, more, v, i) {
      SurvivesMore(list, fates, f, v, i);
      assert i < n ==> PutIn(p, fates, v, i);
    }
    if i: nat :| PutIn(p, fates, v, i) && Survives(list, fates, v, i) {
      SurvivesMore(list, fates, f, v, i);
      assert PutIn(p, more, v, i);
    }
    SurvivesMore(list, fates, f, v, n);
    assert Survives(list, fates, v, n);
    assert PutIn(p, more, v, n) <==> v in p.before(n) || (f.Done? && v in p.between(n));
  }

  lemma RetryNetMore(list: seq<bytes>, fates: seq<Fate>, f: Fate, p: Pass,
                     before: set<bytes>, mid: set<bytes>, after: set<bytes>)
    requires |fates| < |list| && RetryNet(list, fates, p, before, mid)
    requires after == RetryAfter(mid, list[|fates|], |fates|, f, p)
    ensures RetryNet(list, fates + [f], p, before, after)
  {
    forall v ensures v in after <==>
      (v in before && Survives(list, fates + [f], v, 0)) || PutAgain(list, fates + [f], p, v)
    {
      SurvivesMore(list, fates, f, v, 0);
      PutAgainMore(list, fates, f, p, v);
    }
  }

  /** Check gained exactly the hash -> entry pairs of the committed entries (whose filing was accepted). */
  ghost predicate CheckNet(list: seq<bytes>, fates: seq<Fate>, before: map<bytes, bytes>, after: map<bytes, bytes>)
    requires |fates| <= |list|
  {
    && (forall h :: h in after <==> h in before || Files(fates, h))
    && (forall h :: h in before ==> after[h] == before[h])
    && (forall i: nat, h :: FiledAs(fates, i, h) ==> after[h] == list[i])
  }

  lemma {:induction false} RetryAfterPass(s: L.Ledger, list: seq<bytes>, fates: seq<Fate>, p: Pass)
    requires |fates| <= |list| && s.mover.Resting? && FirstKeys(list, s.retry, MAX_NUM)
    requires PanicsLast(fates)
    ensures var es := PassEvents(list, fates, p);
      && L.Legal(s, es) && (NoPanic(fates) ==> L.Run(s, es).mover == L.Moving(list[|fates|..]))
      && RetryNet(list, fates, p, s.retry, L.Run(s, es).retry)
  {
    PassStart(s, list, p);
    if fates != [] {
      var init, n := fates[..|fates| - 1], |fates| - 1;
      assert fates == init + [fates[n]];
      RetryAfterPass(s, list, init, p);
      PassStep(s, list, init, fates[n], p);
      RetryNetMore(list, init, fates[n], p, s.retry, L.Run(s, PassEvents(list, init, p)).retry,
                   L.Run(s, PassEvents(list, fates, p)).retry);
    }
  }

  lemma FreshBefore(fates: seq<Fate>, f: Fate, check: map<bytes, bytes>)
    requires FreshHashes(fates + [f], check)
    ensures FreshHashes(fates, check)
    ensures f.Done? && f.filed ==> f.hash !in check && forall i: nat :: !FiledAs(fates, i, f.hash)
  {
    var more := fates + [f];
    assert forall i: nat, h :: FiledAs(fates, i, h) <==> i < |fates| && FiledAs(more, i, h);
    if f.Done? && f.filed {
      assert FiledAs(more, |fates|, f.hash);
    }
  }

  lemma CheckNetMore(list: seq<bytes>, fates: seq<Fate>, f: Fate,
                     before: map<bytes, bytes>, mid: map<bytes, bytes>, after: map<bytes, bytes>)
    requires |fates| < |list| && CheckNet(list, fates, before, mid) && FreshHashes(fates + [f], before)
    requires after == CheckAfter(mid, list[|fates|], f)
    ensures CheckNet(list, fates + [f], before, after)
  {
    var more, n := fates + [f], |fates|;
    FreshBefore(fates, f, before);
    forall i: nat, h ensures FiledAs(more, i, h) <==> FiledAs(fates, i, h) || (i == n && f.Done? && f.filed && h == f.hash) {
    }
    forall h ensures Files(more, h) <==> Files(fates, h) || (f.Done? && f.filed && h == f.hash) {
      if f.Done? && f.filed && h == f.hash {
        assert FiledAs(more, n, h);
      }
      if i: nat :| FiledAs(fates, i, h) {
        assert FiledAs(more, i, h);
      }
    }
  }

  lemma {:induction false} CheckAfterPass(s: L.Ledger, list: seq<bytes>, fates: seq<Fate>, p: Pass)
    requires |fates| <= |list| && s.mover.Resting? && FirstKeys(list, s.retry, MAX_NUM)
    requires PanicsLast(fates) && FreshHashes(fates, s.check)
    ensures var es := PassEvents(list, fates, p);
      L.Legal(s, es) && CheckNet(list, fates, s.check, L.Run(s, es).check)
  {
    PassStart(s, list, p);
    if fates != [] {
      var init, n := fates[..|fates| - 1], |fates| - 1;
      assert fates == init + [fates[n]];
      FreshBefore(init, fates[n], s.check);
      CheckAfterPass(s, list, init, p);
      RetryAfterPass(s, list, init, p);
      PassStep(s, list, init, fates[n], p);
      CheckNetMore(list, init, fates[n], s.check, L.Run(s, PassEvents(list, init, p)).check,
                   L.Run(s, PassEvents(list, fates, p)).check);
    }
  }

  /** Entry i of the list was not reached, or was skipped, panicked on, or refused to be removed. */
  predicate Stays(fates: seq<Fate>, i: nat) {
    i < |fates| && fates[i].Done? ==> !fates[i].removed
  }

  /**
   Why an entry is still in Retry after a pass: it comes after the first 1000 keys, or the pass did not
   reach it or skipped it or panicked on it, or its removal was refused, or the monitor put it in again.
   */
  lemma WhyStillInRetry(s: L.Ledger, list: seq<bytes>, fates: seq<Fate>, p: Pass, v: bytes)
    requires s.mover.Resting? && FirstKeys(list, s.retry, MAX_NUM) && |fates| <= |list|
    requires PanicsLast(fates)
    requires v in s.retry
    ensures L.Legal(s, PassEvents(list, fates, p))
    ensures v in L.Run(s, PassEvents(list, fates, p)).retry <==>
      || (|list| == MAX_NUM && forall i :: 0 <= i < |list| ==> Less(list[i], v))
      || (exists i: nat :: i < |list| && list[i] == v && Stays(fates, i))
      || PutAgain(list, fates, p, v)
  {
    RetryAfterPass(s, list, fates, p);
    WhySurvives(s.retry, list, fates, v);
  }

  lemma WhySurvives(retry: set<bytes>, list: seq<bytes>, fates: seq<Fate>, v: bytes)
    requires FirstKeys(list, retry, MAX_NUM) && |fates| <= |list| && v in retry
    ensures Survives(list, fates, v, 0) <==>
      || (|list| == MAX_NUM && forall i :: 0 <= i < |list| ==> Less(list[i], v))
      || (exists i: nat :: i < |list| && list[i] == v && Stays(fates, i))
  {
    ScanIsDistinct(list, retry, MAX_NUM);
    if v in list {
      var i: nat :| i < |list| && list[i] == v;
      LessIsIrreflexive(v);
      assert Survives(list, fates, v, 0) <==> !Left(fates, i);
      assert Left(fates, i) <==> !Stays(fates, i);
    } else {
      assert Survives(list, fates, v, 0);
      if |retry| <= MAX_NUM {
        AllScanned(list, retry);
      }
    }
  }

  /** An entry that is not committed stays in Retry, and the pass files nothing for it. */
  lemma UncommittedStays(s: L.Ledger, list: seq<bytes>, fates: seq<Fate>, p: Pass, i: nat)
    requires s.mover.Resting? && FirstKeys(list, s.retry, MAX_NUM) && |fates| <= |list|
    requires PanicsLast(fates) && i < |fates| && !fates[i].Done?
    ensures L.Legal(s, PassEvents(list, fates, p)) && list[i] in L.Run(s, PassEvents(list, fates, p)).retry
    ensures forall h :: !FiledAs(fates, i, h)
    ensures FreshHashes(fates, s.check) ==>
              forall h :: h in L.Run(s, PassEvents(list, fates, p)).check && h !in s.check ==>
                L.Run(s, PassEvents(list, fates, p)).check[h] != list[i]
  {
    WhyStillInRetry(s, list, fates, p, list[i]);
    assert Stays(fates, i);
    if FreshHashes(fates, s.check) {
      CheckAfterPass(s, list, fates, p);
      ScanIsDistinct(list, s.retry, MAX_NUM);
      NotFiled(list, fates, s.check, L.Run(s, PassEvents(list, fates, p)).check, i);
    }
  }

  lemma NotFiled(list: seq<bytes>, fates: seq<Fate>, before: map<bytes, bytes>, after: map<bytes, bytes>, i: nat)
    requires |fates| <= |list| && CheckNet(list, fates, before, after) && Distinct(list)
    requires i < |fates| && !fates[i].Done?
    ensures forall h :: h in after && h !in before ==> after[h] != list[i]
  {
    forall h | h in after && h !in before ensures after[h] != list[i] {
      var j: nat :| FiledAs(fates, j, h);
      assert after[h] == list[j] && j != i;
    }
  }

  /** In particular an entry whose proof is not answered. */
  lemma UnprovedStays(s: L.Ledger, list: seq<bytes>, fates: seq<Fate>, p: Pass, i: nat)
    requires s.mover.Resting? && FirstKeys(list, s.retry, MAX_NUM) && |fates| <= |list|
    requires PanicsLast(fates) && i < |fates| && Decided(list[i], i, p, fates[i]) && Decode(list[i]).Some?
    requires p.mapping(Decode(list[i]).value.0.txIndex).Some?
    requires p.proof(i, p.mapping(Decode(list[i]).value.0.txIndex).value, Int64(Sub64(p.refHeight, p.blockConfig))).None?
    ensures L.Legal(s, PassEvents(list, fates, p)) && list[i] in L.Run(s, PassEvents(list, fates, p)).retry
    ensures forall h :: !FiledAs(fates, i, h)
  {
    CommittedIff(list[i], i, p, fates[i]);
    UncommittedStays(s, list, fates, p, i);
  }

  /**
   A pass visits the scanned entries in order, each with the fate the answers decide, and stops early
   only where commitProof panics, whatever the monitor puts in Retry between its store calls. The store
   ends as the ledger does after exactly the events of the entries visited: Retry has lost the committed
   entries, and Check has gained them under their hashes.
   */
  method HandleLockDepositEvents(db: BoltDB, p: Pass, listed: bool, ghost s: L.Ledger)
    returns (ghost list: seq<bytes>, ghost fates: seq<Fate>, panicked: bool)
    requires Agrees(db, s) && s.mover.Resting?
    modifies db`check, db`retry
    ensures !listed ==> db.retry == old(db.retry) && db.check == old(db.check) && !panicked
    ensures listed ==> FirstKeys(list, old(db.retry), MAX_NUM)
    ensures |fates| <= |list|
    ensures forall i :: 0 <= i < |fates| ==> fates[i] == FateOf(list[i], i, p) && Decided(list[i], i, p, fates[i])
    ensures PanicsLast(fates) && (panicked <==> fates != [] && fates[|fates| - 1].Panicked?)
    ensures listed && !panicked ==> |fates| == |list|
    ensures listed ==> Passed(db, s, list, fates, p) && RetryNet(list, fates, p, old(db.retry), db.retry)
    ensures listed && FreshHashes(fates, old(db.check)) ==> CheckNet(list, fates, old(db.check), db.check)
  {
    list, fates, panicked := [], [], false;
    var retryList := db.GetAllRetry(listed);
    if retryList.None? {
      return;
    }
    list := retryList.value;
    PassStart(s, list, p);
    fates, panicked := VisitAll(db, retryList.value, p, s);
    forall i | 0 <= i < |fates| ensures fates[i] == FateOf(list[i], i, p) && Decided(list[i], i, p, fates[i]) {
      FateAt(list, |fates|, p, i);
      FateIsDecided(list[i], i, p);
    }
    RetryAfterPass(s, list, fates, p);
    if FreshHashes(fates, s.check) {
      CheckAfterPass(s, list, fates, p);
    }
  }

  // ---- The checker as written -------------------------------------------------------------------------------

  /** The transaction result for one hash: its code if found, and whether the lookup failed. */
  datatype Lookup = Lookup(resTx: Option<nat>, err: bool)

  /** The listed entries whose text is still to do. */
  ghost function Remaining(check: map<bytes, bytes>, ks: seq<bytes>, text: bytes -> bytes, todo: set<bytes>)
    : map<bytes, bytes>
  {
    map h | h in ks && h in check && text(h) in todo :: check[h]
  }

  /** The ledger after the events es, all of them as written: only the checker has moved, with `todo` to go. */
  ghost predicate Checked(s: L.Ledger, es: seq<L.Event>, ks: seq<bytes>, text: bytes -> bytes, todo: set<bytes>) {
    && L.Legal(s, es) && (forall e :: e in es ==> L.AsWritten(e))
    && L.Run(s, es) == s.(checker := L.Checking(Remaining(s.check, ks, text, todo)))
  }

  lemma CheckStart(s: L.Ledger, ks: seq<bytes>, text: bytes -> bytes, view: map<bytes, bytes>)
    requires s.checker.Waiting? && FirstKeys(ks, s.check.Keys, MAX_NUM) && IsView(view, s.check, ks, text)
    ensures Checked(s, [L.StartCheck(ks)], ks, text, view.Keys)
  {
    L.RunMore(s, [], L.StartCheck(ks));
    assert [] + [L.StartCheck(ks)] == [L.StartCheck(ks)];
    assert (map h | h in ks && h in s.check :: s.check[h]) == Remaining(s.check, ks, text, view.Keys);
  }

  /** Leaving the entry listed under k. */
  lemma LeaveOne(s: L.Ledger, es: seq<L.Event>, ks: seq<bytes>, text: bytes -> bytes, view: map<bytes, bytes>,
                 todo: set<bytes>, k: bytes)
    returns (more: seq<L.Event>)
    requires Checked(s, es, ks, text, todo) && Injective(text) && IsView(view, s.check, ks, text)
    requires k in todo && todo <= view.Keys
    ensures Checked(s, more, ks, text, todo - {k})
    ensures es <= more && |more| == |es| + 1
  {
    assert k in view.Keys;
    var h :| h in ks && text(h) == k;
    L.RunMore(s, es, L.Leave(h));
    assert Remaining(s.check, ks, text, todo) - {h} == Remaining(s.check, ks, text, todo - {k});
    more := es + [L.Leave(h)];
  }

  lemma CheckEnd(s: L.Ledger, es: seq<L.Event>, ks: seq<bytes>, text: bytes -> bytes)
    requires Checked(s, es, ks, text, {}) && s.checker.Waiting?
    ensures L.Legal(s, es + [L.EndCheck]) && L.Run(s, es + [L.EndCheck]) == s
    ensures forall e :: e in es + [L.EndCheck] ==> L.AsWritten(e)
  {
    assert Remaining(s.check, ks, text, {}) == map[];
    L.RunMore(s, es, L.EndCheck);
  }

  /**
   The body of the check pass as written: an entry that is found is left, an entry that is not found is
   left, and the lines that would requeue or delete are never reached.
   */
  method CheckEntry(answer: Lookup) returns (left: bool)
    ensures left
  {
    if answer.resTx.Some? {
      return true;
    }
    if answer.err {
      return true;
    }
    if answer.resTx.None? {
      return true;
    }
    assert false;
  }

  /** The loop over the listed entries, in some order. */
  method CheckEntries(checkMap: map<bytes, bytes>, lookup: bytes -> Lookup,
                      ghost s: L.Ledger, ghost start: seq<L.Event>, ghost ks: seq<bytes>, ghost text: bytes -> bytes)
    returns (seen: nat, ghost es: seq<L.Event>)
    requires Checked(s, start, ks, text, checkMap.Keys)
    requires IsView(checkMap, s.check, ks, text) && Injective(text)
    ensures seen == |checkMap.Keys| && Checked(s, es, ks, text, {})
    ensures start <= es && |es| == |start| + seen
  {
    seen, es := 0, start;
    var todo := checkMap.Keys;
    while todo != {}
      invariant todo <= checkMap.Keys && seen + |todo| == |checkMap.Keys|
      invariant Checked(s, es, ks, text, todo)
      invariant start <= es && |es| == |start| + seen
      decreases |todo|
    {
      var k :| k in todo;
      es := LeaveOne(s, es, ks, text, checkMap, todo, k);
      todo, seen := todo - {k}, seen + 1;
      var _ := CheckEntry(lookup(k));
    }
  }

  /** A pass over the listing, as events of the checker. */
  method CheckListed(checkMap: map<bytes, bytes>, lookup: bytes -> Lookup,
                     ghost s: L.Ledger, ghost ks: seq<bytes>, ghost text: bytes -> bytes)
    returns (seen: nat, ghost es: seq<L.Event>)
    requires s.checker.Waiting? && FirstKeys(ks, s.check.Keys, MAX_NUM)
    requires IsView(checkMap, s.check, ks, text) && Injective(text)
    ensures seen == |checkMap.Keys|
    ensures L.Legal(s, es) && L.Run(s, es) == s && forall e :: e in es ==> L.AsWritten(e)
    ensures |es| == seen + 2 && es[0].StartCheck? && es[|es| - 1].EndCheck?
  {
    CheckStart(s, ks, text, checkMap);
    seen, es := CheckEntries(checkMap, lookup, s, [L.StartCheck(ks)], ks, text);
    CheckEnd(s, es, ks, text);
    es := es + [L.EndCheck];
  }

  /**
   The check pass as written looks at min(1000, n) entries and takes only steps of the checker as
   written: neither the store nor the ledger changes.
   */
  method CheckLockDepositEvents(db: BoltDB, lookup: bytes -> Lookup, listed: bool, ghost s: L.Ledger)
    returns (seen: nat, ghost es: seq<L.Event>)
    requires Agrees(db, s) && s.checker.Waiting?
    ensures listed ==> seen == if |db.check| <= MAX_NUM then |db.check| else MAX_NUM
    ensures L.Legal(s, es) && L.Run(s, es) == s && forall e :: e in es ==> L.AsWritten(e)
    ensures if listed then |es| == seen + 2 && es[0].StartCheck? && es[|es| - 1].EndCheck? else es == []
  {
    var checkMap := db.GetAllCheck(listed);
    if checkMap.None? {
      return 0, [];
    }
    assert |checkMap.value.Keys| == |checkMap.value|;
    HexEncodeIsInjective();
    ghost var ks :| FirstKeys(ks, db.check.Keys, MAX_NUM) && IsView(checkMap.value, db.check, ks, HexEncode);
    seen, es := CheckListed(checkMap.value, lookup, s, ks, HexEncode);
  }
}
