/**
 Which deposits the mover never reaches. A pass takes the first 1000 keys of Retry in byte order and ends
 where commitProof panics, and a restart begins again at the first key.
 */
module Starvation {
  import opened Words
  import opened Bytes
  import opened DB
  import opened DepositLedger

  /** The mover stands at entry k. */
  predicate At(s: Ledger, k: Entry) {
    s.mover.Moving? && s.mover.todo != [] && s.mover.todo[0] == k
  }

  /** Whenever the mover stands at k, its commit fails: the only way on is a crash. */
  ghost predicate NeverPassed(s: Ledger, es: seq<Event>, k: Entry)
    requires Legal(s, es)
    decreases |es|
  {
    es == [] || (((es[0].Commit? || es[0].Skip?) ==> !At(s, k)) && NeverPassed(Do(s, es[0]), es[1..], k))
  }

  /** The mover commits none of these entries: it skips them, or its commit fails. */
  ghost predicate NeverCommitted(s: Ledger, es: seq<Event>, keys: set<Entry>)
    requires Legal(s, es)
    decreases |es|
  {
    es == [] ||
    ((es[0].Commit? ==> s.mover.todo[0] !in keys) && NeverCommitted(Do(s, es[0]), es[1..], keys))
  }

  // ---- Behind an entry that cannot be committed ----------------------------------------------------------

  /** k comes before any v. */
  predicate Ahead(todo: seq<Entry>, k: Entry, v: Entry) {
    todo == [] || todo[0] == k || (todo[0] != v && Ahead(todo[1..], k, v))
  }

  lemma {:induction false} AheadInOrder(todo: seq<Entry>, k: Entry, v: Entry)
    requires k != v && forall j :: 0 <= j < |todo| && todo[j] == v ==> k in todo[..j]
    ensures Ahead(todo, k, v)
  {
    if todo != [] && todo[0] != k {
      forall j | 0 <= j < |todo[1..]| && todo[1..][j] == v ensures k in todo[1..][..j] {
        assert todo[j + 1] == v && todo[..j + 1] == [todo[0]] + todo[1..][..j];
      }
      AheadInOrder(todo[1..], k, v);
    }
  }

  /** A scan lists every smaller key of the bucket before v. */
  lemma SmallerFirst(list: seq<Entry>, keys: set<Entry>, cap: nat, j: nat, k: Entry)
    requires FirstKeys(list, keys, cap) && j < |list| && k in keys && Less(k, list[j])
    ensures k in list[..j]
  {
    LessIsIrreflexive(k);
    if k !in list {
      LessIsTransitive(k, list[j], k);
    }
    var i :| 0 <= i < |list| && list[i] == k;
    if i > j {
      LessIsTransitive(k, list[j], k);
    }
    assert list[..j][i] == k;
  }

  ghost predicate Behind(s: Ledger, k: Entry, v: Entry) {
    && k in s.retry && v in s.retry
    && match s.mover
       case Resting => true
       case Moving(todo) => Ahead(todo, k, v)
       case Broadcast(x, _, todo) => x != k && x != v && Ahead(todo, k, v)
       case Filed(x, _, todo) => x != k && x != v && Ahead(todo, k, v)
  }

  lemma BehindStep(s: Ledger, e: Event, k: Entry, v: Entry)
    requires Less(k, v) && Behind(s, k, v) && Enabled(s, e) && ((e.Commit? || e.Skip?) ==> !At(s, k))
    ensures Behind(Do(s, e), k, v)
  {
    if e.StartPass? {
      LessIsIrreflexive(k);
      forall j | 0 <= j < |e.list| && e.list[j] == v ensures k in e.list[..j] {
        SmallerFirst(e.list, s.retry, MAX_NUM, j, k);
      }
      AheadInOrder(e.list, k, v);
    }
  }

  /**
   An entry is never moved while a smaller key of Retry is there whose commit always fails: every pass
   ends at that key, over all interleavings with the other loops and any number of restarts.
   */
  lemma {:induction false} StarvedBehind(s: Ledger, es: seq<Event>, k: Entry, v: Entry)
    requires Less(k, v) && Behind(s, k, v) && Legal(s, es) && NeverPassed(s, es, k)
    ensures Behind(Run(s, es), k, v) && v in Run(s, es).retry
    decreases |es|
  {
    if es != [] {
      BehindStep(s, es[0], k, v);
      StarvedBehind(Do(s, es[0]), es[1..], k, v);
    }
  }

  // ---- Behind a thousand entries that stay ----------------------------------------------------------------

  /** At least MAX_NUM keys of Retry are smaller than v, and the mover is busy with none of them nor with v. */
  ghost predicate Crowded(s: Ledger, keys: set<Entry>, v: Entry) {
    && keys <= s.retry && v in s.retry && |keys| >= MAX_NUM && (forall k :: k in keys ==> Less(k, v))
    && match s.mover
       case Resting => true
       case Moving(todo) => v !in todo
       case Broadcast(x, _, todo) => x !in keys && x != v && v !in todo
       case Filed(x, _, todo) => x !in keys && x != v && v !in todo
  }

  lemma NotListed(list: seq<Entry>, retry: set<Entry>, keys: set<Entry>, v: Entry)
    requires FirstKeys(list, retry, MAX_NUM) && keys <= retry && |keys| >= MAX_NUM
    requires forall k :: k in keys ==> Less(k, v)
    ensures v !in list
  {
    if v in list {
      var j: nat :| j < |list| && list[j] == v;
      forall k | k in keys ensures k in list[..j] {
        SmallerFirst(list, retry, MAX_NUM, j, k);
      }
      ScanIsDistinct(list, retry, MAX_NUM);
      DistinctCount(list[..j]);
      FewerThan(keys, set k | k in list[..j]);
    }
  }

  lemma FewerThan<T>(a: set<T>, b: set<T>)
    requires a <= b
    ensures |a| <= |b|
  {
    assert b == a + (b - a);
  }

  /** The keys of Retry before v. */
  ghost function Smaller(retry: set<Entry>, v: Entry): set<Entry> {
    set k | k in retry && Less(k, v)
  }

  /** A pass lists an entry of Retry exactly when fewer than MAX_NUM keys come before it. */
  lemma ListedIff(list: seq<Entry>, retry: set<Entry>, v: Entry)
    requires FirstKeys(list, retry, MAX_NUM) && v in retry
    ensures v in list <==> |Smaller(retry, v)| < MAX_NUM
  {
    if |Smaller(retry, v)| >= MAX_NUM {
      NotListed(list, retry, Smaller(retry, v), v);
    } else if v !in list {
      if |retry| <= MAX_NUM {
        AllScanned(list, retry);
      }
      ScanIsDistinct(list, retry, MAX_NUM);
      DistinctCount(list);
      FewerThan((set k | k in list), Smaller(retry, v));
    }
  }

  lemma CrowdedStep(s: Ledger, e: Event, keys: set<Entry>, v: Entry)
    requires Crowded(s, keys, v) && Enabled(s, e) && (e.Commit? ==> s.mover.todo[0] !in keys)
    ensures Crowded(Do(s, e), keys, v)
  {
    if e.StartPass? {
      NotListed(e.list, s.retry, keys, v);
    }
  }

  /** An entry is never moved while 1000 smaller keys of Retry are never committed. */
  lemma {:induction false} StarvedByCap(s: Ledger, es: seq<Event>, keys: set<Entry>, v: Entry)
    requires Crowded(s, keys, v) && Legal(s, es) && NeverCommitted(s, es, keys)
    ensures Crowded(Run(s, es), keys, v) && v in Run(s, es).retry
    decreases |es|
  {
    if es != [] {
      CrowdedStep(s, es[0], keys, v);
      StarvedByCap(Do(s, es[0]), es[1..], keys, v);
    }
  }
}
