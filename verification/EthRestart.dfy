/**
 The Ethereum monitor across restarts. Nothing of its progress is stored: a new process starts at the
 height the bridge has synced, or at an earlier height forced by a flag.
 */
module EthRestart {
  import opened Words
  import opened EthLoop

  /** One process: its start flag, the call at which it asks for the synced height, and its steps. */
  datatype Life = Life(force: uint64, at: nat, steps: seq<Step>)

  ghost predicate LegalLife(w: World, s: Loop, l: Life) {
    s.now <= l.at && StartOf(w, l.force, l.at).Some? && Legal(w, Restarted(w, s, l.force, l.at), l.steps)
  }

  function Live(w: World, s: Loop, l: Life): Loop {
    if StartOf(w, l.force, l.at).None? then s else Run(w, Restarted(w, s, l.force, l.at), l.steps)
  }

  /** Any number of processes, one after the other, each cut short anywhere. */
  ghost predicate LegalLives(w: World, s: Loop, ls: seq<Life>)
    decreases |ls|
  {
    ls == [] || (LegalLives(w, s, ls[..|ls| - 1]) && LegalLife(w, RunLives(w, s, ls[..|ls| - 1]), ls[|ls| - 1]))
  }

  function RunLives(w: World, s: Loop, ls: seq<Life>): Loop
    decreases |ls|
  {
    if ls == [] then s else Live(w, RunLives(w, s, ls[..|ls| - 1]), ls[|ls| - 1])
  }

  function Max(a: uint64, b: uint64): uint64 {
    if a < b then b else a
  }

  /** The greatest height reached, from `top` on. */
  function Top(w: World, s: Loop, top: uint64, es: seq<Step>): uint64
    decreases |es|
  {
    if es == [] then top else Max(Top(w, s, top, es[..|es| - 1]), Run(w, s, es).cur)
  }

  function TopOfLives(w: World, s: Loop, top: uint64, ls: seq<Life>): uint64
    decreases |ls|
  {
    if ls == [] then top
    else
      var init, l := ls[..|ls| - 1], ls[|ls| - 1];
      var t, reached := RunLives(w, s, init), TopOfLives(w, s, top, init);
      if StartOf(w, l.force, l.at).None? then reached else Top(w, Restarted(w, t, l.force, l.at), reached, l.steps)
  }

  /** Every height in (start, top] was handled and is settled, nothing above top was, and the loop is not above it. */
  ghost predicate CoveredTo(w: World, s: Loop, start: uint64, top: uint64) {
    && start <= top && s.cur <= top
    && (forall h :: h in s.log ==> h <= top)
    && (forall h: uint64 :: start < h <= top ==> h in s.log && Settled(w, h, s.log[h], s.recorded))
  }

  lemma StepCovers(w: World, s: Loop, e: Step, start: uint64, top: uint64)
    requires CoveredTo(w, s, start, top) && Enabled(w, s, e)
    ensures CoveredTo(w, Do(w, s, e), start, Max(top, Do(w, s, e).cur))
  {
    var t := Do(w, s, e);
    forall h: uint64 | start < h <= Max(top, t.cur) ensures h in t.log && Settled(w, h, t.log[h], t.recorded) {
      if e.Handled? && h == t.cur {
        FetchSettles(w, h, e.at, t.recorded);
      } else {
        SettledGrows(w, h, s.log[h], s.recorded, t.recorded);
      }
    }
  }

  lemma {:induction false} RunCovers(w: World, s: Loop, es: seq<Step>, start: uint64, top: uint64)
    requires CoveredTo(w, s, start, top) && Legal(w, s, es)
    ensures CoveredTo(w, Run(w, s, es), start, Top(w, s, top, es))
    decreases |es|
  {
    if es != [] {
      var init := es[..|es| - 1];
      RunCovers(w, s, init, start, top);
      StepCovers(w, Run(w, s, init), es[|es| - 1], start, Top(w, s, top, init));
    }
  }

  /**
   A restart keeps the coverage exactly when it does not resume above the greatest height handled: when
   the bridge has not been synced further by someone else, or the flag forces a height low enough.
   */
  lemma RestartKeepsCoverageIff(w: World, s: Loop, start: uint64, top: uint64, force: uint64, at: nat)
    requires CoveredTo(w, s, start, top) && StartOf(w, force, at).Some?
    ensures CoveredFrom(w, Restarted(w, s, force, at), start) <==>
      w.rpc.synced(at).value <= top || 0 < force <= top
  {
    var t := Restarted(w, s, force, at);
    if t.cur > top {
      var h := top + 1;
      assert h !in s.log && start < h <= t.cur;
    }
  }

  /** No restart resumes above the greatest height handled before it. */
  ghost predicate ResumesBelow(w: World, s: Loop, top: uint64, ls: seq<Life>)
    decreases |ls|
  {
    ls == [] ||
    (ResumesBelow(w, s, top, ls[..|ls| - 1])
     && var l := ls[|ls| - 1];
        (StartOf(w, l.force, l.at).Some? ==>
           StartOf(w, l.force, l.at).value <= TopOfLives(w, s, top, ls[..|ls| - 1])))
  }

  /**
   Over any number of restarts that do not resume above the greatest height handled, every height above
   the first start and up to the greatest one reached was handled, and each target event answered for it
   was put in Retry, or answered to be relayed, or refused.
   */
  lemma {:induction false} CoverageOverLives(w: World, s: Loop, ls: seq<Life>, start: uint64, top: uint64)
    requires CoveredTo(w, s, start, top) && LegalLives(w, s, ls) && ResumesBelow(w, s, top, ls)
    ensures CoveredTo(w, RunLives(w, s, ls), start, TopOfLives(w, s, top, ls))
    decreases |ls|
  {
    if ls != [] {
      var init, l := ls[..|ls| - 1], ls[|ls| - 1];
      CoverageOverLives(w, s, init, start, top);
      RunCovers(w, Restarted(w, RunLives(w, s, init), l.force, l.at), l.steps, start, TopOfLives(w, s, top, init));
    }
  }

  /**
   A restart that resumes higher skips the heights in between for good: as long as nothing rolls back
   below one of them, it is not handled, and none of its deposits is recorded.
   */
  lemma SkippedForGood(w: World, s: Loop, start: uint64, top: uint64, l: Life, h: uint64, ev: LockEvent)
    requires CoveredTo(w, s, start, top) && LegalLife(w, s, l) && StaysAbove(l.steps, h)
    requires top < h <= StartOf(w, l.force, l.at).value
    ensures h !in Live(w, s, l).log
    ensures EntryOf(ev, h) in Live(w, s, l).recorded <==> EntryOf(ev, h) in s.recorded
  {
    var t := Restarted(w, s, l.force, l.at);
    HandledOnce(w, t, l.steps, h);
    NeverRecordedLater(w, t, l.steps, h, ev);
  }
}
