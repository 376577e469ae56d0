/** The balance-weighted choice of an Ethereum sender. */
module SenderChoice {
  import opened Words

  /** The total of the first n balances. */
  function Sum(bals: seq<nat>, n: nat): nat
    requires n <= |bals|
  {
    if n == 0 then 0 else Sum(bals, n - 1) + bals[n - 1]
  }

  function Total(bals: seq<nat>): nat {
    Sum(bals, |bals|)
  }

  /** What big.Int.Rand may return: below the total, or zero when there is nothing to draw from. */
  predicate IsDraw(bals: seq<nat>, draw: nat) {
    draw < Total(bals) || draw == Total(bals) == 0
  }

  /** The scan stops at sender i: its running total, cut to an int64, reaches the draw. */
  predicate Reaches(bals: seq<nat>, i: nat, draw: nat)
    requires i < |bals|
  {
    Int64(Sum(bals, i + 1)) >= draw
  }

  ghost predicate NoneReaches(bals: seq<nat>, n: nat, draw: nat)
    requires n <= |bals|
  {
    forall j :: 0 <= j < n ==> !Reaches(bals, j, draw)
  }

  /** The least sender that reaches the draw, or the first one if none does. */
  ghost predicate Chosen(bals: seq<nat>, draw: nat, i: nat) {
    && i < |bals|
    && if Reaches(bals, i, draw) then NoneReaches(bals, i, draw) else i == 0 && NoneReaches(bals, |bals|, draw)
  }

  /** The scan leaves no choice. */
  lemma ChosenIsUnique(bals: seq<nat>, draw: nat, i: nat, j: nat)
    requires Chosen(bals, draw, i) && Chosen(bals, draw, j)
    ensures i == j
  {
  }

  /** `bals` are the balances read, after retries; `draw` is the random number. */
  method SelectSender(bals: seq<nat>, draw: nat) returns (sender: nat)
    requires bals != []
    ensures Chosen(bals, draw, sender)
    ensures if exists k :: 1 <= k <= |bals| && Int64(Sum(bals, k)) >= draw
            then Int64(Sum(bals, sender + 1)) >= draw && forall k :: 1 <= k <= sender ==> Int64(Sum(bals, k)) < draw
            else sender == 0
  {
    var sum := 0;
    var balArr: seq<int> := [];
    for i := 0 to |bals|
      invariant sum == Sum(bals, i) && |balArr| == i
      invariant forall j :: 0 <= j < i ==> balArr[j] == Int64(Sum(bals, j + 1))
    {
      sum := sum + bals[i];
      balArr := balArr + [Int64(sum)];
    }
    for i := 0 to |balArr|
      invariant NoneReaches(bals, i, draw)
      invariant forall k :: 1 <= k <= i ==> Int64(Sum(bals, k)) < draw
    {
      if balArr[i] >= draw {
        return i;
      }
    }
    sender := 0;
  }

  lemma {:induction false} SumGrows(bals: seq<nat>, m: nat, n: nat)
    requires m <= n <= |bals|
    ensures Sum(bals, m) <= Sum(bals, n)
  {
    if m < n {
      SumGrows(bals, m, n - 1);
    }
  }

  // ---- When the fallback to the first sender can be taken --------------------------------------------------

  /** Some draw is reached by no sender. */
  ghost predicate FallbackReachable(bals: seq<nat>) {
    exists d :: IsDraw(bals, d) && NoneReaches(bals, |bals|, d)
  }

  /**
   The scan always finds a sender while the total fits an int64. Otherwise it does exactly if some
   running total, cut to an int64, still reaches the greatest draw; above 2^63 none can.
   */
  lemma FallbackReachableIff(bals: seq<nat>)
    requires bals != []
    ensures Total(bals) < TWO_63 ==> !FallbackReachable(bals)
    ensures Total(bals) > 0 ==> (FallbackReachable(bals) <==> NoneReaches(bals, |bals|, Total(bals) - 1))
    ensures Total(bals) > TWO_63 ==> FallbackReachable(bals)
  {
    var s := Total(bals);
    if s > 0 {
      var top := s - 1;
      assert IsDraw(bals, top);
      if d :| IsDraw(bals, d) && NoneReaches(bals, |bals|, d) {
        assert forall j :: 0 <= j < |bals| && Reaches(bals, j, top) ==> Reaches(bals, j, d);
        assert NoneReaches(bals, |bals|, top);
      }
      if s > TWO_63 {
        assert forall j :: 0 <= j < |bals| ==> !Reaches(bals, j, top);
      }
    }
    if s < TWO_63 {
      var last := |bals| - 1;
      assert forall d :: IsDraw(bals, d) ==> Reaches(bals, last, d);
    }
  }

  // ---- How the draws are shared out ---------------------------------------------------------------------------

  /** The number of draws that go to the first n senders. */
  function Share(bals: seq<nat>, n: nat): nat
    requires n <= |bals|
  {
    if n == 0 then 0 else if Sum(bals, n) < Total(bals) then Sum(bals, n) + 1 else Total(bals)
  }

  function Interval(a: nat, b: nat): (r: set<nat>)
    requires a <= b
    ensures forall d :: d in r <==> a <= d < b
    ensures |r| == b - a
    decreases b - a
  {
    if a == b then {} else Interval(a, b - 1) + {b - 1}
  }

  /** The draws that choose sender i are the interval between two consecutive shares. */
  lemma ChosenInterval(bals: seq<nat>, i: nat, d: nat)
    requires 0 < Total(bals) < TWO_63 && i < |bals| && d < Total(bals)
    ensures Chosen(bals, d, i) <==> Share(bals, i) <= d < Share(bals, i + 1)
  {
    forall j | 0 <= j < |bals| ensures Reaches(bals, j, d) <==> Sum(bals, j + 1) >= d {
      SumGrows(bals, j + 1, |bals|);
    }
    var last := |bals| - 1;
    assert Reaches(bals, last, d);
    forall j | 0 <= j < i ensures !Reaches(bals, i - 1, d) ==> !Reaches(bals, j, d) {
      SumGrows(bals, j + 1, i);
    }
    SumGrows(bals, i, |bals|);
    SumGrows(bals, i + 1, |bals|);
    if i > 0 {
      assert NoneReaches(bals, i, d) <==> !Reaches(bals, i - 1, d);
    }
  }

  /** The draws that go to sender i. */
  ghost function DrawsOf(bals: seq<nat>, i: nat): set<nat> {
    set d | d in Interval(0, Total(bals)) && Chosen(bals, d, i)
  }

  /**
   With a total S in (0, 2^63): of the S possible draws each sender is chosen by as many as its
   balance, one more for the first sender, one less for the first whose running total is S.
   */
  lemma DrawsPerSender(bals: seq<nat>, i: nat)
    requires 0 < Total(bals) < TWO_63 && i < |bals|
    ensures |DrawsOf(bals, i)| == Share(bals, i + 1) - Share(bals, i)
         == bals[i] + (if i == 0 then 1 else 0)
                    - (if Sum(bals, i) < Total(bals) == Sum(bals, i + 1) then 1 else 0)
  {
    SumGrows(bals, i, |bals|);
    SumGrows(bals, i + 1, |bals|);
    var a, b := Share(bals, i), Share(bals, i + 1);
    assert a <= b <= Total(bals);
    forall d: nat | d < Total(bals) ensures Chosen(bals, d, i) <==> a <= d < b {
      ChosenInterval(bals, i, d);
    }
    assert DrawsOf(bals, i) == Interval(a, b);
  }

  /** The counts of the first n senders, added up. */
  ghost function CountUpTo(bals: seq<nat>, n: nat): nat
    requires n <= |bals|
  {
    if n == 0 then 0
    else CountUpTo(bals, n - 1) + |DrawsOf(bals, n - 1)|
  }

  /** Every draw goes to exactly one sender: the counts of all senders add up to the total. */
  lemma {:induction false} DrawsAddUp(bals: seq<nat>, n: nat)
    requires 0 < Total(bals) < TWO_63 && n <= |bals|
    ensures CountUpTo(bals, n) == Share(bals, n)
    ensures n == |bals| ==> CountUpTo(bals, n) == Total(bals)
  {
    if n > 0 {
      DrawsAddUp(bals, n - 1);
      DrawsPerSender(bals, n - 1);
    }
  }
}
