/** Logs of fixed windows: one entry per permit, in grant order. A counter that restarts
    with every change of window knows only the last block of equal entries; the lemmas say
    when that block is all there is. */
module WindowLog {

  /** Length of the block of equal windows at the end of the log. */
  function Trailing(log: seq<int>): nat {
    if |log| == 0 then 0
    else if |log| >= 2 && log[|log| - 2] == log[|log| - 1] then Trailing(log[..|log| - 1]) + 1
    else 1
  }

  function Count(log: seq<int>, w: int): nat {
    if |log| == 0 then 0
    else Count(log[..|log| - 1], w) + if log[|log| - 1] == w then 1 else 0
  }

  ghost predicate Nondecreasing(log: seq<int>) {
    forall i, j :: 0 <= i <= j < |log| ==> log[i] <= log[j]
  }

  /** A further permit for `w` continues the last block or opens a window never used. */
  predicate Continues(log: seq<int>, w: int) {
    Count(log, w) == 0 || log[|log| - 1] == w
  }

  /** The log never came back to a window it had left. */
  predicate NoReturn(log: seq<int>) {
    |log| == 0 || (NoReturn(log[..|log| - 1]) && Continues(log[..|log| - 1], log[|log| - 1]))
  }

  lemma AppendCounts(log: seq<int>, w: int)
    ensures forall u :: Count(log + [w], u) == Count(log, u) + if w == u then 1 else 0
    ensures Trailing(log + [w]) == if |log| > 0 && log[|log| - 1] == w then Trailing(log) + 1 else 1
    ensures NoReturn(log + [w]) <==> NoReturn(log) && Continues(log, w)
  {
    assert (log + [w])[..|log|] == log;
  }

  lemma {:induction false} CountPositive(log: seq<int>, i: nat)
    requires i < |log|
    ensures Count(log, log[i]) > 0
  {
    if i < |log| - 1 {
      CountPositive(log[..|log| - 1], i);
    }
  }

  lemma {:induction false} CountWitness(log: seq<int>, w: int) returns (i: nat)
    requires Count(log, w) > 0
    ensures i < |log| && log[i] == w
  {
    var n := |log| - 1;
    if log[n] == w {
      i := n;
    } else {
      i := CountWitness(log[..n], w);
    }
  }

  lemma {:induction false} CountGrows(log: seq<int>, k: nat, w: int)
    requires k <= |log|
    ensures Count(log[..k], w) <= Count(log, w)
  {
    if k < |log| {
      var n := |log| - 1;
      CountGrows(log[..n], k, w);
      assert log[..n][..k] == log[..k];
    } else {
      assert log[..k] == log;
    }
  }

  /** Then the last block holds all permits of its window. */
  lemma {:induction false} LastBlockIsAll(log: seq<int>)
    requires |log| > 0 && NoReturn(log)
    ensures Trailing(log) == Count(log, log[|log| - 1])
  {
    var n := |log| - 1;
    if n > 0 && log[n - 1] == log[n] {
      LastBlockIsAll(log[..n]);
    }
  }

  /** Without a return, window and block length single out one prefix of the log. */
  lemma LastBlockIsUnique(log: seq<int>, i: nat)
    requires NoReturn(log) && i < |log| - 1 && log[i] == log[|log| - 1]
    ensures Trailing(log[..i + 1]) < Trailing(log)
  {
    var n := |log| - 1;
    PrefixNoReturn(log, i + 1);
    LastBlockIsAll(log);
    LastBlockIsAll(log[..i + 1]);
    CountGrows(log[..n], i + 1, log[n]);
    assert log[..n][..i + 1] == log[..i + 1];
  }

  lemma {:induction false} PrefixNoReturn(log: seq<int>, k: nat)
    requires NoReturn(log) && k <= |log|
    ensures NoReturn(log[..k])
  {
    if k < |log| {
      PrefixNoReturn(log[..|log| - 1], k);
      assert log[..|log| - 1][..k] == log[..k];
    } else {
      assert log[..k] == log;
    }
  }

  /** Windows in order never return. */
  lemma {:induction false} OrderedNeverReturns(log: seq<int>)
    requires Nondecreasing(log)
    ensures NoReturn(log)
  {
    if |log| > 0 {
      var n := |log| - 1;
      OrderedNeverReturns(log[..n]);
      if Count(log[..n], log[n]) > 0 {
        var i := CountWitness(log[..n], log[n]);
        assert log[i] <= log[n - 1] <= log[n];
      }
    }
  }

  ghost predicate BlocksWithin(log: seq<int>, limit: int) {
    forall k :: 0 <= k <= |log| ==> Trailing(log[..k]) <= limit
  }

  /** Short blocks bound whole windows when no window is revisited. */
  lemma {:induction false} BlocksBoundCounts(log: seq<int>, limit: int, w: int)
    requires NoReturn(log) && BlocksWithin(log, limit) && limit >= 0
    ensures Count(log, w) <= limit
  {
    var n := |log|;
    if n > 0 {
      var init := log[..n - 1];
      assert log[..n] == log;
      assert forall k :: 0 <= k <= n - 1 ==> init[..k] == log[..k];
      BlocksBoundCounts(init, limit, w);
      LastBlockIsAll(log);
    }
  }
}
