/**
 The even split that both allocators of scheduler.rs use: `total` units over
 `n` mailboxes, the first `total % n` of them getting one unit more, each part
 then cut to what its mailbox can still take.
 */
module EvenSplit {
  import opened Common

  function Times(n: nat, k: nat): nat {
    n * k
  }

  function Sum(xs: seq<nat>): nat {
    if xs == [] then 0 else Sum(xs[..|xs| - 1]) + xs[|xs| - 1]
  }

  /** The part of mailbox `i` before it is cut to capacity. */
  function Share(total: nat, n: nat, i: nat): nat
    requires n > 0
  {
    total / n + if i < total % n then 1 else 0
  }

  function Shares(total: nat, n: nat): seq<nat> {
    seq(n, i requires 0 <= i < n => Share(total, n, i))
  }

  /** What each mailbox really gets, given the spare capacities. */
  function Split(spares: seq<nat>, total: nat): seq<nat> {
    seq(|spares|, i requires 0 <= i < |spares| => Min(Share(total, |spares|, i), spares[i]))
  }

  lemma {:induction false} SumAppend(xs: seq<nat>, ys: seq<nat>)
    ensures Sum(xs + ys) == Sum(xs) + Sum(ys)
  {
    if ys == [] {
      assert xs + ys == xs;
    } else {
      SumAppend(xs, ys[..|ys| - 1]);
      assert (xs + ys)[..|xs + ys| - 1] == xs + ys[..|ys| - 1];
    }
  }

  lemma SumPrefix(xs: seq<nat>, i: nat)
    requires i < |xs|
    ensures Sum(xs[..i]) + xs[i] == Sum(xs[..i + 1]) <= Sum(xs)
  {
    SumSnoc(xs, i);
    hide Sum;
    assert xs[..i + 1] + xs[i + 1..] == xs;
    SumAppend(xs[..i + 1], xs[i + 1..]);
  }

  lemma SumSnoc(xs: seq<nat>, i: nat)
    requires i < |xs|
    ensures Sum(xs[..i]) + xs[i] == Sum(xs[..i + 1])
  {
    assert xs[..i + 1][..i] == xs[..i];
  }

  lemma {:induction false} SharePrefix(total: nat, n: nat, i: nat)
    requires 0 < n && i <= n
    ensures Sum(Shares(total, n)[..i]) == Times(i, total / n) + Min(i, total % n)
  {
    if i == 0 {
    } else {
      SharePrefix(total, n, i - 1);
      SumPrefix(Shares(total, n), i - 1);
      OneMoreTime(i - 1, total / n);
      hide Times, Sum;
    }
  }

  lemma OneMoreTime(i: nat, q: nat)
    ensures Times(i + 1, q) == Times(i, q) + q
  {
  }

  /** The parts add up to the whole and differ by at most one. */
  lemma SharesAreEven(total: nat, n: nat)
    requires n > 0
    ensures Sum(Shares(total, n)) == total
    ensures forall i, j :: 0 <= i < n && 0 <= j < n ==> Share(total, n, i) <= Share(total, n, j) + 1
  {
    SharePrefix(total, n, n);
    assert Shares(total, n)[..n] == Shares(total, n);
    assert total == n * (total / n) + total % n;
  }

  lemma {:induction false} AllZero(xs: seq<nat>)
    requires forall i :: 0 <= i < |xs| ==> xs[i] == 0
    ensures Sum(xs) == 0
  {
    if xs == [] {
    } else {
      AllZero(xs[..|xs| - 1]);
    }
  }

  lemma {:induction false} SumAdd(xs: seq<nat>, ys: seq<nat>, zs: seq<nat>)
    requires |xs| == |ys| == |zs| && forall i :: 0 <= i < |xs| ==> xs[i] + ys[i] == zs[i]
    ensures Sum(xs) + Sum(ys) == Sum(zs)
  {
    var n := |xs| - 1;
    if n >= 0 {
      SumAdd(xs[..n], ys[..n], zs[..n]);
    }
  }

  lemma SumUpdate(xs: seq<nat>, j: nat, v: nat)
    requires j < |xs|
    ensures Sum(xs[j := v]) + xs[j] == Sum(xs) + v
  {
    var a, b := xs[..j], xs[j + 1..];
    assert xs == a + [xs[j]] + b && xs[j := v] == a + [v] + b;
    SumAppend(a + [xs[j]], b);
    SumAppend(a + [v], b);
    SumAppend(a, [xs[j]]);
    SumAppend(a, [v]);
  }

  /** Pointwise smaller lists: the sums compare, and agree only if the lists do. */
  lemma {:induction false} SumMonotone(xs: seq<nat>, ys: seq<nat>)
    requires |xs| == |ys| && forall i :: 0 <= i < |xs| ==> xs[i] <= ys[i]
    ensures Sum(xs) <= Sum(ys)
    ensures Sum(xs) == Sum(ys) <==> xs == ys
  {
    var n := |xs| - 1;
    if n >= 0 {
      SumMonotone(xs[..n], ys[..n]);
      assert xs == xs[..n] + [xs[n]] && ys == ys[..n] + [ys[n]];
    }
  }

  /** The split never hands out more than `total`; it hands out everything
      exactly when no even share is larger than the spare capacity it meets. */
  lemma SplitIsExactIffSharesFit(spares: seq<nat>, total: nat)
    requires |spares| > 0
    ensures Sum(Split(spares, total)) <= total
    ensures Sum(Split(spares, total)) <= Sum(spares)
    ensures Sum(Split(spares, total)) == total
            <==> forall i :: 0 <= i < |spares| ==> Share(total, |spares|, i) <= spares[i]
  {
    var n := |spares|;
    SharesAreEven(total, n);
    SumMonotone(Split(spares, total), Shares(total, n));
    SumMonotone(Split(spares, total), spares);
    if Split(spares, total) == Shares(total, n) {
      forall i | 0 <= i < n ensures Share(total, n, i) <= spares[i] {
        assert Split(spares, total)[i] == Shares(total, n)[i];
      }
    }
  }

  lemma ShareOfMultiple(n: nat, each: nat, i: nat)
    requires i < n
    ensures Share(Times(n, each), n, i) == each
  {
    var q, r := (n * each) / n, (n * each) % n;
    assert n * (each - q) == r;
    MultipleIsFar(n, each - q);
  }

  lemma MultipleIsFar(n: nat, k: int)
    ensures k >= 1 ==> n * k >= n
    ensures k <= -1 ==> n * k <= -(n as int)
  {
  }
}
