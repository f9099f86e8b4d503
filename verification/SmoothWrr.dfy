/** The arithmetic of smooth weighted round robin, on the values of one upstream group
    taken in list order. `LoadBalancer` proves that the in-place list walk computes `Round`. */
module SmoothWrr {
  import opened Arith

  /** The three fields of an upstream server that the algorithm reads and writes. */
  datatype Peer = Peer(weight: int, effective: int, current: int)

  datatype Choice = NoPeer | Chosen(index: nat)

  /** Which peers are available in which selection. */
  type Schedule = nat -> seq<bool>

  // ---------------------------------------------------------------- one selection

  /** An available peer earns its effective weight; an effective weight below the configured one recovers by 1. */
  function Bump(p: Peer, up: bool): Peer {
    if !up then p
    else Peer(p.weight, if p.effective < p.weight then p.effective + 1 else p.effective, p.current + p.effective)
  }

  function Bumped(ps: seq<Peer>, up: seq<bool>): (r: seq<Peer>)
    requires |up| == |ps|
    ensures |r| == |ps|
  {
    seq(|ps|, i requires 0 <= i < |ps| => Bump(ps[i], up[i]))
  }

  /** The effective weights of the available peers among the first k, before recovery. */
  function UpTotal(ps: seq<Peer>, up: seq<bool>, k: nat): int
    requires |up| == |ps| && k <= |ps|
  {
    if k == 0 then 0
    else UpTotal(ps, up, k - 1) + if up[k - 1] then ps[k - 1].effective else 0
  }

  /** The running winner after the first k peers of the walk. */
  function Best(qs: seq<Peer>, up: seq<bool>, k: nat): (b: Choice)
    requires |up| == |qs| && k <= |qs|
    ensures b.Chosen? ==> b.index < k && up[b.index]
  {
    if k == 0 then NoPeer
    else
      var b := Best(qs, up, k - 1);
      if up[k - 1] && (b.NoPeer? || qs[k - 1].current > qs[b.index].current) then Chosen(k - 1) else b
  }

  ghost predicate IsFirstBest(qs: seq<Peer>, up: seq<bool>, k: nat, b: nat)
    requires |up| == |qs| && k <= |qs|
  {
    && b < k && up[b]
    && (forall i :: 0 <= i < k && up[i] ==> qs[i].current <= qs[b].current)
    && (forall i :: 0 <= i < b && up[i] ==> qs[i].current < qs[b].current)
  }

  /** The winner is the first available peer with the greatest current weight; there is one unless all are unavailable. */
  lemma {:induction false} BestIsFirstBest(qs: seq<Peer>, up: seq<bool>, k: nat)
    requires |up| == |qs| && k <= |qs|
    ensures Best(qs, up, k).NoPeer? <==> forall i :: 0 <= i < k ==> !up[i]
    ensures Best(qs, up, k).Chosen? ==> IsFirstBest(qs, up, k, Best(qs, up, k).index)
  {
    if k > 0 { BestIsFirstBest(qs, up, k - 1); }
  }

  /** What one call leaves behind: everyone available is bumped, the winner pays the total. */
  function Round(ps: seq<Peer>, up: seq<bool>): (r: (Choice, seq<Peer>))
    requires |up| == |ps|
    ensures |r.1| == |ps|
    ensures r.0.Chosen? ==> r.0.index < |ps| && up[r.0.index]
  {
    var qs := Bumped(ps, up);
    match Best(qs, up, |qs|)
    case NoPeer => (NoPeer, qs)
    case Chosen(b) => (Chosen(b), Pay(qs, b, UpTotal(ps, up, |ps|)))
  }

  function Pay(qs: seq<Peer>, b: nat, amount: int): (r: seq<Peer>)
    requires b < |qs|
    ensures |r| == |qs|
  {
    qs[b := qs[b].(current := qs[b].current - amount)]
  }

  function CurrentSum(ps: seq<Peer>, k: nat): int
    requires k <= |ps|
  {
    if k == 0 then 0 else CurrentSum(ps, k - 1) + ps[k - 1].current
  }

  function WeightSum(ps: seq<Peer>, k: nat): int
    requires k <= |ps|
  {
    if k == 0 then 0 else WeightSum(ps, k - 1) + ps[k - 1].weight
  }

  lemma {:induction false} CurrentSumPay(qs: seq<Peer>, b: nat, amount: int, k: nat)
    requires b < |qs| && k <= |qs|
    ensures CurrentSum(Pay(qs, b, amount), k) == CurrentSum(qs, k) - if b < k then amount else 0
  {
    if k > 0 { CurrentSumPay(qs, b, amount, k - 1); }
  }

  lemma {:induction false} CurrentSumBumped(ps: seq<Peer>, up: seq<bool>, k: nat)
    requires |up| == |ps| && k <= |ps|
    ensures CurrentSum(Bumped(ps, up), k) == CurrentSum(ps, k) + UpTotal(ps, up, k)
  {
    if k > 0 { CurrentSumBumped(ps, up, k - 1); }
  }

  lemma {:induction false} NoneUpTotal(ps: seq<Peer>, up: seq<bool>, k: nat)
    requires |up| == |ps| && k <= |ps| && forall i :: 0 <= i < k ==> !up[i]
    ensures UpTotal(ps, up, k) == 0
  {
    if k > 0 { NoneUpTotal(ps, up, k - 1); }
  }

  /** Whatever is available, a selection only moves weight around: the sum of all current weights stays. */
  lemma RoundConserves(ps: seq<Peer>, up: seq<bool>)
    requires |up| == |ps|
    ensures CurrentSum(Round(ps, up).1, |ps|) == CurrentSum(ps, |ps|)
  {
    var qs := Bumped(ps, up);
    CurrentSumBumped(ps, up, |ps|);
    BestIsFirstBest(qs, up, |qs|);
    var choice := Best(qs, up, |qs|);
    if choice.NoPeer? {
      NoneUpTotal(ps, up, |ps|);
    } else {
      CurrentSumPay(qs, choice.index, UpTotal(ps, up, |ps|), |ps|);
    }
  }

  // ---------------------------------------------------------------- runs

  ghost predicate Covers(sched: Schedule, n: nat) {
    forall j: nat :: |sched(j)| == n
  }

  /** The same peers are available in every selection, and there are some. */
  ghost predicate Steady(sched: Schedule, up: seq<bool>) {
    (forall j: nat :: sched(j) == up) && exists i :: 0 <= i < |up| && up[i]
  }

  /** The group after k selections under a schedule. */
  ghost function After(ps: seq<Peer>, sched: Schedule, k: nat): (r: seq<Peer>)
    requires Covers(sched, |ps|)
    ensures |r| == |ps|
  {
    if k == 0 then ps else Round(After(ps, sched, k - 1), sched(k - 1)).1
  }

  /** The peer taken by selection number k, counting from 0. */
  ghost function Pick(ps: seq<Peer>, sched: Schedule, k: nat): Choice
    requires Covers(sched, |ps|)
  {
    Round(After(ps, sched, k), sched(k)).0
  }

  /** How many of the first k selections took peer i. */
  ghost function Picks(ps: seq<Peer>, sched: Schedule, i: nat, k: nat): nat
    requires Covers(sched, |ps|)
  {
    if k == 0 then 0
    else Picks(ps, sched, i, k - 1) + if Pick(ps, sched, k - 1) == Chosen(i) then 1 else 0
  }

  /** A peer as `upstream_server_create` makes it: no debt, effective weight as configured. */
  predicate Unimpaired(ps: seq<Peer>) {
    forall i :: 0 <= i < |ps| ==> 0 < ps[i].weight && ps[i].effective == ps[i].weight
  }

  predicate Fresh(ps: seq<Peer>) {
    Unimpaired(ps) && forall i :: 0 <= i < |ps| ==> ps[i].current == 0
  }

  /** On every run, under any availability, the sum of current weights never changes. */
  lemma {:induction false} SumConserved(ps: seq<Peer>, sched: Schedule, k: nat)
    requires Covers(sched, |ps|)
    ensures CurrentSum(After(ps, sched, k), |ps|) == CurrentSum(ps, |ps|)
  {
    if k > 0 {
      SumConserved(ps, sched, k - 1);
      RoundConserves(After(ps, sched, k - 1), sched(k - 1));
    }
  }

  /** Configured weights never change, and an unimpaired group stays unimpaired, under any availability. */
  lemma {:induction false} StaysUnimpaired(ps: seq<Peer>, sched: Schedule, k: nat)
    requires Covers(sched, |ps|) && Unimpaired(ps)
    ensures Unimpaired(After(ps, sched, k))
    ensures forall i :: 0 <= i < |ps| ==> After(ps, sched, k)[i].weight == ps[i].weight
  {
    if k > 0 { StaysUnimpaired(ps, sched, k - 1); }
  }

  /** In how many of the first k selections peer i is available. */
  ghost function Appearances(sched: Schedule, n: nat, i: nat, k: nat): nat
    requires Covers(sched, n) && i < n
  {
    if k == 0 then 0 else Appearances(sched, n, i, k - 1) + if sched(k - 1)[i] then 1 else 0
  }

  /** An effective weight below the configured one recovers by 1 with every selection in which the peer is available,
      until it is the configured one; above it, it stays. */
  lemma {:induction false} Recovers(ps: seq<Peer>, sched: Schedule, i: nat, k: nat)
    requires Covers(sched, |ps|) && i < |ps|
    ensures var (p, q, n) := (ps[i], After(ps, sched, k)[i], Appearances(sched, |ps|, i, k));
            && q.weight == p.weight
            && q.effective == if p.effective + n <= p.weight then p.effective + n
                              else if p.effective <= p.weight then p.weight else p.effective
  {
    if k > 0 {
      Recovers(ps, sched, i, k - 1);
      RoundEffect(After(ps, sched, k - 1), sched(k - 1), i);
      hide Round;
    }
  }

  /** One selection for one peer: if it is available it earns the effective weight it had, and if it is taken it pays the
      effective weights that all available peers had. */
  lemma RoundEffect(ps: seq<Peer>, up: seq<bool>, i: nat)
    requires |up| == |ps| && i < |ps|
    ensures var (choice, qs) := Round(ps, up);
            && qs[i].weight == ps[i].weight
            && qs[i].effective == ps[i].effective + (if up[i] && ps[i].effective < ps[i].weight then 1 else 0)
            && qs[i].current == ps[i].current + (if up[i] then ps[i].effective else 0)
                                - (if choice == Chosen(i) then UpTotal(ps, up, |ps|) else 0)
  {
    assert Bumped(ps, up)[i] == Bump(ps[i], up[i]);
  }

  // ---------------------------------------------------------------- runs with the same peers available

  /** What a peer earns in each selection: its weight, if it is available. */
  function Share(ps: seq<Peer>, up: seq<bool>, i: nat): int
    requires |up| == |ps| && i < |ps|
  {
    if up[i] then ps[i].weight else 0
  }

  /** The weights of the available peers among the first k. */
  function UpWeight(ps: seq<Peer>, up: seq<bool>, k: nat): int
    requires |up| == |ps| && k <= |ps|
  {
    if k == 0 then 0 else UpWeight(ps, up, k - 1) + Share(ps, up, k - 1)
  }

  function UpCount(up: seq<bool>, k: nat): (n: nat)
    requires k <= |up|
    ensures n <= k
  {
    if k == 0 then 0 else UpCount(up, k - 1) + if up[k - 1] then 1 else 0
  }

  /** When everyone is available the total is the sum of all weights. */
  lemma {:induction false} AllUpWeight(ps: seq<Peer>, up: seq<bool>, k: nat)
    requires |up| == |ps| && k <= |ps| && forall i :: 0 <= i < k ==> up[i]
    ensures UpWeight(ps, up, k) == WeightSum(ps, k) && UpCount(up, k) == k
  {
    if k > 0 { AllUpWeight(ps, up, k - 1); }
  }

  lemma {:induction false} UpTotalIsUpWeight(ps: seq<Peer>, qs: seq<Peer>, up: seq<bool>, k: nat)
    requires |up| == |ps| == |qs| && k <= |ps| && Unimpaired(qs)
    requires forall i :: 0 <= i < |ps| ==> qs[i].weight == ps[i].weight
    ensures UpTotal(qs, up, k) == UpWeight(ps, up, k)
  {
    if k > 0 { UpTotalIsUpWeight(ps, qs, up, k - 1); }
  }

  /** One selection: everyone available earns its weight, and the pick, one of them, pays W. */
  lemma SteadyStep(ps: seq<Peer>, up: seq<bool>, sched: Schedule, i: nat, k: nat)
    requires |up| == |ps| && Steady(sched, up) && Unimpaired(ps) && i < |ps|
    ensures Pick(ps, sched, k).Chosen? && Pick(ps, sched, k).index < |ps| && up[Pick(ps, sched, k).index]
    ensures After(ps, sched, k + 1)[i].current == After(ps, sched, k)[i].current + Share(ps, up, i)
                - if Pick(ps, sched, k) == Chosen(i) then UpWeight(ps, up, |ps|) else 0
  {
    var qs := After(ps, sched, k);
    StaysUnimpaired(ps, sched, k);
    UpTotalIsUpWeight(ps, qs, up, |ps|);
    assert Bumped(qs, up)[i] == Bump(qs[i], up[i]);
    BestIsFirstBest(Bumped(qs, up), up, |ps|);
    assert After(ps, sched, k + 1) == Round(qs, up).1;
  }

  /** n copies of x added up; the ledger is kept in this form so that its steps are linear. */
  function Times(n: nat, x: int): int {
    if n == 0 then 0 else Times(n - 1, x) + x
  }

  lemma {:induction false} TimesIsProduct(n: nat, x: int)
    ensures Times(n, x) == n * x
  {
    if n > 0 {
      TimesIsProduct(n - 1, x);
      Distribute(n - 1, 1, x);
    }
  }

  lemma {:induction false} LedgerInCopies(ps: seq<Peer>, up: seq<bool>, sched: Schedule, i: nat, k: nat)
    requires |up| == |ps| && Steady(sched, up) && Fresh(ps) && i < |ps|
    ensures After(ps, sched, k)[i].current
         == Times(k, Share(ps, up, i)) - Times(Picks(ps, sched, i, k), UpWeight(ps, up, |ps|))
  {
    hide Round, Share, UpWeight;
    if k > 0 {
      LedgerInCopies(ps, up, sched, i, k - 1);
      SteadyStep(ps, up, sched, i, k - 1);
    }
  }

  /** The ledger: after k selections peer i holds what it earned minus W for every time it was taken. */
  lemma Ledger(ps: seq<Peer>, up: seq<bool>, sched: Schedule, i: nat, k: nat)
    requires |up| == |ps| && Steady(sched, up) && Fresh(ps) && i < |ps|
    ensures After(ps, sched, k)[i].current == k * Share(ps, up, i) - Picks(ps, sched, i, k) * UpWeight(ps, up, |ps|)
  {
    LedgerInCopies(ps, up, sched, i, k);
    TimesIsProduct(k, Share(ps, up, i));
    TimesIsProduct(Picks(ps, sched, i, k), UpWeight(ps, up, |ps|));
  }

  /** Who is not available is neither taken nor changed. */
  lemma {:induction false} Untouched(ps: seq<Peer>, up: seq<bool>, sched: Schedule, i: nat, k: nat)
    requires |up| == |ps| && Steady(sched, up) && Unimpaired(ps) && i < |ps| && !up[i]
    ensures After(ps, sched, k)[i] == ps[i] && Picks(ps, sched, i, k) == 0
  {
    hide Round;
    if k > 0 {
      Untouched(ps, up, sched, i, k - 1);
      RoundLeaves(After(ps, sched, k - 1), up, i);
    }
  }

  lemma RoundLeaves(qs: seq<Peer>, up: seq<bool>, i: nat)
    requires |up| == |qs| && i < |qs| && !up[i]
    ensures Round(qs, up).1[i] == qs[i] && Round(qs, up).0 != Chosen(i)
  {
    assert Bumped(qs, up)[i] == qs[i];
  }

  /** The available peers hold at least -m each, the others nothing. */
  predicate NoneBelow(qs: seq<Peer>, up: seq<bool>, m: int)
    requires |up| == |qs|
  {
    forall j :: 0 <= j < |qs| ==> if up[j] then -m <= qs[j].current else qs[j].current == 0
  }

  /** Then one available peer holds at most the sum plus m for each of the other available ones. */
  lemma {:induction false} OneAgainstOthers(qs: seq<Peer>, up: seq<bool>, m: int, i: nat, k: nat)
    requires |up| == |qs| && i < k <= |qs| && up[i] && NoneBelow(qs, up, m)
    ensures qs[i].current <= CurrentSum(qs, k) + (UpCount(up, k) - 1) * m
  {
    if i < k - 1 {
      OneAgainstOthers(qs, up, m, i, k - 1);
      Distribute(UpCount(up, k - 1) - 1, 1, m);
    } else {
      SumAtLeast(qs, up, m, k - 1);
    }
  }

  lemma {:induction false} SumAtLeast(qs: seq<Peer>, up: seq<bool>, m: int, k: nat)
    requires |up| == |qs| && k <= |qs| && NoneBelow(qs, up, m)
    ensures -(UpCount(up, k) * m) <= CurrentSum(qs, k)
  {
    if k > 0 {
      SumAtLeast(qs, up, m, k - 1);
      Distribute(UpCount(up, k - 1), 1, m);
    }
  }

  lemma {:induction false} UpWeightPositive(ps: seq<Peer>, up: seq<bool>, k: nat)
    requires |up| == |ps| && Unimpaired(ps) && k <= |ps|
    ensures UpCount(up, k) <= UpWeight(ps, up, k)
  {
    if k > 0 { UpWeightPositive(ps, up, k - 1); }
  }

  lemma {:induction false} SomeCounted(up: seq<bool>, i: nat, k: nat)
    requires i < k <= |up| && up[i]
    ensures UpCount(up, k) > 0
  {
    if i < k - 1 { SomeCounted(up, i, k - 1); }
  }

  /** W is positive. */
  lemma TotalPositive(ps: seq<Peer>, up: seq<bool>, sched: Schedule)
    requires |up| == |ps| && Steady(sched, up) && Unimpaired(ps)
    ensures 0 < UpCount(up, |ps|) <= UpWeight(ps, up, |ps|)
  {
    var i :| 0 <= i < |up| && up[i];
    SomeCounted(up, i, |ps|);
    UpWeightPositive(ps, up, |ps|);
  }

  lemma {:induction false} FreshSum(ps: seq<Peer>, k: nat)
    requires Fresh(ps) && k <= |ps|
    ensures CurrentSum(ps, k) == 0
  {
    if k > 0 { FreshSum(ps, k - 1); }
  }

  /** Nobody's debt reaches W: the winner of a selection held at least 1 before paying. */
  lemma {:induction false} DebtBelowTotal(ps: seq<Peer>, up: seq<bool>, sched: Schedule, i: nat, k: nat)
    requires |up| == |ps| && Steady(sched, up) && Fresh(ps) && i < |ps|
    ensures -(UpWeight(ps, up, |ps|) - 1) <= After(ps, sched, k)[i].current
  {
    hide UpWeight, Round, Picks;
    TotalPositive(ps, up, sched);
    if k > 0 {
      DebtBelowTotal(ps, up, sched, i, k - 1);
      SteadyStep(ps, up, sched, i, k - 1);
      WinnerHoldsSomething(ps, up, sched, k - 1);
    }
  }

  lemma WinnerHoldsSomething(ps: seq<Peer>, up: seq<bool>, sched: Schedule, k: nat)
    requires |up| == |ps| && Steady(sched, up) && Fresh(ps) && |ps| > 0
    ensures Pick(ps, sched, k).Chosen? && Pick(ps, sched, k).index < |ps| && up[Pick(ps, sched, k).index]
    ensures var b := Pick(ps, sched, k).index; After(ps, sched, k)[b].current + ps[b].weight >= 1
  {
    var qs := After(ps, sched, k);
    var bs := Bumped(qs, up);
    SteadyStep(ps, up, sched, 0, k);
    StaysUnimpaired(ps, sched, k);
    var b := Pick(ps, sched, k).index;
    BestIsFirstBest(bs, up, |ps|);
    assert up[b] && bs[b] == Bump(qs[b], up[b]);
    assert 0 < CurrentSum(bs, |ps|) by {
      SumConserved(ps, sched, k);
      FreshSum(ps, |ps|);
      CurrentSumBumped(qs, up, |ps|);
      UpTotalIsUpWeight(ps, qs, up, |ps|);
      TotalPositive(ps, up, sched);
    }
    var m := if bs[b].current < 0 then 0 else bs[b].current;
    forall i | 0 <= i < |ps| ensures bs[i].current <= m {
      if !up[i] {
        Untouched(ps, up, sched, i, k);
        assert bs[i] == ps[i];
      }
    }
    PositiveSumPositiveMax(bs, m, |ps|);
  }

  lemma {:induction false} PositiveSumPositiveMax(ps: seq<Peer>, m: int, k: nat)
    requires k <= |ps| && (forall i :: 0 <= i < k ==> ps[i].current <= m) && 0 < CurrentSum(ps, k)
    ensures 0 < m
  {
    if 0 < CurrentSum(ps, k - 1) { PositiveSumPositiveMax(ps, m, k - 1); }
  }

  /** Every current weight stays within [-(W-1), (a-1)(W-1)] on every run with a peers available. */
  lemma Bounded(ps: seq<Peer>, up: seq<bool>, sched: Schedule, i: nat, k: nat)
    requires |up| == |ps| && Steady(sched, up) && Fresh(ps) && i < |ps|
    ensures var W := UpWeight(ps, up, |ps|);
            -(W - 1) <= After(ps, sched, k)[i].current <= (UpCount(up, |ps|) - 1) * (W - 1)
  {
    hide UpWeight, UpCount, CurrentSum;
    var m := UpWeight(ps, up, |ps|) - 1;
    TotalPositive(ps, up, sched);
    DebtBelowTotal(ps, up, sched, i, k);
    if up[i] {
      NoneBelowDebt(ps, up, sched, k);
      SumConserved(ps, sched, k);
      FreshSum(ps, |ps|);
      OneAgainstOthers(After(ps, sched, k), up, m, i, |ps|);
    } else {
      Untouched(ps, up, sched, i, k);
      TimesMonotone(0, UpCount(up, |ps|) - 1, m);
    }
  }

  lemma NoneBelowDebt(ps: seq<Peer>, up: seq<bool>, sched: Schedule, k: nat)
    requires |up| == |ps| && Steady(sched, up) && Fresh(ps)
    ensures NoneBelow(After(ps, sched, k), up, UpWeight(ps, up, |ps|) - 1)
  {
    hide UpWeight;
    forall j | 0 <= j < |ps|
      ensures var c := After(ps, sched, k)[j].current; if up[j] then -(UpWeight(ps, up, |ps|) - 1) <= c else c == 0
    {
      if up[j] { DebtBelowTotal(ps, up, sched, j, k); } else { Untouched(ps, up, sched, j, k); }
    }
  }

  /** Ceiling of a quotient, for a positive divisor. */
  function CeilDiv(a: int, d: int): int
    requires d > 0
  {
    (a + d - 1) / d
  }

  /** No peer runs ahead of its share: after k selections at most ceil(k*w/W) of them took peer i,
      and, with a peers available, at least k*w/W less (a-1)(W-1)/W of them did. */
  lemma NeverAhead(ps: seq<Peer>, up: seq<bool>, sched: Schedule, i: nat, k: nat)
    requires |up| == |ps| && Steady(sched, up) && Fresh(ps) && i < |ps|
    ensures var W, w := UpWeight(ps, up, |ps|), Share(ps, up, i);
            && W > 0
            && Picks(ps, sched, i, k) <= CeilDiv(k * w, W)
            && Picks(ps, sched, i, k) * W >= k * w - (UpCount(up, |ps|) - 1) * (W - 1)
  {
    hide UpWeight, Share, UpCount;
    Ledger(ps, up, sched, i, k);
    Bounded(ps, up, sched, i, k);
    TotalPositive(ps, up, sched);
    var W := UpWeight(ps, up, |ps|);
    QuotientAtLeast(k * Share(ps, up, i) + W - 1, W, Picks(ps, sched, i, k));
  }

  /** A multiple of W that is above -W is not negative. */
  lemma MultipleAbove(m: int, W: int)
    requires W > 0 && -W < m * W
    ensures 0 <= m * W
  {
    TimesMonotone(m, -1, W);
    TimesMonotone(0, m, W);
  }

  /** After full periods nobody is in debt, and the sum is 0, so everybody is back at 0. */
  lemma PeriodEndsAtZero(ps: seq<Peer>, up: seq<bool>, sched: Schedule, i: nat, m: nat, k: nat)
    requires |up| == |ps| && Steady(sched, up) && Fresh(ps) && i < |ps| && k == m * UpWeight(ps, up, |ps|)
    ensures After(ps, sched, k)[i].current == 0
  {
    hide UpWeight, UpCount, CurrentSum;
    var qs := After(ps, sched, k);
    forall j | 0 <= j < |ps| ensures if up[j] then 0 <= qs[j].current else qs[j].current == 0 {
      if up[j] { NoDebtAtPeriod(ps, up, sched, j, m, k); } else { Untouched(ps, up, sched, j, k); }
    }
    SumConserved(ps, sched, k);
    FreshSum(ps, |ps|);
    if up[i] { OneAgainstOthers(qs, up, 0, i, |ps|); }
  }

  lemma NoDebtAtPeriod(ps: seq<Peer>, up: seq<bool>, sched: Schedule, j: nat, m: nat, k: nat)
    requires |up| == |ps| && Steady(sched, up) && Fresh(ps) && j < |ps| && k == m * UpWeight(ps, up, |ps|)
    ensures 0 <= After(ps, sched, k)[j].current
  {
    hide UpWeight, Share;
    var W, w, taken := UpWeight(ps, up, |ps|), Share(ps, up, j), Picks(ps, sched, j, k);
    TotalPositive(ps, up, sched);
    Ledger(ps, up, sched, j, k);
    DebtBelowTotal(ps, up, sched, j, k);
    DebtFree(m, W, w, taken);
  }

  lemma DebtFree(m: int, W: int, w: int, taken: int)
    requires W > 0
    ensures -W < (m * W) * w - taken * W ==> 0 <= (m * W) * w - taken * W
  {
    Regroup(m, W, w);
    Distribute(m * w, -taken, W);
    if -W < (m * w - taken) * W { MultipleAbove(m * w - taken, W); }
  }

  lemma Regroup(m: int, W: int, w: int)
    ensures m * W * w == (m * w) * W
  {
  }

  /** Exact fairness: after m*W selections every available peer was taken exactly m*weight times, every other never,
      and the group is as it began. */
  lemma ExactlyFair(ps: seq<Peer>, up: seq<bool>, sched: Schedule, m: nat, k: nat)
    requires |up| == |ps| && Steady(sched, up) && Fresh(ps) && k == m * UpWeight(ps, up, |ps|)
    ensures After(ps, sched, k) == ps
    ensures forall i :: 0 <= i < |ps| ==> Picks(ps, sched, i, k) == m * Share(ps, up, i)
  {
    hide UpWeight, Share, UpCount;
    StaysUnimpaired(ps, sched, k);
    TotalPositive(ps, up, sched);
    forall i | 0 <= i < |ps|
      ensures After(ps, sched, k)[i] == ps[i] && Picks(ps, sched, i, k) == m * Share(ps, up, i)
    {
      PeriodEndsAtZero(ps, up, sched, i, m, k);
      Ledger(ps, up, sched, i, k);
      Regroup(m, UpWeight(ps, up, |ps|), Share(ps, up, i));
      SameFactor(Picks(ps, sched, i, k), m * Share(ps, up, i), UpWeight(ps, up, |ps|));
    }
  }

  lemma SameFactor(a: int, b: int, W: int)
    requires W > 0 && a * W == b * W
    ensures a == b
  {
    Distribute(a, -b, W);
  }

  lemma {:induction false} RepeatsFrom(ps: seq<Peer>, up: seq<bool>, sched: Schedule, start: nat, k: nat)
    requires |up| == |ps| && Steady(sched, up) && After(ps, sched, start) == ps
    ensures After(ps, sched, start + k) == After(ps, sched, k)
  {
    hide Round;
    if k > 0 { RepeatsFrom(ps, up, sched, start, k - 1); }
  }

  /** The selections repeat with period W. */
  lemma Periodic(ps: seq<Peer>, up: seq<bool>, sched: Schedule, m: nat, start: nat, k: nat)
    requires |up| == |ps| && Steady(sched, up) && Fresh(ps) && start == m * UpWeight(ps, up, |ps|)
    ensures After(ps, sched, start + k) == After(ps, sched, k)
    ensures Pick(ps, sched, start + k) == Pick(ps, sched, k)
  {
    ExactlyFair(ps, up, sched, m, start);
    RepeatsFrom(ps, up, sched, start, k);
  }
}
