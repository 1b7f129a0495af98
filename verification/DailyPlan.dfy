/**
 `calc_daily_plan` of rust-email-sender/src/scheduler.rs: split the daily cap of
 a mailbox into a warm-up budget and a campaign budget.

 The percentage is a real number here where the source has `f64`; sums of sent
 counts are assumed not to overflow.
 */
module DailyPlan {
  import opened Common

  datatype Request = Request(dailyCap: nat, warmupPct: real, campaignSent: nat, warmupSent: nat)
  datatype Plan = Plan(
    warmupBudget: nat,
    campaignBudget: nat,
    warmupRemaining: nat,
    campaignRemaining: nat,
    totalRemaining: nat,
    warmupReduced: bool)

  function Minus(a: nat, b: nat): nat {
    if a > b then a - b else 0
  }

  /** `round() as u32`: half away from zero, then saturated to the integer type. */
  function RoundToU32(x: real): (n: nat)
    ensures n <= MAX_U32
  {
    var rounded := Round(x);
    if rounded < 0 then 0 else if rounded > MAX_U32 then MAX_U32 else rounded
  }

  function WarmupBudget(cap: nat, pct: real): (budget: nat)
    ensures budget <= cap
  {
    var raw := RoundToU32(cap as real * pct / 100.0);
    Min(if raw >= 1 then raw else 1, cap)
  }

  /** The budget is the nearest whole number to its percentage of the cap, but at least
      one and at most the cap. */
  lemma WarmupBudgetIs(cap: nat, pct: real, exact: real)
    requires cap <= MAX_U32 && exact * 100.0 == cap as real * pct
    ensures cap > 0 ==> 1 <= WarmupBudget(cap, pct) <= cap
    ensures cap == 0 ==> WarmupBudget(cap, pct) == 0
    ensures 0.5 <= exact < cap as real + 0.5 && cap > 0 ==>
              WarmupBudget(cap, pct) as real - 0.5 <= exact < WarmupBudget(cap, pct) as real + 0.5
    ensures exact < 0.5 && cap > 0 ==> WarmupBudget(cap, pct) == 1
    ensures exact >= cap as real + 0.5 ==> WarmupBudget(cap, pct) == cap
  {
    assert exact == cap as real * pct / 100.0;
    RoundIsNearest(exact);
    hide Round;
  }

  /** The source, branch by branch.  The two budgets share out the cap; the
      branch that would move freed warm-up sends to the campaign never fires;
      and the total left is below the two remainders together exactly when one
      class has overspent its budget while the other still has room. */
  function CalcDailyPlan(req: Request): (p: Plan)
    ensures p.warmupBudget == WarmupBudget(req.dailyCap, req.warmupPct)
    ensures p.warmupBudget + p.campaignBudget == req.dailyCap
    ensures req.dailyCap > 0 ==> p.warmupBudget >= 1
    ensures p.warmupRemaining == Minus(p.warmupBudget, req.warmupSent)
    ensures p.campaignRemaining == Minus(p.campaignBudget, req.campaignSent)
    ensures p.warmupReduced <==> p.warmupRemaining == 0 && p.campaignRemaining > 0
    ensures p.totalRemaining == 0 <==> req.campaignSent + req.warmupSent >= req.dailyCap
    ensures p.totalRemaining > 0 ==> p.totalRemaining + req.campaignSent + req.warmupSent == req.dailyCap
    ensures p.totalRemaining <= p.warmupRemaining + p.campaignRemaining
    ensures p.warmupRemaining + p.campaignRemaining > p.totalRemaining <==>
            (req.warmupSent > p.warmupBudget && p.campaignRemaining > 0)
            || (req.campaignSent > p.campaignBudget && p.warmupRemaining > 0)
  {
    var warmupBudget := WarmupBudget(req.dailyCap, req.warmupPct);
    var campaignBudget: nat := req.dailyCap - warmupBudget;
    var warmupRemaining: nat := if req.warmupSent >= warmupBudget then 0 else warmupBudget - req.warmupSent;
    var campaignRemaining: nat := if req.campaignSent >= campaignBudget then 0 else campaignBudget - req.campaignSent;
    Plan(
      warmupBudget,
      campaignBudget,
      warmupRemaining,
      if warmupRemaining == 0 && warmupBudget > req.warmupSent then
        WithFreed(warmupBudget, req.warmupSent, campaignBudget, campaignRemaining, req.campaignSent)
      else campaignRemaining,
      Minus(req.dailyCap, req.campaignSent + req.warmupSent),
      req.warmupSent >= warmupBudget && campaignBudget > req.campaignSent)
  }

  function WithFreed(warmupBudget: nat, warmupSent: nat,
                     campaignBudget: nat, campaignRemaining: nat, campaignSent: nat): nat {
    var freed := warmupBudget - warmupSent;
    if freed > 0 then campaignRemaining + Min(freed / 2, Minus(campaignBudget, campaignSent))
    else campaignRemaining
  }

  // ---- a day of sends ----------------------------------------------------

  datatype Class = WarmupClass | CampaignClass

  /** One send, decided on a plan made just before it with the given percentage. */
  datatype Send = Send(kind: Class, pct: real)

  function After(req: Request, kind: Class): Request {
    match kind
    case WarmupClass => req.(warmupSent := req.warmupSent + 1)
    case CampaignClass => req.(campaignSent := req.campaignSent + 1)
  }

  /** Sent counts of a mailbox with this cap after the sends. */
  function Sent(cap: nat, sends: seq<Send>): Request {
    if sends == [] then Request(cap, 0.0, 0, 0)
    else After(Sent(cap, sends[..|sends| - 1]), sends[|sends| - 1].kind)
  }

  function PlanBefore(cap: nat, sends: seq<Send>, i: nat): Plan
    requires i < |sends|
  {
    CalcDailyPlan(Sent(cap, sends[..i]).(warmupPct := sends[i].pct))
  }

  function Room(p: Plan, kind: Class): nat {
    match kind
    case WarmupClass => p.warmupRemaining
    case CampaignClass => p.campaignRemaining
  }

  /** Every send had room left in its own class. */
  ghost predicate WithinClass(cap: nat, sends: seq<Send>) {
    forall i :: 0 <= i < |sends| ==> Room(PlanBefore(cap, sends, i), sends[i].kind) > 0
  }

  ghost predicate Percentages(sends: seq<Send>, pcts: iset<real>) {
    forall i :: 0 <= i < |sends| ==> sends[i].pct in pcts
  }

  /** Every send had room left in the total. */
  ghost predicate WithinTotal(cap: nat, sends: seq<Send>) {
    forall i :: 0 <= i < |sends| ==> PlanBefore(cap, sends, i).totalRemaining > 0
  }

  lemma {:induction false} SentCounts(cap: nat, sends: seq<Send>)
    ensures Sent(cap, sends).warmupSent + Sent(cap, sends).campaignSent == |sends|
    ensures Sent(cap, sends).dailyCap == cap
  {
    if sends == [] {
    } else {
      SentCounts(cap, sends[..|sends| - 1]);
    }
  }

  lemma PrefixPlans(cap: nat, sends: seq<Send>, n: nat)
    requires n <= |sends|
    ensures forall i :: 0 <= i < n ==> sends[..n][..i] == sends[..i]
    ensures WithinClass(cap, sends) ==> WithinClass(cap, sends[..n])
    ensures WithinTotal(cap, sends) ==> WithinTotal(cap, sends[..n])
  {
    forall i | 0 <= i < n
      ensures sends[..n][..i] == sends[..i] && PlanBefore(cap, sends[..n], i) == PlanBefore(cap, sends, i)
    {
      assert sends[..n][..i] == sends[..i];
    }
  }

  /** While the percentages of a day all give the same warm-up budget, replanning
      before each send and sending only what the class has left keeps both
      budgets, and so the daily cap. */
  lemma {:induction false} ClassBudgetsKeepTheCap(cap: nat, sends: seq<Send>, budget: nat)
    requires WithinClass(cap, sends) && budget <= cap
    requires forall i :: 0 <= i < |sends| ==> WarmupBudget(cap, sends[i].pct) == budget
    ensures Sent(cap, sends).warmupSent <= budget
    ensures Sent(cap, sends).campaignSent <= cap - budget
    ensures |sends| <= cap
  {
    hide WarmupBudget;
    SentCounts(cap, sends);
    if sends == [] {
    } else {
      var n := |sends| - 1;
      PrefixPlans(cap, sends, n);
      ClassBudgetsKeepTheCap(cap, sends[..n], budget);
      SentCounts(cap, sends[..n]);
      assert Room(PlanBefore(cap, sends, n), sends[n].kind) > 0;
    }
  }

  /** The day that spends one budget on warm-ups and the other on campaign sends. */
  function TwoPhases(warmups: nat, q: real, campaigns: nat, p: real): seq<Send> {
    seq(warmups + campaigns, i requires 0 <= i => if i < warmups then Send(WarmupClass, q) else Send(CampaignClass, p))
  }

  lemma {:induction false} SentInPhases(cap: nat, warmups: nat, q: real, campaigns: nat, p: real, n: nat)
    requires n <= warmups + campaigns
    ensures Sent(cap, TwoPhases(warmups, q, campaigns, p)[..n])
            == Request(cap, 0.0, if n <= warmups then 0 else n - warmups, Min(n, warmups))
  {
    if n == 0 {
    } else {
      SentInPhases(cap, warmups, q, campaigns, p, n - 1);
      var day := TwoPhases(warmups, q, campaigns, p);
      assert day[..n][..n - 1] == day[..n - 1];
    }
  }

  lemma PhasesAreWithinClass(cap: nat, q: real, p: real)
    ensures WithinClass(cap, TwoPhases(WarmupBudget(cap, q), q, cap - WarmupBudget(cap, p), p))
  {
    var warmups, campaigns: nat := WarmupBudget(cap, q), cap - WarmupBudget(cap, p);
    var day := TwoPhases(warmups, q, campaigns, p);
    hide WarmupBudget, WithFreed;
    forall i | 0 <= i < |day| ensures Room(PlanBefore(cap, day, i), day[i].kind) > 0 {
      SentInPhases(cap, warmups, q, campaigns, p, i);
    }
  }

  /** The class budgets keep the cap on every day with these percentages exactly
      when all of them give the same warm-up budget. */
  lemma ClassBudgetsKeepTheCapIff(cap: nat, pcts: iset<real>)
    ensures (forall sends: seq<Send> :: WithinClass(cap, sends) && Percentages(sends, pcts) ==> |sends| <= cap)
            <==> forall p, q :: p in pcts && q in pcts ==> WarmupBudget(cap, p) == WarmupBudget(cap, q)
  {
    hide WarmupBudget, WithinClass, Sent;
    if p, q :| p in pcts && q in pcts && WarmupBudget(cap, p) < WarmupBudget(cap, q) {
      var day := TwoPhases(WarmupBudget(cap, q), q, cap - WarmupBudget(cap, p), p);
      PhasesAreWithinClass(cap, q, p);
      assert Percentages(day, pcts) && |day| > cap;
    } else {
      assert forall p, q :: p in pcts && q in pcts ==> !(WarmupBudget(cap, p) < WarmupBudget(cap, q));
      forall sends: seq<Send> | WithinClass(cap, sends) && Percentages(sends, pcts) ensures |sends| <= cap {
        if sends == [] {
        } else {
          ClassBudgetsKeepTheCap(cap, sends, WarmupBudget(cap, sends[0].pct));
        }
      }
    }
  }

  /** Checking the total as well keeps the cap whatever the percentages. */
  lemma TotalKeepsTheCap(cap: nat, sends: seq<Send>)
    requires WithinTotal(cap, sends)
    ensures |sends| <= cap
  {
    if sends != [] {
      var n := |sends| - 1;
      SentCounts(cap, sends[..n]);
      assert PlanBefore(cap, sends, n).totalRemaining > 0;
    }
  }

  lemma BudgetsOfTwo()
    ensures WarmupBudget(2, 100.0) == 2 && WarmupBudget(2, 50.0) == 1
  {
    assert 2 as real * 100.0 / 100.0 == 2.0 && 2 as real * 50.0 / 100.0 == 1.0;
    assert Round(2.0) == 2 && Round(1.0) == 1;
  }

  /** So with a cap of two, a day that starts at 100 percent and goes on at 50
      percent can send three. */
  lemma ChangedPercentageBreaksTheCap()
    ensures exists sends :: WithinClass(2, sends) && Percentages(sends, iset{100.0, 50.0}) && |sends| > 2
  {
    BudgetsOfTwo();
    hide WarmupBudget, WithinClass;
    ClassBudgetsKeepTheCapIff(2, iset{100.0, 50.0});
  }
}
