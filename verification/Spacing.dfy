/**
 `calc_spacing` of rust-email-sender/src/scheduler.rs: place the sends of a day
 on a time line that advances by one fixed interval.

 Minutes are real numbers here where the source has `f64`; rounding of the
 emitted minute is modelled, rounding error of the arithmetic is not.
 */
module Spacing {
  import opened Common

  datatype Kind = CampaignInitial | FollowUp | Warmup
  datatype Slot = Slot(minuteOfDay: int, kind: Kind)
  datatype Request = Request(initials: nat, followUps: nat, warmups: nat, minGap: nat, hoursActive: nat, startHour: nat)

  /** What is left to place, and when the last sends went out. */
  datatype State = State(initials: nat, followUps: nat, warmups: nat, lastWarmup: real, lastCampaign: real)

  /** A slot before its minute is rounded: the number of intervals since the start. */
  datatype Entry = Entry(step: nat, kind: Kind)

  function Max(a: real, b: real): real {
    if a >= b then a else b
  }

  function Ceiling(x: real): int {
    -(-x).Floor
  }

  function TotalSends(r: Request): nat {
    r.initials + r.followUps + r.warmups
  }

  function Active(r: Request): real {
    (r.hoursActive * 60) as real
  }

  function Start(r: Request): real {
    (r.startHour * 60) as real
  }

  function End(r: Request): real {
    (r.startHour * 60 + r.hoursActive * 60) as real
  }

  function Gap(r: Request): real {
    r.minGap as real
  }

  function WarmupGap(r: Request): real {
    if r.minGap >= 10 then r.minGap as real else 10.0
  }

  /** The early return of the source: nothing to send, or no hours to send in. */
  predicate Plannable(r: Request) {
    TotalSends(r) > 0 && r.hoursActive > 0
  }

  /** The interval that would use up the active hours evenly. */
  function Even(r: Request): (even: real)
    requires Plannable(r)
    ensures even > 0.0
  {
    EvenIsPositive(Active(r), TotalSends(r));
    Active(r) / TotalSends(r) as real
  }

  function Interval(r: Request): (iv: real)
    requires Plannable(r)
    ensures 0.0 < iv <= 120.0
    ensures r.minGap <= 120 ==> iv >= Gap(r)
  {
    var wanted := Max(Even(r), Gap(r));
    if wanted <= 120.0 then wanted else 120.0
  }

  lemma EvenIsPositive(active: real, total: nat)
    requires active > 0.0 && total > 0
    ensures active / total as real > 0.0
  {
  }

  function Minute(r: Request, step: nat): real
    requires Plannable(r)
  {
    Start(r) + step as real * Interval(r)
  }

  /** How many steps fit in the active hours. */
  function Steps(r: Request): (n: nat)
    requires Plannable(r)
    ensures n >= 1
  {
    CeilingPositive(Active(r), Interval(r));
    Ceiling(Active(r) / Interval(r))
  }

  lemma CeilingPositive(active: real, iv: real)
    requires active > 0.0 && iv > 0.0
    ensures Ceiling(active / iv) >= 1
  {
    assert active / iv > 0.0;
  }

  lemma StepsFit(r: Request, step: nat)
    requires Plannable(r)
    ensures step < Steps(r) <==> Minute(r, step) < End(r)
  {
    CeilingFits(Active(r), Interval(r), step);
    hide Interval;
    assert End(r) == Start(r) + Active(r);
  }

  lemma Quotient(a: real, b: real)
    requires b > 0.0
    ensures a / b * b == a
  {
  }

  lemma Scale(a: real, b: real, c: real)
    requires c > 0.0
    ensures a < b <==> a * c < b * c
  {
    if a < b {
      assert (b - a) * c > 0.0;
    } else {
      assert (a - b) * c >= 0.0;
    }
  }

  lemma MinuteStep(r: Request, step: nat)
    requires Plannable(r)
    ensures Minute(r, step + 1) == Minute(r, step) + Interval(r)
  {
    assert (step + 1) as real == step as real + 1.0;
    OneMore(step as real, Interval(r));
  }

  lemma OneMore(x: real, iv: real)
    ensures (x + 1.0) * iv == x * iv + iv
  {
  }

  lemma MinutesApart(r: Request, i: nat, j: nat)
    requires Plannable(r) && i < j
    ensures Minute(r, j) - Minute(r, i) >= Interval(r)
  {
    var d := (j - i - 1) as real;
    assert j as real == i as real + 1.0 + d;
    assert d * Interval(r) >= 0.0;
  }

  function Initial(r: Request): State {
    State(r.initials, r.followUps, r.warmups, -100.0, -100.0)
  }

  predicate Done(s: State) {
    s.initials == 0 && s.followUps == 0 && s.warmups == 0
  }

  predicate InDeadline(r: Request, minute: real) {
    minute >= End(r) - Gap(r) * 2.0
  }

  /** Which send class, if any, goes out at this minute. */
  function Pick(r: Request, s: State, minute: real): Option<Kind> {
    var clear := minute - s.lastCampaign >= Gap(r);
    var warmupDue := s.warmups > 0 && minute - s.lastWarmup >= WarmupGap(r) && clear;
    var campaignDue := s.initials > 0 && clear && !warmupDue;
    if campaignDue || (InDeadline(r, minute) && s.initials > 0) then Some(CampaignInitial)
    else if warmupDue then Some(Warmup)
    else if s.followUps > 0 && clear then Some(FollowUp)
    else None
  }

  predicate CanSend(s: State, kind: Kind) {
    match kind
    case CampaignInitial => s.initials > 0
    case FollowUp => s.followUps > 0
    case Warmup => s.warmups > 0
  }

  function Send(s: State, kind: Kind, minute: real): State
    requires CanSend(s, kind)
  {
    match kind
    case CampaignInitial => s.(initials := s.initials - 1, lastCampaign := minute)
    case FollowUp => s.(followUps := s.followUps - 1, lastCampaign := minute)
    case Warmup => s.(warmups := s.warmups - 1, lastWarmup := minute, lastCampaign := minute)
  }

  /** Everything emitted from step `k` on. */
  function Run(r: Request, k: nat, s: State): seq<Entry>
    requires Plannable(r)
    decreases Steps(r) - k
  {
    if k >= Steps(r) || Done(s) then []
    else
      match Pick(r, s, Minute(r, k))
      case None => Run(r, k + 1, s)
      case Some(kind) => [Entry(k, kind)] + Run(r, k + 1, Send(s, kind, Minute(r, k)))
  }

  function Slots(r: Request, entries: seq<Entry>): seq<Slot>
    requires Plannable(r)
  {
    seq(|entries|, i requires 0 <= i < |entries| => Slot(Round(Minute(r, entries[i].step)), entries[i].kind))
  }

  function Entries(r: Request): seq<Entry>
    requires Plannable(r)
  {
    Run(r, 0, Initial(r))
  }

  function Schedule(r: Request): seq<Slot> {
    if Plannable(r) then Slots(r, Entries(r)) else []
  }

  lemma FirstMinute(r: Request)
    requires Plannable(r)
    ensures Minute(r, 0) == Start(r)
  {
    hide Interval;
  }

  lemma SlotsOfNone(r: Request)
    requires Plannable(r)
    ensures Slots(r, []) == []
  {
  }

  lemma SlotsSnoc(r: Request, entries: seq<Entry>, e: Entry)
    requires Plannable(r)
    ensures Slots(r, entries + [e]) == Slots(r, entries) + [Slot(Round(Minute(r, e.step)), e.kind)]
  {
    hide Minute, Round;
  }

  lemma EntriesAre(r: Request)
    requires Plannable(r)
    ensures [] + Run(r, 0, Initial(r)) == Entries(r)
  {
  }

  lemma RunUnfolds(r: Request, k: nat, s: State)
    requires Plannable(r)
    ensures k >= Steps(r) || Done(s) ==> Run(r, k, s) == []
    ensures k < Steps(r) && !Done(s) ==>
              Run(r, k, s) == match Pick(r, s, Minute(r, k))
                              case None => Run(r, k + 1, s)
                              case Some(kind) => [Entry(k, kind)] + Run(r, k + 1, Send(s, kind, Minute(r, k)))
  {
  }

  lemma Emits(r: Request, k: nat, s: State, entries: seq<Entry>, kind: Kind)
    requires Plannable(r) && k < Steps(r) && !Done(s) && Pick(r, s, Minute(r, k)) == Some(kind) && CanSend(s, kind)
    ensures entries + Run(r, k, s) == (entries + [Entry(k, kind)]) + Run(r, k + 1, Send(s, kind, Minute(r, k)))
    ensures Slots(r, entries + [Entry(k, kind)]) == Slots(r, entries) + [Slot(Round(Minute(r, k)), kind)]
  {
    RunUnfolds(r, k, s);
    SlotsSnoc(r, entries, Entry(k, kind));
    hide Run, Slots, Steps, Minute, Pick, Send;
  }

  method CalcSpacing(r: Request) returns (slots: seq<Slot>)
    ensures slots == Schedule(r)
  {
    var totalSends := r.initials + r.followUps + r.warmups;
    if totalSends == 0 || r.hoursActive == 0 {
      return [];
    }
    var activeMinutes, startMinute := r.hoursActive * 60, r.startHour * 60;
    var idealInterval := Interval(r);
    var initials, followUps, warmups := r.initials, r.followUps, r.warmups;
    var minute, lastWarmup, lastCampaign := startMinute as real, -100.0, -100.0;
    var warmupGap, campaignGap := WarmupGap(r), Gap(r);
    slots := [];

    FirstMinute(r);
    SlotsOfNone(r);
    EntriesAre(r);
    hide Interval, Steps, Run, Slots, Entries, Minute, Round;
    ghost var k: nat, entries: seq<Entry> := 0, [];
    ghost var s := Initial(r);
    StepsFit(r, 0);
    while (initials > 0 || followUps > 0 || warmups > 0) && minute < (startMinute + activeMinutes) as real
      invariant minute == Minute(r, k)
      invariant s == State(initials, followUps, warmups, lastWarmup, lastCampaign)
      invariant slots == Slots(r, entries)
      invariant entries + Run(r, k, s) == Entries(r)
      invariant minute < End(r) <==> k < Steps(r)
      decreases Steps(r) - k
    {
      var warmupDue := warmups > 0 && minute - lastWarmup >= warmupGap && minute - lastCampaign >= campaignGap;
      var campaignDue := initials > 0 && minute - lastCampaign >= campaignGap && (!warmupDue || warmups <= 0);
      var deadlineApproach := minute >= (startMinute + activeMinutes) as real - campaignGap * 2.0;
      if campaignDue || (deadlineApproach && initials > 0) {
        Emits(r, k, s, entries, CampaignInitial);
        entries, s := entries + [Entry(k, CampaignInitial)], Send(s, CampaignInitial, minute);
        slots := slots + [Slot(Round(minute), CampaignInitial)];
        initials := initials - 1;
        lastCampaign := minute;
      } else if warmupDue {
        Emits(r, k, s, entries, Warmup);
        entries, s := entries + [Entry(k, Warmup)], Send(s, Warmup, minute);
        slots := slots + [Slot(Round(minute), Warmup)];
        warmups := warmups - 1;
        lastWarmup := minute;
        lastCampaign := minute;
      } else if followUps > 0 && minute - lastCampaign >= campaignGap {
        Emits(r, k, s, entries, FollowUp);
        entries, s := entries + [Entry(k, FollowUp)], Send(s, FollowUp, minute);
        slots := slots + [Slot(Round(minute), FollowUp)];
        followUps := followUps - 1;
        lastCampaign := minute;
      } else {
        RunUnfolds(r, k, s);
      }
      MinuteStep(r, k);
      StepsFit(r, k + 1);
      minute := minute + idealInterval;
      k := k + 1;
    }
    RunUnfolds(r, k, s);
    assert entries + [] == entries;
  }

  // ---- every run ---------------------------------------------------------

  function CountOf(entries: seq<Entry>, kind: Kind): nat {
    if entries == [] then 0 else (if entries[0].kind == kind then 1 else 0) + CountOf(entries[1..], kind)
  }

  function Left(s: State, kind: Kind): nat {
    match kind
    case CampaignInitial => s.initials
    case FollowUp => s.followUps
    case Warmup => s.warmups
  }

  /** Steps are strictly increasing and inside the active hours, and no class is
      sent more often than requested. */
  lemma {:induction false} RunInOrder(r: Request, k: nat, s: State)
    requires Plannable(r)
    ensures forall i :: 0 <= i < |Run(r, k, s)| ==> k <= Run(r, k, s)[i].step < Steps(r)
    ensures forall i, j :: 0 <= i < j < |Run(r, k, s)| ==> Run(r, k, s)[i].step < Run(r, k, s)[j].step
    ensures forall kind :: CountOf(Run(r, k, s), kind) <= Left(s, kind)
    decreases Steps(r) - k
  {
    if k < Steps(r) && !Done(s) {
      match Pick(r, s, Minute(r, k))
      case None =>
        RunInOrder(r, k + 1, s);
      case Some(kind) =>
        var next := Send(s, kind, Minute(r, k));
        RunInOrder(r, k + 1, next);
        var rest := Run(r, k + 1, next);
        assert ([Entry(k, kind)] + rest)[1..] == rest;
        forall other ensures CountOf(Run(r, k, s), other) <= Left(s, other) {
          assert CountOf(rest, other) <= Left(next, other);
        }
    }
  }

  /** Follow-ups only start once no initial is left. */
  lemma {:induction false} InitialsFirst(r: Request, k: nat, s: State)
    requires Plannable(r)
    ensures forall i, j :: 0 <= i < j < |Run(r, k, s)| && Run(r, k, s)[i].kind == FollowUp ==>
              Run(r, k, s)[j].kind != CampaignInitial
    ensures s.initials == 0 ==> forall j :: 0 <= j < |Run(r, k, s)| ==> Run(r, k, s)[j].kind != CampaignInitial
    decreases Steps(r) - k
  {
    if k < Steps(r) && !Done(s) {
      match Pick(r, s, Minute(r, k))
      case None => InitialsFirst(r, k + 1, s);
      case Some(kind) => InitialsFirst(r, k + 1, Send(s, kind, Minute(r, k)));
    }
  }

  /** The warm-up gap is tested against the last warm-up whatever happened in
      between, so it holds for every minimum gap. */
  lemma {:induction false} WarmupsApart(r: Request, k: nat, s: State)
    requires Plannable(r)
    ensures forall i :: 0 <= i < |Run(r, k, s)| && Run(r, k, s)[i].kind == Warmup ==>
              Minute(r, Run(r, k, s)[i].step) - s.lastWarmup >= WarmupGap(r)
    ensures forall i, j :: 0 <= i < j < |Run(r, k, s)| && Run(r, k, s)[i].kind == Warmup && Run(r, k, s)[j].kind == Warmup ==>
              Minute(r, Run(r, k, s)[j].step) - Minute(r, Run(r, k, s)[i].step) >= WarmupGap(r)
    decreases Steps(r) - k
  {
    if k < Steps(r) && !Done(s) {
      match Pick(r, s, Minute(r, k))
      case None => WarmupsApart(r, k + 1, s);
      case Some(kind) => WarmupsApart(r, k + 1, Send(s, kind, Minute(r, k)));
    }
  }

  /** A whole number of minutes between two exact times survives rounding. */
  lemma RoundKeepsGap(x: real, y: real, gap: nat)
    requires 0.0 <= x && y - x >= gap as real
    ensures Round(y) - Round(x) >= gap
  {
    assert (x + 0.5 + gap as real).Floor == (x + 0.5).Floor + gap;
  }

  /** Slots of the rounded schedule keep the minimum gap of the request. */
  ghost predicate KeepsGap(r: Request) {
    forall i, j :: 0 <= i < j < |Schedule(r)| ==> Schedule(r)[j].minuteOfDay - Schedule(r)[i].minuteOfDay >= r.minGap
  }

  /** What every schedule guarantees, whatever the request: minutes inside the
      active hours and never decreasing, initials before follow-ups, warm-ups
      apart even after rounding. */
  lemma ScheduleIsOrderly(r: Request)
    ensures forall i :: 0 <= i < |Schedule(r)| ==>
              r.startHour * 60 <= Schedule(r)[i].minuteOfDay <= (r.startHour + r.hoursActive) * 60
    ensures forall i, j :: 0 <= i < j < |Schedule(r)| ==> Schedule(r)[i].minuteOfDay <= Schedule(r)[j].minuteOfDay
    ensures forall i, j :: 0 <= i < j < |Schedule(r)| ==>
              !(Schedule(r)[i].kind == FollowUp && Schedule(r)[j].kind == CampaignInitial)
    ensures forall i, j :: 0 <= i < j < |Schedule(r)| && Schedule(r)[i].kind == Warmup && Schedule(r)[j].kind == Warmup ==>
              Schedule(r)[j].minuteOfDay - Schedule(r)[i].minuteOfDay >= r.minGap
              && Schedule(r)[j].minuteOfDay - Schedule(r)[i].minuteOfDay >= 10
  {
    if Plannable(r) {
      var es := Entries(r);
      RunInOrder(r, 0, Initial(r));
      InitialsFirst(r, 0, Initial(r));
      WarmupsApart(r, 0, Initial(r));
      forall i | 0 <= i < |es|
        ensures r.startHour * 60 <= Round(Minute(r, es[i].step)) <= (r.startHour + r.hoursActive) * 60
      {
        MinuteInHours(r, es[i].step);
      }
      forall i, j | 0 <= i < j < |es|
        ensures Round(Minute(r, es[i].step)) <= Round(Minute(r, es[j].step))
        ensures es[i].kind == Warmup && es[j].kind == Warmup ==>
                  Round(Minute(r, es[j].step)) - Round(Minute(r, es[i].step)) >= r.minGap
                  && Round(Minute(r, es[j].step)) - Round(Minute(r, es[i].step)) >= 10
      {
        MinuteInHours(r, es[i].step);
        MinutesApart(r, es[i].step, es[j].step);
        RoundKeepsGap(Minute(r, es[i].step), Minute(r, es[j].step), 0);
        if es[i].kind == Warmup && es[j].kind == Warmup {
          RoundKeepsGap(Minute(r, es[i].step), Minute(r, es[j].step), if r.minGap >= 10 then r.minGap else 10);
        }
      }
    }
  }

  lemma MinuteInHours(r: Request, step: nat)
    requires Plannable(r) && step < Steps(r)
    ensures 0.0 <= Start(r) <= Minute(r, step) < End(r)
    ensures r.startHour * 60 <= Round(Minute(r, step)) <= (r.startHour + r.hoursActive) * 60
  {
    StepsFit(r, step);
    assert step as real * Interval(r) >= 0.0;
    var hours := (r.startHour + r.hoursActive) * 60;
    assert End(r) == hours as real;
  }

  lemma GapKeptUpTo120(r: Request)
    requires r.minGap <= 120
    ensures KeepsGap(r)
  {
    if Plannable(r) {
      var es := Entries(r);
      RunInOrder(r, 0, Initial(r));
      forall i, j | 0 <= i < j < |es|
        ensures Round(Minute(r, es[j].step)) - Round(Minute(r, es[i].step)) >= r.minGap
      {
        MinuteInHours(r, es[i].step);
        MinutesApart(r, es[i].step, es[j].step);
        RoundKeepsGap(Minute(r, es[i].step), Minute(r, es[j].step), r.minGap);
      }
    }
  }

  /** Two initials and three hours: with a gap above two hours both go out in the
      deadline window, 120 minutes apart. */
  function Rush(gap: nat): Request {
    Request(2, 0, 0, gap, 3, 0)
  }

  lemma RunSends(r: Request, k: nat, s: State, kind: Kind)
    requires Plannable(r) && k < Steps(r) && CanSend(s, kind) && Pick(r, s, Minute(r, k)) == Some(kind)
    ensures Run(r, k, s) == [Entry(k, kind)] + Run(r, k + 1, Send(s, kind, Minute(r, k)))
    ensures Done(Send(s, kind, Minute(r, k))) ==> Run(r, k + 1, Send(s, kind, Minute(r, k))) == []
  {
  }

  lemma RushClock(gap: nat)
    requires gap > 120
    ensures Minute(Rush(gap), 0) == 0.0 && Minute(Rush(gap), 1) == 120.0 && Steps(Rush(gap)) > 1
  {
    var r := Rush(gap);
    assert Active(r) == 180.0 && TotalSends(r) == 2;
    assert Interval(r) == 120.0;
    StepsFit(r, 1);
  }

  lemma RushBreaksGap(gap: nat)
    requires gap > 120
    ensures !KeepsGap(Rush(gap))
  {
    var r := Rush(gap);
    RushClock(gap);
    var s0 := Initial(r);
    var s1 := Send(s0, CampaignInitial, 0.0);
    var s2 := Send(s1, CampaignInitial, 120.0);
    RunSends(r, 0, s0, CampaignInitial);
    RunSends(r, 1, s1, CampaignInitial);
    hide Run, Minute;
    assert Run(r, 2, s2) == [];
    assert Entries(r)[0] == Entry(0, CampaignInitial) && Entries(r)[1] == Entry(1, CampaignInitial);
    assert Schedule(r)[0].minuteOfDay == 0 && Schedule(r)[1].minuteOfDay == 120;
  }

  /** Requests with minimum gap `gap` always keep it exactly when it is at most
      two hours, the cap of the interval. */
  lemma GapKeptIff(gap: nat)
    ensures (forall r: Request | r.minGap == gap :: KeepsGap(r)) <==> gap <= 120
  {
    if gap <= 120 {
      forall r: Request | r.minGap == gap ensures KeepsGap(r) {
        GapKeptUpTo120(r);
      }
    } else {
      RushBreaksGap(gap);
      assert Rush(gap).minGap == gap;
    }
  }

  // ---- every step of every schedule --------------------------------------------

  /** The minute grows by an interval of at most two hours; a shorter one is at least
      the minimum gap, fits all sends, and is no longer than one of the two asks for. */
  lemma TimeLineIs(r: Request, step: nat)
    requires Plannable(r)
    ensures Minute(r, 0) == (r.startHour * 60) as real
    ensures Minute(r, step + 1) == Minute(r, step) + Interval(r)
    ensures step < Steps(r) <==> Minute(r, step) < ((r.startHour + r.hoursActive) * 60) as real
    ensures var iv, n, active := Interval(r), (r.initials + r.followUps + r.warmups) as real, (r.hoursActive * 60) as real;
            && 0.0 < iv <= 120.0
            && (iv < 120.0 ==> iv >= r.minGap as real && iv * n >= active)
            && (iv == r.minGap as real || iv * n == active
                || (iv == 120.0 && (r.minGap > 120 || active > 120.0 * n)))
  {
    FirstMinute(r);
    MinuteStep(r, step);
    StepsFit(r, step);
    assert (r.startHour + r.hoursActive) * 60 == r.startHour * 60 + r.hoursActive * 60;
    EvenFits(Active(r), TotalSends(r) as real, Interval(r));
  }

  lemma EvenFits(active: real, n: real, iv: real)
    requires n >= 1.0
    ensures iv >= active / n <==> iv * n >= active
    ensures iv == active / n <==> iv * n == active
  {
    Quotient(active, n);
    Scale(iv, active / n, n);
    Scale(active / n, iv, n);
  }

  /** The entries before a step. */
  function Upto(es: seq<Entry>, k: nat): seq<Entry> {
    if es == [] || es[|es| - 1].step < k then es else Upto(es[..|es| - 1], k)
  }

  /** How many sends of the class are still to place after these entries. */
  function LeftAfter(r: Request, before: seq<Entry>, kind: Kind): int {
    (match kind case CampaignInitial => r.initials case FollowUp => r.followUps case Warmup => r.warmups)
    - CountOf(before, kind)
  }

  /** The minute of the last entry, or the start value. */
  function LastMinute(r: Request, es: seq<Entry>): real
    requires Plannable(r)
  {
    if es == [] then -100.0 else Minute(r, es[|es| - 1].step)
  }

  function LastWarmupMinute(r: Request, es: seq<Entry>): real
    requires Plannable(r)
  {
    if es == [] then -100.0
    else if es[|es| - 1].kind == Warmup then Minute(r, es[|es| - 1].step)
    else LastWarmupMinute(r, es[..|es| - 1])
  }

  /** The state is what the entries so far have left. */
  ghost predicate Tracks(r: Request, before: seq<Entry>, s: State)
    requires Plannable(r)
  {
    && r.initials == s.initials + CountOf(before, CampaignInitial)
    && r.followUps == s.followUps + CountOf(before, FollowUp)
    && r.warmups == s.warmups + CountOf(before, Warmup)
    && s.lastCampaign == LastMinute(r, before)
    && s.lastWarmup == LastWarmupMinute(r, before)
  }

  lemma {:induction false} CountSnoc(es: seq<Entry>, e: Entry, kind: Kind)
    ensures CountOf(es + [e], kind) == CountOf(es, kind) + if e.kind == kind then 1 else 0
  {
    if es == [] {
      assert es + [e] == [e];
    } else {
      assert (es + [e])[1..] == es[1..] + [e];
      CountSnoc(es[1..], e, kind);
    }
  }

  lemma SendTracks(r: Request, before: seq<Entry>, s: State, k: nat, kind: Kind)
    requires Plannable(r) && Tracks(r, before, s) && CanSend(s, kind)
    ensures Tracks(r, before + [Entry(k, kind)], Send(s, kind, Minute(r, k)))
  {
    hide Minute;
    CountSnoc(before, Entry(k, kind), CampaignInitial);
    CountSnoc(before, Entry(k, kind), FollowUp);
    CountSnoc(before, Entry(k, kind), Warmup);
    assert (before + [Entry(k, kind)])[..|before|] == before;
  }

  lemma {:induction false} UptoFront(before: seq<Entry>, rest: seq<Entry>, k: nat)
    requires before == [] || before[|before| - 1].step < k
    requires forall i :: 0 <= i < |rest| ==> rest[i].step >= k
    ensures Upto(before + rest, k) == before
  {
    if rest == [] {
      assert before + rest == before;
    } else {
      assert (before + rest)[..|before + rest| - 1] == before + rest[..|rest| - 1];
      UptoFront(before, rest[..|rest| - 1], k);
    }
  }

  /** Which class goes out at the minute, in terms of the entries before it. */
  ghost predicate Decides(r: Request, before: seq<Entry>, minute: real, initial: bool, followUp: bool, warmup: bool)
    requires Plannable(r)
  {
    var initials, followUps := LeftAfter(r, before, CampaignInitial), LeftAfter(r, before, FollowUp);
    var clear := minute - LastMinute(r, before) >= r.minGap as real;
    var warmupDue := clear && LeftAfter(r, before, Warmup) > 0
                     && minute - LastWarmupMinute(r, before) >= r.minGap as real
                     && minute - LastWarmupMinute(r, before) >= 10.0;
    var late := minute >= ((r.startHour + r.hoursActive) * 60 - 2 * r.minGap) as real;
    && (initial <==> initials > 0 && (late || (clear && !warmupDue)))
    && (warmup <==> warmupDue && !(initials > 0 && late))
    && (followUp <==> initials == 0 && followUps > 0 && clear && !warmupDue)
  }

  /** What the schedule has at a step is what the entries before it decide. */
  ghost predicate StepIs(r: Request, es: seq<Entry>, k: nat)
    requires Plannable(r)
  {
    Decides(r, Upto(es, k), Minute(r, k), Entry(k, CampaignInitial) in es, Entry(k, FollowUp) in es, Entry(k, Warmup) in es)
  }

  ghost predicate AllBefore(es: seq<Entry>, k: nat) {
    forall i :: 0 <= i < |es| ==> es[i].step < k
  }

  lemma {:induction false} RunSteps(r: Request, n: nat, s: State, before: seq<Entry>, k: nat)
    requires Plannable(r) && Tracks(r, before, s) && n <= k < Steps(r) && AllBefore(before, n)
    ensures StepIs(r, before + Run(r, n, s), k)
    decreases k - n
  {
    hide Run, Minute, Interval, Steps, StepIs, Tracks, AllBefore;
    if n == k {
      StepNow(r, n, s, before);
    } else {
      var later, more := RunGoesOn(r, n, s, before);
      RunSteps(r, n + 1, later, more, k);
    }
  }

  lemma RunGoesOn(r: Request, n: nat, s: State, before: seq<Entry>) returns (later: State, more: seq<Entry>)
    requires Plannable(r) && Tracks(r, before, s) && n < Steps(r) && AllBefore(before, n)
    ensures Tracks(r, more, later) && AllBefore(more, n + 1)
    ensures before + Run(r, n, s) == more + Run(r, n + 1, later)
  {
    later, more := s, before;
    RunUnfolds(r, n, s);
    hide Run, Minute, Interval, Steps, Pick, Tracks;
    if Done(s) {
      DoneStays(r, n, s);
    } else if Pick(r, s, Minute(r, n)).Some? {
      var kind := Pick(r, s, Minute(r, n)).value;
      PickSends(r, s, Minute(r, n));
      SendTracks(r, before, s, n, kind);
      later, more := Send(s, kind, Minute(r, n)), before + [Entry(n, kind)];
      assert before + ([Entry(n, kind)] + Run(r, n + 1, later)) == more + Run(r, n + 1, later);
    }
  }

  lemma DoneStays(r: Request, n: nat, s: State)
    requires Plannable(r) && Done(s)
    ensures Run(r, n, s) == [] == Run(r, n + 1, s)
  {
  }

  lemma PickSends(r: Request, s: State, minute: real)
    ensures Pick(r, s, minute).Some? ==> CanSend(s, Pick(r, s, minute).value)
  {
  }

  lemma StepNow(r: Request, k: nat, s: State, before: seq<Entry>)
    requires Plannable(r) && Tracks(r, before, s) && k < Steps(r) && AllBefore(before, k)
    ensures StepIs(r, before + Run(r, k, s), k)
  {
    UptoRun(r, k, s, before);
    EmittedNow(r, k, s, before, CampaignInitial);
    EmittedNow(r, k, s, before, FollowUp);
    EmittedNow(r, k, s, before, Warmup);
    PickDecides(r, s, before, Minute(r, k));
    hide Run, Minute, Interval, Steps, Upto, Decides, Pick, Tracks, AllBefore;
  }

  lemma UptoRun(r: Request, k: nat, s: State, before: seq<Entry>)
    requires Plannable(r) && AllBefore(before, k)
    ensures Upto(before + Run(r, k, s), k) == before
  {
    RunInOrder(r, k, s);
    hide Run;
    UptoFront(before, Run(r, k, s), k);
  }

  lemma PickDecides(r: Request, s: State, before: seq<Entry>, minute: real)
    requires Plannable(r) && Tracks(r, before, s)
    ensures Decides(r, before, minute,
                    !Done(s) && Pick(r, s, minute) == Some(CampaignInitial),
                    !Done(s) && Pick(r, s, minute) == Some(FollowUp),
                    !Done(s) && Pick(r, s, minute) == Some(Warmup))
  {
    hide Minute, CountOf, LastMinute, LastWarmupMinute;
    var hours := (r.startHour + r.hoursActive) * 60;
    assert End(r) == hours as real && (hours - 2 * r.minGap) as real == hours as real - Gap(r) * 2.0;
  }

  lemma EmittedNow(r: Request, k: nat, s: State, before: seq<Entry>, kind: Kind)
    requires Plannable(r) && k < Steps(r) && AllBefore(before, k)
    ensures Entry(k, kind) in before + Run(r, k, s) <==> !Done(s) && Pick(r, s, Minute(r, k)) == Some(kind)
  {
    RunUnfolds(r, k, s);
    hide Run, Minute, Interval, Steps, Pick;
    if !Done(s) {
      match Pick(r, s, Minute(r, k)) {
        case None => RunInOrder(r, k + 1, s);
        case Some(picked) => RunInOrder(r, k + 1, Send(s, picked, Minute(r, k)));
      }
    }
  }

  /** For every plannable request and every step inside the hours: which class goes
      out, and so when none does, is decided by what the entries before it have left
      over and by when they went out. */
  lemma EveryStepIs(r: Request, k: nat)
    requires Plannable(r) && k < Steps(r)
    ensures StepIs(r, Entries(r), k)
  {
    hide Run, StepIs, Minute, Interval, Steps;
    RunSteps(r, 0, Initial(r), [], k);
    assert [] + Run(r, 0, Initial(r)) == Run(r, 0, Initial(r));
  }

  /** A step without a send has a reason for each class. */
  lemma IdleStepHasReason(r: Request, k: nat)
    requires Plannable(r) && k < Steps(r) && forall kind :: Entry(k, kind) !in Entries(r)
    ensures var before, minute := Upto(Entries(r), k), Minute(r, k);
            var crowded := minute - LastMinute(r, before) < r.minGap as real;
            var sinceWarmup := minute - LastWarmupMinute(r, before);
            && (LeftAfter(r, before, CampaignInitial) == 0
                || (crowded && minute < ((r.startHour + r.hoursActive) * 60 - 2 * r.minGap) as real))
            && (LeftAfter(r, before, FollowUp) == 0 || crowded)
            && (LeftAfter(r, before, Warmup) == 0 || crowded || sinceWarmup < r.minGap as real || sinceWarmup < 10.0)
  {
    EveryStepIs(r, k);
    LeftIsNat(r, k);
    hide Run, Minute, Interval, Steps, CountOf, Upto, LastMinute, LastWarmupMinute, Entries, LeftAfter;
    assert Entry(k, CampaignInitial) !in Entries(r) && Entry(k, FollowUp) !in Entries(r) && Entry(k, Warmup) !in Entries(r);
  }

  lemma LeftIsNat(r: Request, k: nat)
    requires Plannable(r)
    ensures forall kind :: LeftAfter(r, Upto(Entries(r), k), kind) >= 0
  {
    RunInOrder(r, 0, Initial(r));
    hide Run, Minute, Interval, Steps;
    forall kind ensures LeftAfter(r, Upto(Entries(r), k), kind) >= 0 {
      UptoCounts(Entries(r), k, kind);
      assert CountOf(Entries(r), kind) <= Left(Initial(r), kind);
    }
  }

  lemma {:induction false} UptoCounts(es: seq<Entry>, k: nat, kind: Kind)
    ensures CountOf(Upto(es, k), kind) <= CountOf(es, kind)
  {
    if es == [] || es[|es| - 1].step < k {
    } else {
      var n := |es| - 1;
      UptoCounts(es[..n], k, kind);
      CountSnoc(es[..n], es[n], kind);
      assert es == es[..n] + [es[n]];
    }
  }

  /** The answer lists the entries in their order, with the nearest whole minutes, and
      is empty when there is nothing to send or no hour to send in. */
  lemma ScheduleListsEntries(r: Request)
    ensures r.initials + r.followUps + r.warmups == 0 || r.hoursActive == 0 ==> Schedule(r) == []
    ensures Plannable(r) ==> |Schedule(r)| == |Entries(r)|
    ensures Plannable(r) ==> forall i :: 0 <= i < |Entries(r)| ==>
              && Schedule(r)[i].kind == Entries(r)[i].kind
              && -0.5 <= Schedule(r)[i].minuteOfDay as real - Minute(r, Entries(r)[i].step) <= 0.5
  {
    if Plannable(r) {
      hide Run, Minute, Interval, Steps;
      forall i | 0 <= i < |Entries(r)|
        ensures -0.5 <= Schedule(r)[i].minuteOfDay as real - Minute(r, Entries(r)[i].step) <= 0.5
      {
        RoundIsNearest(Minute(r, Entries(r)[i].step));
      }
    }
  }

  // ---- the first send ------------------------------------------------------

  /** Nothing goes out at the first minute: the gap has not passed since the start
      value of -100, and no initial is there to be rushed in the deadline window. */
  predicate LosesFirst(r: Request) {
    r.minGap > 100 + r.startHour * 60 && (r.initials == 0 || r.hoursActive * 60 > 2 * r.minGap)
  }

  function Lost(r: Request): nat {
    if LosesFirst(r) then 1 else 0
  }

  lemma FirstPick(r: Request)
    requires Plannable(r)
    ensures Minute(r, 0) == Start(r)
    ensures Pick(r, Initial(r), Minute(r, 0)).Some? <==> !LosesFirst(r)
  {
    hide Interval;
    var gap, start, active := r.minGap, r.startHour * 60, r.hoursActive * 60;
    assert Minute(r, 0) == Start(r);
    assert Start(r) + 100.0 >= Gap(r) <==> gap <= 100 + start;
    assert InDeadline(r, Start(r)) <==> active <= 2 * gap;
  }

  /** The day starts with a send exactly when the gap is at most 100 minutes plus
      the start minute, or an initial is rushed out. */
  lemma FirstSendIff(r: Request)
    requires Plannable(r)
    ensures Entries(r) != [] && Entries(r)[0].step == 0
            <==> r.minGap <= 100 + r.startHour * 60 || (r.initials > 0 && r.hoursActive * 60 <= 2 * r.minGap)
  {
    FirstPick(r);
    hide Pick, Minute, Interval, Steps;
    if LosesFirst(r) {
      RunInOrder(r, 1, Initial(r));
      assert Entries(r) == Run(r, 1, Initial(r));
    } else {
      var kind := Pick(r, Initial(r), Minute(r, 0)).value;
      assert Entries(r) == [Entry(0, kind)] + Run(r, 1, Send(Initial(r), kind, Minute(r, 0)));
    }
  }

  // ---- the whole schedule in closed form ---------------------------------

  /** The interval clears both gaps, as far as the request needs them. */
  predicate Steady(r: Request) {
    && Plannable(r)
    && r.minGap <= 120
    && (r.warmups == 0 || r.minGap >= 10 || r.hoursActive * 60 >= 10 * TotalSends(r))
  }

  /** How many steps come before the deadline window. */
  function Early(r: Request): nat
    requires Plannable(r)
  {
    var n := Ceiling((Active(r) - Gap(r) * 2.0) / Interval(r));
    if n < 0 then 0 else n
  }

  /** How many sends come before the deadline window. */
  function EarlySends(r: Request): nat
    requires Plannable(r)
  {
    if Early(r) >= Lost(r) then Early(r) - Lost(r) else 0
  }

  /** The class of send number `k`: warm-ups, then initials, then follow-ups
      before the deadline window, and inside it the initials come first. */
  function KindAt(r: Request, k: nat): Kind
    requires Plannable(r)
  {
    var d, w, c := EarlySends(r), r.warmups, r.initials;
    if k < d then
      if k < w then Warmup else if k < w + c then CampaignInitial else FollowUp
    else
      var w1, c1 := w - Min(w, d), c - Min(c, d - Min(w, d));
      if k - d < c1 then CampaignInitial else if k - d < c1 + w1 then Warmup else FollowUp
  }

  /** The counts that go with `KindAt`: what is left after `k` sends. */
  function LeftAt(r: Request, k: nat, kind: Kind): int
    requires Plannable(r)
  {
    var d, w, c := Min(k, EarlySends(r)), r.warmups, r.initials;
    var w1, c1 := w - Min(w, d), c - Min(c, d - Min(w, d));
    var c2 := c1 - Min(c1, k - d);
    var w2 := w1 - Min(w1, k - d - Min(c1, k - d));
    match kind
    case CampaignInitial => c2
    case Warmup => w2
    case FollowUp => TotalSends(r) - k - c2 - w2
  }

  lemma EarlyFit(r: Request, step: nat)
    requires Plannable(r)
    ensures step < Early(r) <==> !InDeadline(r, Minute(r, step))
  {
    CeilingFits(Active(r) - Gap(r) * 2.0, Interval(r), step);
    hide Interval;
    assert End(r) == Start(r) + Active(r);
  }

  lemma CeilingFits(room: real, iv: real, step: nat)
    requires iv > 0.0
    ensures step < Ceiling(room / iv) <==> step as real * iv < room
  {
    var q := room / iv;
    Quotient(room, iv);
    Scale(step as real, q, iv);
    CeilingAbove(q, step);
  }

  lemma CeilingAbove(q: real, step: nat)
    ensures step < Ceiling(q) <==> step as real < q
  {
  }

  lemma SteadyInterval(r: Request)
    requires Steady(r)
    ensures Interval(r) >= Gap(r)
    ensures r.warmups > 0 ==> Interval(r) >= WarmupGap(r)
  {
    if r.warmups > 0 && r.minGap < 10 {
      EvenAtLeast(Active(r), TotalSends(r), 10.0);
    }
  }

  lemma EvenAtLeast(active: real, total: nat, each: real)
    requires total > 0 && active >= each * total as real
    ensures active / total as real >= each
  {
    Quotient(active, total as real);
    Scale(active / total as real, each, total as real);
  }

  /** The gaps that the request needs have passed. */
  ghost predicate Clear(r: Request, k: nat, s: State)
    requires Plannable(r)
  {
    && Minute(r, k) - s.lastCampaign >= Gap(r)
    && (r.warmups > 0 ==> Minute(r, k) - s.lastWarmup >= WarmupGap(r))
  }

  /** The state the source is in before send number `k` of a steady run. */
  ghost predicate OnPlan(r: Request, k: nat, s: State)
    requires Plannable(r)
  {
    && (forall kind :: Left(s, kind) == LeftAt(r, k, kind))
    && if k == 0 then s == Initial(r) else Clear(r, k + Lost(r), s)
  }

  /** At the first step that is not lost the gaps have passed since the start
      value, or an initial is rushed out. */
  lemma FirstIsClear(r: Request)
    requires Steady(r)
    ensures Clear(r, Lost(r), Initial(r)) || (InDeadline(r, Minute(r, Lost(r))) && r.initials > 0)
  {
    FirstPick(r);
    MinuteStep(r, 0);
    hide Minute, Interval;
    assert Start(r) >= 0.0;
    if !LosesFirst(r) && r.minGap <= 100 + r.startHour * 60 {
      assert Start(r) + 100.0 >= Gap(r);
    } else if !LosesFirst(r) {
      assert r.hoursActive * 60 <= 2 * r.minGap;
    }
  }

  lemma SteadyPick(r: Request, k: nat, s: State)
    requires Steady(r) && k < TotalSends(r) && OnPlan(r, k, s)
    ensures Pick(r, s, Minute(r, k + Lost(r))) == Some(KindAt(r, k))
    ensures CanSend(s, KindAt(r, k))
  {
    EarlyFit(r, k + Lost(r));
    FirstIsClear(r);
    hide Minute, Early, Interval, LosesFirst;
    assert Left(s, CampaignInitial) == LeftAt(r, k, CampaignInitial);
    assert Left(s, Warmup) == LeftAt(r, k, Warmup);
    assert Left(s, FollowUp) == LeftAt(r, k, FollowUp);
  }

  lemma SteadyStep(r: Request, k: nat, s: State)
    requires Steady(r) && k < TotalSends(r) && OnPlan(r, k, s)
    requires CanSend(s, KindAt(r, k))
    ensures OnPlan(r, k + 1, Send(s, KindAt(r, k), Minute(r, k + Lost(r))))
  {
    var step, kind := k + Lost(r), KindAt(r, k);
    var next := Send(s, kind, Minute(r, step));
    MinuteStep(r, step);
    SteadyInterval(r);
    StartPassed(r, step);
    assert Clear(r, step + 1, next) by {
      hide Minute, KindAt, LeftAt, Interval, LosesFirst;
    }
    forall other ensures Left(next, other) == LeftAt(r, k + 1, other) {
      assert Left(s, other) == LeftAt(r, k, other);
      LeftStep(r, k, other);
    }
  }

  lemma StartPassed(r: Request, step: nat)
    requires Plannable(r)
    ensures Minute(r, step) >= 0.0
  {
    assert step as real * Interval(r) >= 0.0;
  }

  lemma LeftStep(r: Request, k: nat, kind: Kind)
    requires Plannable(r) && k < TotalSends(r)
    ensures LeftAt(r, k + 1, kind) == LeftAt(r, k, kind) - if KindAt(r, k) == kind then 1 else 0
  {
    hide EarlySends;
  }

  lemma AllSentIff(r: Request, k: nat, s: State)
    requires Plannable(r) && k <= TotalSends(r) && OnPlan(r, k, s)
    ensures Done(s) <==> k == TotalSends(r)
  {
    hide EarlySends, Minute;
    assert Left(s, CampaignInitial) == LeftAt(r, k, CampaignInitial);
    assert Left(s, Warmup) == LeftAt(r, k, Warmup);
    assert Left(s, FollowUp) == LeftAt(r, k, FollowUp);
  }

  /** How many sends a steady request gets out. */
  function Placed(r: Request): nat
    requires Plannable(r)
  {
    Min(TotalSends(r), Steps(r) - Lost(r))
  }

  lemma PlacedFits(r: Request, k: nat)
    requires Plannable(r)
    ensures k < Placed(r) <==> k < TotalSends(r) && k + Lost(r) < Steps(r)
  {
  }

  /** The slots from send number `k` on when every step gets one. */
  function PlanFrom(r: Request, k: nat): seq<Entry>
    requires Plannable(r)
    decreases TotalSends(r) - k
  {
    if k >= Placed(r) then [] else [Entry(k + Lost(r), KindAt(r, k))] + PlanFrom(r, k + 1)
  }

  lemma {:induction false} PlanEntries(r: Request, k: nat)
    requires Plannable(r) && k <= Placed(r)
    ensures |PlanFrom(r, k)| == Placed(r) - k
    ensures forall i :: 0 <= i < |PlanFrom(r, k)| ==> PlanFrom(r, k)[i] == Entry(k + i + Lost(r), KindAt(r, k + i))
    decreases TotalSends(r) - k
  {
    hide KindAt, Steps, Lost;
    if k < Placed(r) {
      PlanEntries(r, k + 1);
    }
  }

  lemma {:induction false} SteadyRun(r: Request, k: nat, s: State)
    requires Steady(r) && k <= Placed(r) && OnPlan(r, k, s)
    ensures Run(r, k + Lost(r), s) == PlanFrom(r, k)
    decreases TotalSends(r) - k
  {
    AllSentIff(r, k, s);
    PlacedFits(r, k);
    hide KindAt, LeftAt, Steps, Pick, Minute, Interval, Steady, Lost, OnPlan, Placed, Done, Send, Run;
    if k < Placed(r) {
      var step, kind := k + Lost(r), KindAt(r, k);
      SteadyPick(r, k, s);
      SteadyStep(r, k, s);
      RunSends(r, step, s, kind);
      SteadyRun(r, k + 1, Send(s, kind, Minute(r, step)));
    } else {
      RunEnds(r, k + Lost(r), s);
    }
  }

  lemma StartIsOnPlan(r: Request)
    requires Plannable(r)
    ensures OnPlan(r, 0, Initial(r))
  {
    hide EarlySends;
  }

  lemma RunFromFirst(r: Request)
    requires Plannable(r)
    ensures Entries(r) == Run(r, Lost(r), Initial(r))
  {
    FirstPick(r);
    hide Pick, Minute, Interval, Steps;
  }

  lemma RunEnds(r: Request, k: nat, s: State)
    requires Plannable(r) && (k >= Steps(r) || Done(s))
    ensures Run(r, k, s) == []
  {
  }

  /** A steady request gets one slot at every step, from the first one that is not
      lost until the sends or the hours run out, and the class of every slot is the
      one `KindAt` names. */
  lemma SteadyScheduleIs(r: Request)
    requires Steady(r)
    ensures |Schedule(r)| == Placed(r)
    ensures forall k :: 0 <= k < |Schedule(r)| ==> Schedule(r)[k] == Slot(Round(Minute(r, k + Lost(r))), KindAt(r, k))
  {
    StartIsOnPlan(r);
    RunFromFirst(r);
    hide Interval, Steps, KindAt, LeftAt, Pick, Minute, Run, Lost, Placed, OnPlan, PlanFrom;
    SteadyRun(r, 0, Initial(r));
    PlanEntries(r, 0);
  }

  /** So a steady request gets all its sends exactly when the last one still
      falls inside the active hours. */
  lemma SteadySchedulesAllIff(r: Request)
    requires Steady(r)
    ensures |Schedule(r)| == TotalSends(r) <==> Minute(r, TotalSends(r) - 1 + Lost(r)) < End(r)
  {
    SteadyScheduleIs(r);
    hide Schedule, Interval, Minute, Steps, Steady, LosesFirst;
    StepsFit(r, TotalSends(r) - 1 + Lost(r));
  }

  /** In particular, when the hours hold the minimum gap once for every send, every
      class gets all it asked for exactly when the first step is not lost, or two
      hours for each send leave a step to spare. */
  lemma RoomForAllSchedulesAllIff(r: Request)
    requires Steady(r) && Even(r) >= Gap(r)
    ensures |Schedule(r)| == TotalSends(r) <==> !LosesFirst(r) || Even(r) > 120.0
    ensures (forall kind :: CountOf(Entries(r), kind) == Left(Initial(r), kind)) <==> !LosesFirst(r) || Even(r) > 120.0
  {
    LastMinuteFits(r);
    SteadySchedulesAllIff(r);
    hide Interval, Minute, Steps, Steady, Run, Even;
    RunInOrder(r, 0, Initial(r));
    CountsAddUp(Entries(r));
    assert CountOf(Entries(r), CampaignInitial) <= Left(Initial(r), CampaignInitial) == r.initials;
    assert CountOf(Entries(r), FollowUp) <= Left(Initial(r), FollowUp) == r.followUps;
    assert CountOf(Entries(r), Warmup) <= Left(Initial(r), Warmup) == r.warmups;
    forall kind | |Schedule(r)| == TotalSends(r) ensures CountOf(Entries(r), kind) == Left(Initial(r), kind) {
      match kind
      case CampaignInitial =>
      case FollowUp =>
      case Warmup =>
    }
  }

  lemma LastMinuteFits(r: Request)
    requires Plannable(r) && Even(r) >= Gap(r)
    ensures Minute(r, TotalSends(r) - 1) < End(r)
    ensures Minute(r, TotalSends(r)) < End(r) <==> Even(r) > 120.0
  {
    LastOneFits(Active(r), TotalSends(r) as real, Interval(r));
    assert (TotalSends(r) - 1) as real == TotalSends(r) as real - 1.0;
  }

  lemma LastOneFits(active: real, n: real, iv: real)
    requires n >= 1.0 && 0.0 < iv <= active / n
    ensures (n - 1.0) * iv < active
    ensures n * iv < active <==> iv < active / n
  {
    Quotient(active, n);
    OneMore(n - 1.0, iv);
    Scale(iv, active / n, n);
    Scale(active / n, iv, n);
    Swap(n, iv);
  }

  lemma Swap(x: real, y: real)
    ensures x * y == y * x
  {
  }

  lemma {:induction false} CountsAddUp(entries: seq<Entry>)
    ensures CountOf(entries, CampaignInitial) + CountOf(entries, FollowUp) + CountOf(entries, Warmup) == |entries|
  {
    if entries == [] {
    } else {
      CountsAddUp(entries[1..]);
    }
  }
}
