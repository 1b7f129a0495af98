/**
 `redistribute` of rust-email-sender/src/scheduler.rs: hand unassigned initial
 sends to the mailboxes that still have room today, and carry the rest over.
 */
module Redistribute {
  import opened Common
  import opened EvenSplit
  import opened M = Mailboxes

  type Mailbox = M.Mailbox<()>
  type Assignment = M.Assignment<()>
  datatype Request = Request(mailboxes: seq<Mailbox>, unassignedCount: nat, isFollowUp: bool)
  datatype Response = Response(assignments: seq<Assignment>, carryOver: nat)

  /** What is handed out, without the running clamp of the source. */
  function Given(ms: seq<Mailbox>, total: nat): seq<nat> {
    Split(Spares(WithCapacity(ms)), Min(total, Sum(Spares(ms))))
  }

  lemma {:induction false} SparesOfOpen(ms: seq<Mailbox>)
    ensures Sum(Spares(WithCapacity(ms))) == Sum(Spares(ms))
  {
    if ms == [] {
    } else {
      var n := |ms| - 1;
      SparesOfOpen(ms[..n]);
      assert Spares(ms)[..n] == Spares(ms[..n]);
      var open := WithCapacity(ms[..n]);
      assert WithCapacity(ms) == open + if Spare(ms[n]) > 0 then [ms[n]] else [];
      assert Spares(open + [ms[n]])[..|open|] == Spares(open);
      assert open + [] == open;
    }
  }

  lemma GivenFits(ms: seq<Mailbox>, total: nat)
    ensures Sum(Given(ms, total)) <= Min(total, Sum(Spares(ms)))
  {
    SparesOfOpen(ms);
    if WithCapacity(ms) != [] {
      SplitIsExactIffSharesFit(Spares(WithCapacity(ms)), Min(total, Sum(Spares(ms))));
    }
  }

  lemma GivenAt(ms: seq<Mailbox>, total: nat, i: nat)
    requires i < |WithCapacity(ms)|
    ensures Given(ms, total)[i] == Min(Share(Min(total, Sum(Spares(ms))), |WithCapacity(ms)|, i), Spare(WithCapacity(ms)[i]))
    ensures Listing(WithCapacity(ms)[..i + 1], Given(ms, total)[..i + 1], ())
            == Listing(WithCapacity(ms)[..i], Given(ms, total)[..i], ())
               + if Given(ms, total)[i] > 0 then [M.Assignment(WithCapacity(ms)[i].id, Given(ms, total)[i], ())] else []
    ensures Sum(Given(ms, total)[..i]) + Given(ms, total)[i] == Sum(Given(ms, total)[..i + 1])
    ensures Sum(Given(ms, total)[..i + 1]) <= Min(total, Sum(Spares(ms)))
  {
    GivenFits(ms, total);
    var open, given := WithCapacity(ms), Given(ms, total);
    SumPrefix(given, i);
    assert open[..i + 1][..i] == open[..i] && given[..i + 1][..i] == given[..i];
  }

  /** The response of the source, stated without its running clamp: what is not
      handed out is carried over. */
  function Outcome(req: Request): Response {
    var ms, total := req.mailboxes, req.unassignedCount;
    if Sum(Spares(ms)) == 0 || req.isFollowUp then Response([], total)
    else
      GivenFits(ms, total);
      Response(Listing(WithCapacity(ms), Given(ms, total), ()), total - Sum(Given(ms, total)))
  }

  lemma NothingListed(open: seq<Mailbox>, given: seq<nat>)
    requires |open| == |given|
    ensures Sum(given[..0]) == 0 && Listing(open[..0], given[..0], ()) == []
  {
  }

  lemma AllListed(req: Request)
    requires Sum(Spares(req.mailboxes)) > 0 && !req.isFollowUp
    ensures var open, given := WithCapacity(req.mailboxes), Given(req.mailboxes, req.unassignedCount);
            && |open| == |given|
            && Outcome(req).assignments == Listing(open[..|open|], given[..|open|], ())
            && Outcome(req).carryOver + Sum(given[..|open|]) == req.unassignedCount
  {
    var open, given := WithCapacity(req.mailboxes), Given(req.mailboxes, req.unassignedCount);
    assert open[..|open|] == open && given[..|open|] == given;
    hide WithCapacity, Given, Spares, Sum, Listing;
  }

  /** The loop keeps a running `remaining_assignable` and clamps every part by
      it; the clamp never changes the response. */
  method Redistribute(req: Request) returns (res: Response)
    ensures res == Outcome(req)
  {
    hide WithCapacity;
    var totalCapacity := Sum(Spares(req.mailboxes));
    if totalCapacity == 0 {
      return Response([], req.unassignedCount);
    }
    if req.isFollowUp {
      return Response([], req.unassignedCount);
    }
    var total := req.unassignedCount;
    var assignable := Min(total, totalCapacity);
    var carryOver := if total > totalCapacity then total - totalCapacity else 0;
    var remainingAssignable: nat := assignable;
    var open := WithCapacity(req.mailboxes);
    var perMailbox := if open == [] then 0 else assignable / |open|;
    var remainder := if open == [] then 0 else assignable % |open|;
    var assignments := [];

    ghost var given := Given(req.mailboxes, total);
    NothingListed(open, given);
    hide Given, Listing, Sum, Spares, Outcome;
    for i := 0 to |open|
      invariant remainingAssignable + Sum(given[..i]) == assignable
      invariant assignments == Listing(open[..i], given[..i], ())
    {
      GivenAt(req.mailboxes, total, i);
      var share := if i < remainder then perMailbox + 1 else perMailbox;
      var actual := Min(Min(share, Spare(open[i])), remainingAssignable);
      if actual > 0 {
        assignments := assignments + [M.Assignment(open[i].id, actual, ())];
        remainingAssignable := remainingAssignable - actual;
      }
      assert actual == given[i];
    }
    AllListed(req);
    res := Response(assignments, carryOver + remainingAssignable);
  }

  // ---- one call --------------------------------------------------------

  lemma ReceivedFits(ms: seq<Mailbox>, total: nat, m: Mailbox)
    requires DistinctIds(ms) && m in ms
    ensures Received(Listing(WithCapacity(ms), Given(ms, total), ()), m.id) <= Spare(m)
  {
    var open, given := WithCapacity(ms), Given(ms, total);
    OpenMembers(ms);
    hide WithCapacity, Listing, Received;
    if i :| 0 <= i < |open| && open[i].id == m.id {
      assert open[i] in ms;
      ListingReceived(open, given, (), m.id, i);
    } else {
      ListingAbsent(open, given, (), m.id);
    }
  }

  /** Nothing is lost on any path, and no mailbox is pushed past its daily cap. */
  lemma OutcomeConserves(req: Request)
    ensures Total(Outcome(req).assignments) + Outcome(req).carryOver == req.unassignedCount
    ensures DistinctIds(req.mailboxes) ==>
              forall m :: m in req.mailboxes ==> Received(Outcome(req).assignments, m.id) <= Spare(m)
  {
    var ms, total := req.mailboxes, req.unassignedCount;
    ListingTotal(WithCapacity(ms), Given(ms, total), ());
    if DistinctIds(ms) {
      forall m | m in ms ensures Received(Outcome(req).assignments, m.id) <= Spare(m) {
        hide WithCapacity, Given, Listing;
        ReceivedFits(ms, total, m);
      }
    }
  }

  lemma {:induction false} OpenIsKept(ms: seq<Mailbox>, targets: set<nat>)
    requires forall i :: 0 <= i < |ms| ==> (i in targets <==> ms[i].sentToday < ms[i].dailyCap)
    ensures WithCapacity(ms) == Kept(ms, targets)
  {
    if ms == [] {
    } else {
      OpenIsKept(ms[..|ms| - 1], targets);
    }
  }

  /** What every mailbox gets: follow-ups move nobody, and initial sends are spread
      over all mailboxes with room in the order of the request. */
  lemma EveryMailboxGets(req: Request, i: nat)
    requires DistinctIds(req.mailboxes) && i < |req.mailboxes|
    ensures Received(Outcome(req).assignments, req.mailboxes[i].id)
            == if req.isFollowUp then 0
               else Part(req.mailboxes, Targets(req.mailboxes, m => true),
                         Min(req.unassignedCount, Sum(Spares(req.mailboxes))), i)
  {
    var ms, targets := req.mailboxes, Targets(req.mailboxes, m => true);
    var count := Min(req.unassignedCount, Sum(Spares(ms)));
    OpenIsKept(ms, targets);
    SplitGivesParts(ms, targets, count, (), i);
    if Sum(Spares(ms)) == 0 {
      hide Part;
      OpenHasRoom(ms);
      NoTargets(ms, targets, count, i);
    }
  }

  lemma NoTargets(ms: seq<Mailbox>, targets: set<nat>, count: nat, i: nat)
    requires i < |ms| && WithCapacity(ms) == []
    ensures Part(ms, targets, count, i) == 0
  {
    OpenMembers(ms);
    assert ms[i] !in WithCapacity(ms);
  }

  /** Nothing moves exactly for a follow-up, for nothing to move, and for nobody with
      room; then all of it is carried over. */
  lemma NothingMovesIff(req: Request)
    ensures Outcome(req).assignments == [] <==>
            req.isFollowUp || req.unassignedCount == 0 || forall m :: m in req.mailboxes ==> m.sentToday >= m.dailyCap
    ensures req.isFollowUp ==> Outcome(req) == Response([], req.unassignedCount)
  {
    var ms, total := req.mailboxes, req.unassignedCount;
    var open, given := WithCapacity(ms), Given(ms, total);
    OpenMembers(ms);
    OpenHasRoom(ms);
    if open == [] {
    } else if total == 0 {
      ListingTotal(open, given, ());
      GivenFits(ms, total);
      NoAssignments(open, given);
    } else {
      assert open[0] in ms && open[0] in open;
      hide WithCapacity;
      FirstGets(ms, total);
      ListingTotal(open, given, ());
      assert Total<()>([]) == 0;
    }
  }

  lemma FirstGets(ms: seq<Mailbox>, total: nat)
    requires total > 0 && WithCapacity(ms) != []
    ensures Sum(Given(ms, total)) > 0
  {
    OpenMembers(ms);
    OpenHasRoom(ms);
    assert WithCapacity(ms)[0] in WithCapacity(ms);
    hide WithCapacity, Spares;
    GivenAt(ms, total, 0);
    SumPrefix(Given(ms, total), 0);
    SomethingFirst(Min(total, Sum(Spares(ms))), |WithCapacity(ms)|);
  }

  lemma SomethingFirst(total: nat, n: nat)
    requires total > 0 && n > 0
    ensures Share(total, n, 0) > 0
  {
    assert total == n * (total / n) + total % n;
  }

  lemma {:induction false} NoAssignments(open: seq<Mailbox>, given: seq<nat>)
    requires |open| == |given| && Sum(given) == 0
    ensures Listing(open, given, ()) == []
  {
    if open == [] {
    } else {
      NoAssignments(open[..|open| - 1], given[..|open| - 1]);
    }
  }

  // ---- repeated calls --------------------------------------------------

  /** The caller's bookkeeping between two calls: what was handed out counts as sent. */
  function Record(ms: seq<Mailbox>, handed: seq<Assignment>): seq<Mailbox> {
    seq(|ms|, i requires 0 <= i < |ms| => ms[i].(sentToday := ms[i].sentToday + Received(handed, ms[i].id)))
  }

  /** The mailboxes after one call for initial sends. */
  function AfterCall(ms: seq<Mailbox>, total: nat): seq<Mailbox> {
    Record(ms, Outcome(Request(ms, total, false)).assignments)
  }

  /** What one call for initial sends carries over. */
  function Carry(ms: seq<Mailbox>, total: nat): nat {
    Outcome(Request(ms, total, false)).carryOver
  }

  /** What is still unassigned after `k` calls, each one fed with the carry of the last. */
  function CarryAfter(k: nat, ms: seq<Mailbox>, total: nat): nat {
    if k == 0 then total else CarryAfter(k - 1, AfterCall(ms, total), Carry(ms, total))
  }

  /** What no allocator could place. */
  function Excess(ms: seq<Mailbox>, total: nat): nat {
    if total > Sum(Spares(ms)) then total - Sum(Spares(ms)) else 0
  }

  lemma {:induction false} ReceivedSum(ms: seq<Mailbox>, handed: seq<Assignment>)
    requires DistinctIds(ms)
    requires forall a :: a in handed ==> exists m :: m in ms && m.id == a.mailboxId
    ensures Sum(seq(|ms|, i requires 0 <= i < |ms| => Received(handed, ms[i].id))) == Total(handed)
  {
    var parts := seq(|ms|, i requires 0 <= i < |ms| => Received(handed, ms[i].id));
    if handed == [] {
      AllZero(parts);
    } else {
      var n := |handed| - 1;
      forall a | a in handed[..n] ensures exists m :: m in ms && m.id == a.mailboxId {
        assert a in handed;
      }
      ReceivedSum(ms, handed[..n]);
      var before := seq(|ms|, i requires 0 <= i < |ms| => Received(handed[..n], ms[i].id));
      assert handed[n] in handed;
      var j :| 0 <= j < |ms| && ms[j].id == handed[n].mailboxId;
      assert parts == before[j := before[j] + handed[n].count];
      SumUpdate(before, j, before[j] + handed[n].count);
    }
  }

  lemma {:induction false} ListingIds(open: seq<Mailbox>, given: seq<nat>)
    requires |open| == |given|
    ensures forall a :: a in Listing(open, given, ()) ==> exists m :: m in open && m.id == a.mailboxId
  {
    if open == [] {
    } else {
      var n := |open| - 1;
      ListingIds(open[..n], given[..n]);
      forall a | a in Listing(open, given, ()) ensures exists m :: m in open && m.id == a.mailboxId {
        if a !in Listing(open[..n], given[..n], ()) {
          assert open[n] in open && open[n].id == a.mailboxId;
        }
      }
    }
  }

  /** One call takes from every mailbox exactly what it assigns to it, so the
      excess over the total room does not change. */
  lemma CallKeepsExcess(ms: seq<Mailbox>, total: nat)
    requires DistinctIds(ms)
    ensures DistinctIds(AfterCall(ms, total)) && |AfterCall(ms, total)| == |ms|
    ensures forall i :: 0 <= i < |ms| ==>
              Spare(AfterCall(ms, total)[i])
              == Spare(ms[i]) - Received(Outcome(Request(ms, total, false)).assignments, ms[i].id)
    ensures Carry(ms, total) - Sum(Spares(AfterCall(ms, total))) == total - Sum(Spares(ms))
  {
    var handed := Outcome(Request(ms, total, false)).assignments;
    OutcomeConserves(Request(ms, total, false));
    HandedIds(ms, total);
    ReceivedSum(ms, handed);
    hide Outcome, Received;
    forall i | 0 <= i < |ms| ensures Spare(AfterCall(ms, total)[i]) == Spare(ms[i]) - Received(handed, ms[i].id) {
      assert ms[i] in ms;
    }
    var parts := seq(|ms|, i requires 0 <= i < |ms| => Received(handed, ms[i].id));
    SumAdd(Spares(AfterCall(ms, total)), parts, Spares(ms));
  }

  lemma HandedIds(ms: seq<Mailbox>, total: nat)
    ensures forall a :: a in Outcome(Request(ms, total, false)).assignments ==> exists m :: m in ms && m.id == a.mailboxId
  {
    ListingIds(WithCapacity(ms), Given(ms, total));
    OpenMembers(ms);
  }

  /** A call that leaves more than the excess fills some mailbox completely. */
  lemma UnfinishedCallFillsAMailbox(ms: seq<Mailbox>, total: nat)
    requires DistinctIds(ms)
    requires Carry(ms, total) > Excess(ms, total)
    ensures exists i :: 0 <= i < |ms| && Spare(ms[i]) > 0 && Spare(AfterCall(ms, total)[i]) == 0
  {
    var open, assignable := WithCapacity(ms), Min(total, Sum(Spares(ms)));
    SparesOfOpen(ms);
    SplitIsExactIffSharesFit(Spares(open), assignable);
    var j :| 0 <= j < |open| && Share(assignable, |open|, j) > Spares(open)[j];
    OpenMembers(ms);
    ListingReceived(open, Given(ms, total), (), open[j].id, j);
    CallKeepsExcess(ms, total);
    assert open[j] in open;
    var i :| 0 <= i < |ms| && ms[i] == open[j];
  }

  lemma {:induction false} OpenCount(ms: seq<Mailbox>, later: seq<Mailbox>)
    requires |ms| == |later| && forall i :: 0 <= i < |ms| ==> Spare(later[i]) <= Spare(ms[i])
    ensures |WithCapacity(later)| <= |WithCapacity(ms)|
    ensures (exists i :: 0 <= i < |ms| && Spare(ms[i]) > 0 && Spare(later[i]) == 0) ==>
              |WithCapacity(later)| < |WithCapacity(ms)|
  {
    if ms == [] {
    } else {
      var n := |ms| - 1;
      OpenCount(ms[..n], later[..n]);
      assert |WithCapacity(ms)| == |WithCapacity(ms[..n])| + if Spare(ms[n]) > 0 then 1 else 0;
      assert |WithCapacity(later)| == |WithCapacity(later[..n])| + if Spare(later[n]) > 0 then 1 else 0;
    }
  }

  lemma {:induction false} CarryNeverGrows(k: nat, ms: seq<Mailbox>, total: nat)
    ensures CarryAfter(k, ms, total) <= total
  {
    if k == 0 {
    } else {
      OutcomeConserves(Request(ms, total, false));
      CarryNeverGrows(k - 1, AfterCall(ms, total), Carry(ms, total));
    }
  }

  lemma {:induction false} OpenHasRoom(ms: seq<Mailbox>)
    ensures |WithCapacity(ms)| <= Sum(Spares(ms))
  {
    if ms == [] {
    } else {
      var n := |ms| - 1;
      OpenHasRoom(ms[..n]);
      assert Spares(ms)[..n] == Spares(ms[..n]);
    }
  }

  /** After a call either nothing is left, or nobody has room, or fewer mailboxes have. */
  lemma CallProgresses(ms: seq<Mailbox>, total: nat)
    requires DistinctIds(ms)
    ensures DistinctIds(AfterCall(ms, total))
    ensures Excess(AfterCall(ms, total), Carry(ms, total)) == Excess(ms, total)
    ensures Carry(ms, total) == 0
            || WithCapacity(AfterCall(ms, total)) == []
            || |WithCapacity(AfterCall(ms, total))| < |WithCapacity(ms)|
  {
    CallKeepsExcess(ms, total);
    if Carry(ms, total) > Excess(ms, total) {
      UnfinishedCallFillsAMailbox(ms, total);
      OpenCount(ms, AfterCall(ms, total));
    } else {
      OpenHasRoom(AfterCall(ms, total));
    }
  }

  /** Feeding the carry back reaches the excess, which is the least any
      allocation can leave, in at most as many calls as there are mailboxes
      with spare capacity. */
  lemma {:induction false} RoundsConverge(k: nat, ms: seq<Mailbox>, total: nat)
    requires DistinctIds(ms)
    requires |WithCapacity(ms)| <= k
    ensures CarryAfter(k, ms, total) == Excess(ms, total)
    decreases k
  {
    if k == 0 {
      SparesOfOpen(ms);
    } else {
      CallProgresses(ms, total);
      if Carry(ms, total) == 0 {
        CarryNeverGrows(k - 1, AfterCall(ms, total), 0);
      } else {
        RoundsConverge(k - 1, AfterCall(ms, total), Carry(ms, total));
      }
    }
  }

  /** One call is already as good as it gets exactly when no even share is
      larger than the room of the mailbox it falls to. */
  lemma OneCallSufficesIff(ms: seq<Mailbox>, total: nat)
    ensures Carry(ms, total) == Excess(ms, total) <==>
            forall i :: 0 <= i < |WithCapacity(ms)| ==>
              Share(Min(total, Sum(Spares(ms))), |WithCapacity(ms)|, i) <= Spare(WithCapacity(ms)[i])
  {
    var open, assignable := WithCapacity(ms), Min(total, Sum(Spares(ms)));
    SparesOfOpen(ms);
    if open == [] {
    } else {
      SplitIsExactIffSharesFit(Spares(open), assignable);
      SumPrefix(Spares(open), 0);
      assert forall i :: 0 <= i < |open| ==> Spares(open)[i] == Spare(open[i]);
    }
  }

  /** Ten sends over mailboxes with room for one and nine: they fit, and yet
      the first call leaves four behind. */
  lemma OneCallMayNotSuffice()
    ensures var ms := [M.Mailbox("a", 1, 0, ()), M.Mailbox("b", 9, 0, ())];
            Excess(ms, 10) == 0 && Carry(ms, 10) == 4 && CarryAfter(2, ms, 10) == 0
  {
    var ms := [M.Mailbox("a", 1, 0, ()), M.Mailbox("b", 9, 0, ())];
    assert ms[..1] == [ms[0]] && ms[..1][..0] == [];
    assert WithCapacity(ms[..1]) == [ms[0]];
    assert WithCapacity(ms) == ms;
    assert Spares(ms) == [1, 9];
    assert [1, 9][..1] == [1];
    assert Sum([1]) == 1 && Sum([1, 9]) == 10;
    assert Given(ms, 10) == [1, 5];
    assert [1, 5][..1] == [1];
    assert Sum([1, 5]) == 6;
    RoundsConverge(2, ms, 10);
  }
}
