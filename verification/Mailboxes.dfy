/**
 What both allocators of scheduler.rs know of mailboxes: their room for today,
 and the list of what each one is handed.

 The two requests describe mailboxes and assignments with different extra
 fields, `info` and `tag` here.
 */
module Mailboxes {
  import opened Common
  import opened EvenSplit

  datatype Mailbox<T> = Mailbox(id: string, dailyCap: nat, sentToday: nat, info: T)
  datatype Assignment<T> = Assignment(mailboxId: string, count: nat, tag: T)

  /** `daily_cap.saturating_sub(sent_today)`. */
  function Spare<T>(m: Mailbox<T>): nat {
    if m.sentToday < m.dailyCap then m.dailyCap - m.sentToday else 0
  }

  function Spares<T>(ms: seq<Mailbox<T>>): seq<nat> {
    seq(|ms|, i requires 0 <= i < |ms| => Spare(ms[i]))
  }

  function WithCapacity<T>(ms: seq<Mailbox<T>>): seq<Mailbox<T>> {
    if ms == [] then []
    else
      var m := ms[|ms| - 1];
      WithCapacity(ms[..|ms| - 1]) + if m.sentToday < m.dailyCap then [m] else []
  }

  /** One assignment for each mailbox that gets anything. */
  function Listing<M, T>(open: seq<Mailbox<M>>, given: seq<nat>, tag: T): seq<Assignment<T>>
    requires |open| == |given|
  {
    if open == [] then []
    else
      var n := |open| - 1;
      Listing(open[..n], given[..n], tag) + if given[n] > 0 then [Assignment(open[n].id, given[n], tag)] else []
  }

  function Total<T>(handed: seq<Assignment<T>>): nat {
    if handed == [] then 0 else Total(handed[..|handed| - 1]) + handed[|handed| - 1].count
  }

  /** Everything that goes to the mailbox `id`. */
  function Received<T>(handed: seq<Assignment<T>>, id: string): nat {
    if handed == [] then 0
    else
      var n := |handed| - 1;
      Received(handed[..n], id) + if handed[n].mailboxId == id then handed[n].count else 0
  }

  ghost predicate DistinctIds<T>(ms: seq<Mailbox<T>>) {
    forall i, j :: 0 <= i < j < |ms| ==> ms[i].id != ms[j].id
  }

  lemma KeepsDistinct<T(!new)>(ms: seq<Mailbox<T>>, n: nat, kept: seq<Mailbox<T>>)
    requires n < |ms| && forall m :: m in kept ==> m in ms[..n]
    requires DistinctIds(ms[..n]) ==> DistinctIds(kept)
    ensures DistinctIds(ms) ==> DistinctIds(kept) && DistinctIds(kept + [ms[n]])
  {
    if DistinctIds(ms) {
      forall i | 0 <= i < |kept| ensures kept[i].id != ms[n].id {
        assert kept[i] in ms[..n];
      }
    }
  }

  lemma {:induction false} OpenMembers<T(!new)>(ms: seq<Mailbox<T>>)
    ensures forall m :: m in WithCapacity(ms) <==> m in ms && Spare(m) > 0
    ensures DistinctIds(ms) ==> DistinctIds(WithCapacity(ms))
  {
    if ms == [] {
    } else {
      var n := |ms| - 1;
      hide DistinctIds;
      OpenMembers(ms[..n]);
      assert ms == ms[..n] + [ms[n]];
      KeepsDistinct(ms, n, WithCapacity(ms[..n]));
    }
  }

  lemma {:induction false} TotalAppend<T>(a: seq<Assignment<T>>, b: seq<Assignment<T>>)
    ensures Total(a + b) == Total(a) + Total(b)
  {
    if b == [] {
      assert a + b == a;
    } else {
      TotalAppend(a, b[..|b| - 1]);
      assert (a + b)[..|a + b| - 1] == a + b[..|b| - 1];
    }
  }

  lemma {:induction false} ListingTotal<M, T>(open: seq<Mailbox<M>>, given: seq<nat>, tag: T)
    requires |open| == |given|
    ensures Total(Listing(open, given, tag)) == Sum(given)
  {
    if open == [] {
    } else {
      var n := |open| - 1;
      ListingTotal(open[..n], given[..n], tag);
      TotalAppend(Listing(open[..n], given[..n], tag),
                  if given[n] > 0 then [Assignment(open[n].id, given[n], tag)] else []);
    }
  }

  lemma {:induction false} ReceivedAppend<T>(a: seq<Assignment<T>>, b: seq<Assignment<T>>, id: string)
    ensures Received(a + b, id) == Received(a, id) + Received(b, id)
  {
    if b == [] {
      assert a + b == a;
    } else {
      ReceivedAppend(a, b[..|b| - 1], id);
      assert (a + b)[..|a + b| - 1] == a + b[..|b| - 1];
    }
  }

  lemma ListingStep<M, T>(open: seq<Mailbox<M>>, given: seq<nat>, tag: T, id: string)
    requires |open| == |given| > 0
    ensures var n := |open| - 1;
            Received(Listing(open, given, tag), id)
            == Received(Listing(open[..n], given[..n], tag), id) + if open[n].id == id then given[n] else 0
  {
    var n := |open| - 1;
    ReceivedAppend(Listing(open[..n], given[..n], tag),
                   if given[n] > 0 then [Assignment(open[n].id, given[n], tag)] else [], id);
  }

  lemma {:induction false} ListingAbsent<M, T>(open: seq<Mailbox<M>>, given: seq<nat>, tag: T, id: string)
    requires |open| == |given| && forall j :: 0 <= j < |open| ==> open[j].id != id
    ensures Received(Listing(open, given, tag), id) == 0
  {
    if open == [] {
    } else {
      ListingStep(open, given, tag, id);
      ListingAbsent(open[..|open| - 1], given[..|open| - 1], tag, id);
    }
  }

  lemma {:induction false} ListingReceived<M, T>(open: seq<Mailbox<M>>, given: seq<nat>, tag: T, id: string, i: nat)
    requires |open| == |given| && i < |open|
    requires forall j :: 0 <= j < |open| ==> (open[j].id == id <==> j == i)
    ensures Received(Listing(open, given, tag), id) == given[i]
  {
    hide Listing, Received;
    var n := |open| - 1;
    ListingStep(open, given, tag, id);
    if i == n {
      ListingAbsent(open[..n], given[..n], tag, id);
    } else {
      ListingReceived(open[..n], given[..n], tag, id, i);
    }
  }

  // ---- who gets what -----------------------------------------------------------

  /** The positions of the mailboxes with room that fit; of all with room when none fits. */
  function Targets<T>(ms: seq<Mailbox<T>>, fits: Mailbox<T> -> bool): set<nat> {
    set i | 0 <= i < |ms| && ms[i].sentToday < ms[i].dailyCap
            && (fits(ms[i]) || forall j :: 0 <= j < |ms| ==> !fits(ms[j]))
  }

  function Below(targets: set<nat>, n: nat): set<nat> {
    set j | j in targets && j < n
  }

  /** An even part of the count for each target, one more for the first ones, cut to
      what the mailbox can still send today. */
  function Part<T>(ms: seq<Mailbox<T>>, targets: set<nat>, count: nat, i: nat): nat
    requires i < |ms|
  {
    if i !in targets || |targets| == 0 || ms[i].sentToday >= ms[i].dailyCap then 0
    else Min(count / |targets| + if |Below(targets, i)| < count % |targets| then 1 else 0,
             ms[i].dailyCap - ms[i].sentToday)
  }

  /** The mailboxes at these positions, in their order. */
  function Kept<T>(ms: seq<Mailbox<T>>, targets: set<nat>): seq<Mailbox<T>> {
    if ms == [] then []
    else
      var n := |ms| - 1;
      Kept(ms[..n], targets) + if n in targets then [ms[n]] else []
  }

  lemma BelowNext(targets: set<nat>, n: nat)
    ensures |Below(targets, n + 1)| == |Below(targets, n)| + if n in targets then 1 else 0
  {
    if n in targets {
      assert Below(targets, n + 1) == Below(targets, n) + {n};
    } else {
      assert Below(targets, n + 1) == Below(targets, n);
    }
  }

  lemma {:induction false} KeptSize<T>(ms: seq<Mailbox<T>>, targets: set<nat>)
    ensures |Kept(ms, targets)| == |Below(targets, |ms|)|
  {
    if ms == [] {
      assert Below(targets, 0) == {};
    } else {
      KeptSize(ms[..|ms| - 1], targets);
      BelowNext(targets, |ms| - 1);
    }
  }

  lemma KeptSnoc<T>(ms: seq<Mailbox<T>>, targets: set<nat>)
    requires ms != []
    ensures var n := |ms| - 1;
            Kept(ms, targets) == Kept(ms[..n], targets) + if n in targets then [ms[n]] else []
  {
  }

  lemma {:induction false} KeptAt<T>(ms: seq<Mailbox<T>>, targets: set<nat>, i: nat)
    requires i < |ms| && i in targets
    ensures |Below(targets, i)| < |Kept(ms, targets)| && Kept(ms, targets)[|Below(targets, i)|] == ms[i]
  {
    hide Below, Kept;
    var n := |ms| - 1;
    KeptSize(ms[..n], targets);
    KeptSnoc(ms, targets);
    if i < n {
      KeptAt(ms[..n], targets, i);
    }
  }

  lemma {:induction false} KeptFrom<T>(ms: seq<Mailbox<T>>, targets: set<nat>, j: nat) returns (i: nat)
    requires j < |Kept(ms, targets)|
    ensures i < |ms| && i in targets && |Below(targets, i)| == j && Kept(ms, targets)[j] == ms[i]
    decreases |ms|
  {
    if ms == [] {
      assert false;
    } else {
      var n := |ms| - 1;
      KeptSnoc(ms, targets);
      KeptSize(ms[..n], targets);
      hide Kept, Below;
      if j < |Kept(ms[..n], targets)| {
        i := KeptFrom(ms[..n], targets, j);
      } else {
        i := n;
      }
    }
  }

  /** A mailbox of the list is found at its rank only. */
  lemma KeptIds<T>(ms: seq<Mailbox<T>>, targets: set<nat>, i: nat, j: nat)
    requires DistinctIds(ms) && i < |ms| && j < |Kept(ms, targets)|
    ensures Kept(ms, targets)[j].id == ms[i].id <==> i in targets && |Below(targets, i)| == j
  {
    hide Kept, Below;
    var p := KeptFrom(ms, targets, j);
    if i in targets {
      KeptAt(ms, targets, i);
    }
  }

  /** The list of a split over the targets gives every mailbox its part. */
  lemma SplitGivesParts<T, U>(ms: seq<Mailbox<T>>, targets: set<nat>, count: nat, tag: U, i: nat)
    requires DistinctIds(ms) && i < |ms|
    requires forall j :: j in targets ==> j < |ms| && ms[j].sentToday < ms[j].dailyCap
    ensures var open := Kept(ms, targets);
            Received(Listing(open, Split(Spares(open), count), tag), ms[i].id) == Part(ms, targets, count, i)
  {
    var open := Kept(ms, targets);
    var given := Split(Spares(open), count);
    KeptSize(ms, targets);
    assert Below(targets, |ms|) == targets;
    hide Kept, Listing, Received, Below, DistinctIds;
    forall j | 0 <= j < |open| ensures open[j].id == ms[i].id <==> i in targets && |Below(targets, i)| == j {
      KeptIds(ms, targets, i, j);
    }
    if i in targets {
      KeptAt(ms, targets, i);
      ListingReceived(open, given, tag, ms[i].id, |Below(targets, i)|);
    } else {
      ListingAbsent(open, given, tag, ms[i].id);
    }
  }

  /** Assignments name the mailboxes of the list, and hand out something. */
  lemma {:induction false} ListingMembers<M, T>(open: seq<Mailbox<M>>, given: seq<nat>, tag: T, a: Assignment<T>)
    requires |open| == |given| && a in Listing(open, given, tag)
    ensures a.tag == tag && a.count > 0 && exists j :: 0 <= j < |open| && open[j].id == a.mailboxId
  {
    var n := |open| - 1;
    if a in Listing(open[..n], given[..n], tag) {
      ListingMembers(open[..n], given[..n], tag, a);
      var j :| 0 <= j < n && open[..n][j].id == a.mailboxId;
      assert open[j].id == a.mailboxId;
    } else {
      assert open[n].id == a.mailboxId;
    }
  }

  /** Everything with this tag that goes to the mailbox `id`. */
  function ReceivedFor<T(==)>(handed: seq<Assignment<T>>, id: string, tag: T): nat {
    if handed == [] then 0
    else
      var n := |handed| - 1;
      ReceivedFor(handed[..n], id, tag) + if handed[n].mailboxId == id && handed[n].tag == tag then handed[n].count else 0
  }

  lemma {:induction false} ReceivedForAppend<T>(a: seq<Assignment<T>>, b: seq<Assignment<T>>, id: string, tag: T)
    ensures ReceivedFor(a + b, id, tag) == ReceivedFor(a, id, tag) + ReceivedFor(b, id, tag)
  {
    if b == [] {
      assert a + b == a;
    } else {
      ReceivedForAppend(a, b[..|b| - 1], id, tag);
      assert (a + b)[..|a + b| - 1] == a + b[..|b| - 1];
    }
  }

  lemma {:induction false} OneTag<T(!new)>(handed: seq<Assignment<T>>, id: string, tag: T, other: T)
    requires forall a :: a in handed ==> a.tag == other
    ensures ReceivedFor(handed, id, tag) == if tag == other then Received(handed, id) else 0
  {
    if handed == [] {
    } else {
      var n := |handed| - 1;
      OneTag(handed[..n], id, tag, other);
      assert handed[n] in handed;
    }
  }
}
