/**
 `distribute_leads` of rust-email-sender/src/scheduler.rs: spread the leads of
 every recipient domain over the mailboxes that suit the domain.

 The source walks a hash map, so the order of the domains is an input here.
 */
module Distribute {
  import opened Common
  import opened EvenSplit
  import opened M = Mailboxes
  import opened Text

  datatype Host = Host(provider: string, domain: Option<string>)

  type Mailbox = M.Mailbox<Host>

  /** An assignment is tagged with the recipient domain. */
  type Assignment = M.Assignment<string>

  datatype Response = Response(handed: seq<Assignment>, unassigned: nat, exhausted: bool)

  /** Does the mailbox suit the recipient domain? */
  predicate Suits(m: Mailbox, domain: string) {
    var d := Lower(domain);
    var own := match m.info.domain case Some(o) => o case None => "";
    if d == "gmail.com" || d == "googlemail.com" then Lower(m.info.provider) == "gmail"
    else if d == "outlook.com" || d == "hotmail.com" || d == "live.com" || d == "msn.com" then
      Lower(m.info.provider) == "outlook"
    else own != "" && d == own
  }

  /** Recipient domains that go by the provider of the mailbox. */
  predicate ByProvider(domain: string) {
    Lower(domain) in ["gmail.com", "googlemail.com", "outlook.com", "hotmail.com", "live.com", "msn.com"]
  }

  /** A mailbox is matched for its own domain, by some spelling of some domain,
      exactly when that domain is stored in lower case. */
  lemma OwnDomainIsMatchedIff(m: Mailbox)
    ensures (exists domain :: !ByProvider(domain) && Suits(m, domain))
            <==> m.info.domain.Some? && m.info.domain.value != ""
                 && Lower(m.info.domain.value) == m.info.domain.value && !ByProvider(m.info.domain.value)
  {
    if domain :| !ByProvider(domain) && Suits(m, domain) {
      LowerTwice(domain);
    }
    if m.info.domain.Some? && !ByProvider(m.info.domain.value) && Suits(m, m.info.domain.value) {
    }
  }

  /** The mailboxes that suit the domain, or those that do not. */
  function Partition(ms: seq<Mailbox>, domain: string, suited: bool): seq<Mailbox> {
    if ms == [] then []
    else
      var m := ms[|ms| - 1];
      Partition(ms[..|ms| - 1], domain, suited) + if Suits(m, domain) == suited then [m] else []
  }

  /** The suitable mailboxes, or all the others when none is suitable. */
  function Candidates(ms: seq<Mailbox>, domain: string): seq<Mailbox> {
    var matched := Partition(ms, domain, true);
    if matched != [] then matched else Partition(ms, domain, false)
  }

  function Available(ms: seq<Mailbox>, domain: string): seq<Mailbox> {
    WithCapacity(Candidates(ms, domain))
  }

  /** What the mailboxes available for the domain get. */
  function Given(ms: seq<Mailbox>, domain: string, count: nat): seq<nat> {
    Split(Spares(Available(ms, domain)), count)
  }

  /** The part of one domain. */
  function ForDomain(ms: seq<Mailbox>, domain: string, count: nat): Response {
    var open := Available(ms, domain);
    if open == [] then Response([], count, true)
    else
      SplitIsExactIffSharesFit(Spares(open), count);
      Response(Listing(open, Given(ms, domain, count), domain), count - Sum(Given(ms, domain, count)), false)
  }

  function Join(before: Response, part: Response): Response {
    Response(before.handed + part.handed, before.unassigned + part.unassigned, before.exhausted || part.exhausted)
  }

  function CountOf(leads: map<string, nat>, domain: string): nat {
    if domain in leads then leads[domain] else 0
  }

  /** The whole answer when the hash map yields its domains in the given order. */
  function Outcome(ms: seq<Mailbox>, leads: map<string, nat>, order: seq<string>): Response
  {
    if order == [] then Response([], 0, false)
    else
      var n := |order| - 1;
      Join(Outcome(ms, leads, order[..n]), ForDomain(ms, order[n], CountOf(leads, order[n])))
  }

  function Counts(leads: map<string, nat>, order: seq<string>): seq<nat>
  {
    seq(|order|, i requires 0 <= i < |order| => CountOf(leads, order[i]))
  }

  /** `order` lists every domain of the map once. */
  ghost predicate Enumerates(order: seq<string>, leads: map<string, nat>) {
    Unique(order) && forall d :: d in order <==> d in leads
  }

  /** The answer, with the early return for a request without mailboxes. */
  function Answer(ms: seq<Mailbox>, leads: map<string, nat>, order: seq<string>): Response
  {
    if ms == [] then Response([], Sum(Counts(leads, order)), true) else Outcome(ms, leads, order)
  }

  lemma GivenAt(ms: seq<Mailbox>, domain: string, count: nat, i: nat)
    requires i < |Available(ms, domain)|
    ensures var open, given := Available(ms, domain), Given(ms, domain, count);
            var shares := Shares(count, |open|);
            && given[i] == Min(Share(count, |open|, i), Spare(open[i]))
            && Listing(open[..i + 1], given[..i + 1], domain)
               == Listing(open[..i], given[..i], domain)
                  + (if given[i] > 0 then [M.Assignment(open[i].id, given[i], domain)] else [])
            && Sum(given[..i]) + given[i] == Sum(given[..i + 1])
            && Sum(shares[..i]) + Share(count, |open|, i) == Sum(shares[..i + 1])
  {
    hide Available;
    var open, given := Available(ms, domain), Given(ms, domain, count);
    SumPrefix(given, i);
    SumPrefix(Shares(count, |open|), i);
    assert open[..i + 1][..i] == open[..i] && given[..i + 1][..i] == given[..i];
  }

  lemma OutcomeSnoc(ms: seq<Mailbox>, leads: map<string, nat>, order: seq<string>, x: string)
    ensures Outcome(ms, leads, order + [x]) == Join(Outcome(ms, leads, order), ForDomain(ms, x, CountOf(leads, x)))
  {
    assert (order + [x])[..|order|] == order;
  }

  /** The inner loop: part of one domain, with the shortfall summed up mailbox by mailbox. */
  method SpreadDomain(ms: seq<Mailbox>, domain: string, count: nat, open: seq<Mailbox>)
      returns (handed: seq<Assignment>, shortfall: nat)
    requires open == Available(ms, domain) != []
    ensures ForDomain(ms, domain, count) == Response(handed, shortfall, false)
  {
    hide Available;
    var perMailbox, remainder := count / |open|, count % |open|;
    handed, shortfall := [], 0;
    ghost var given, shares := Given(ms, domain, count), Shares(count, |open|);
    for i := 0 to |open|
      invariant handed == Listing(open[..i], given[..i], domain)
      invariant shortfall + Sum(given[..i]) == Sum(shares[..i])
    {
      GivenAt(ms, domain, count, i);
      var share := if i < remainder then perMailbox + 1 else perMailbox;
      var actual := Min(share, Spare(open[i]));
      assert actual == given[i];
      if actual > 0 {
        handed := handed + [M.Assignment(open[i].id, actual, domain)];
      }
      if actual < share {
        shortfall := shortfall + (share - actual);
      }
    }
    SharesAreEven(count, |open|);
    assert open[..|open|] == open && given[..|open|] == given && shares[..|open|] == shares;
  }

  method DistributeLeads(ms: seq<Mailbox>, leads: map<string, nat>, order: seq<string>) returns (res: Response)
    requires Enumerates(order, leads)
    ensures res == Answer(ms, leads, order)
  {
    hide Candidates, Available, Enumerates, Spares;
    var totalLeads := Sum(Counts(leads, order));
    if ms == [] {
      return Response([], totalLeads, true);
    }
    var handed: seq<Assignment>, unassigned: nat, exhausted := [], 0, false;
    for k := 0 to |order|
      invariant Outcome(ms, leads, order[..k]) == Response(handed, unassigned, exhausted)
    {
      assert order[..k + 1] == order[..k] + [order[k]];
      OutcomeSnoc(ms, leads, order[..k], order[k]);
      var domain, count := order[k], CountOf(leads, order[k]);
      var open := Available(ms, domain);
      if Candidates(ms, domain) == [] || open == [] || Sum(Spares(open)) == 0 {
        OpenHasRoom(ms, domain);
        unassigned, exhausted := unassigned + count, true;
        assert handed + [] == handed;
      } else {
        var given, shortfall := SpreadDomain(ms, domain, count, open);
        handed, unassigned := handed + given, unassigned + shortfall;
      }
    }
    assert order[..|order|] == order;
    res := Response(handed, unassigned, exhausted);
  }

  // ---- which mailboxes a domain reaches ---------------------------------

  lemma {:induction false} PartitionMembers(ms: seq<Mailbox>, domain: string, suited: bool)
    ensures forall m :: m in Partition(ms, domain, suited) <==> m in ms && Suits(m, domain) == suited
    ensures DistinctIds(ms) ==> DistinctIds(Partition(ms, domain, suited))
  {
    hide Suits;
    if ms == [] {
    } else {
      hide DistinctIds;
      var n := |ms| - 1;
      PartitionMembers(ms[..n], domain, suited);
      assert ms == ms[..n] + [ms[n]];
      KeepsDistinct(ms, n, Partition(ms[..n], domain, suited));
    }
  }

  /** The mailboxes a domain may use: the suitable ones, or every mailbox when
      none is suitable.  So a request with mailboxes never lacks candidates. */
  lemma CandidateMembers(ms: seq<Mailbox>, domain: string)
    ensures forall m :: m in Candidates(ms, domain) <==>
              m in ms && (Suits(m, domain) || forall other :: other in ms ==> !Suits(other, domain))
    ensures Candidates(ms, domain) == [] <==> ms == []
    ensures DistinctIds(ms) ==> DistinctIds(Candidates(ms, domain))
  {
    hide Suits, DistinctIds;
    PartitionMembers(ms, domain, true);
    PartitionMembers(ms, domain, false);
    var matched, others := Partition(ms, domain, true), Partition(ms, domain, false);
    assert ms == [] ==> others == [];
    hide Partition;
    if matched != [] {
      assert matched[0] in ms;
    } else if ms != [] {
      assert ms[0] in matched || ms[0] in others;
    }
  }

  lemma AvailableMembers(ms: seq<Mailbox>, domain: string)
    ensures forall m :: m in Available(ms, domain) <==> m in Candidates(ms, domain) && Spare(m) > 0
    ensures DistinctIds(ms) ==> DistinctIds(Available(ms, domain))
  {
    CandidateMembers(ms, domain);
    hide Candidates, DistinctIds, WithCapacity, Spare, Suits;
    OpenMembers(Candidates(ms, domain));
  }

  /** The letter case of the recipient domain does not matter. */
  lemma {:induction false} DomainCaseIsIgnored(ms: seq<Mailbox>, d: string, e: string)
    requires Lower(d) == Lower(e)
    ensures Candidates(ms, d) == Candidates(ms, e)
  {
    PartitionCase(ms, d, e, true);
    PartitionCase(ms, d, e, false);
  }

  lemma {:induction false} PartitionCase(ms: seq<Mailbox>, d: string, e: string, suited: bool)
    requires Lower(d) == Lower(e)
    ensures Partition(ms, d, suited) == Partition(ms, e, suited)
  {
    if ms == [] {
    } else {
      PartitionCase(ms[..|ms| - 1], d, e, suited);
      LowerKeepsEmpty(d, e);
    }
  }

  lemma LowerKeepsEmpty(d: string, e: string)
    ensures Lower(d) == Lower(e) ==> (d == "" <==> e == "")
    ensures Lower(d) == "" <==> d == ""
  {
    assert |Lower(d)| == |d| && |Lower(e)| == |e|;
  }

  /** That of the stored domains does: when every one has an upper-case letter, all
      mailboxes are candidates of every domain that does not go by the provider. */
  lemma {:induction false} UpperCaseDomainsAreIgnored(ms: seq<Mailbox>, domain: string)
    requires !ByProvider(domain)
    requires forall m :: m in ms && m.info.domain.Some? ==> Lower(m.info.domain.value) != m.info.domain.value
    ensures Candidates(ms, domain) == ms
  {
    LowerTwice(domain);
    assert forall m :: m in ms ==> !Suits(m, domain);
    PartitionOfNone(ms, domain);
  }

  lemma {:induction false} PartitionOfNone(ms: seq<Mailbox>, domain: string)
    requires forall m :: m in ms ==> !Suits(m, domain)
    ensures Partition(ms, domain, true) == [] && Partition(ms, domain, false) == ms
  {
    hide Suits;
    if ms == [] {
    } else {
      var n := |ms| - 1;
      assert ms == ms[..n] + [ms[n]];
      PartitionOfNone(ms[..n], domain);
      assert ms[n] in ms;
    }
  }

  /** The source's third test, on the total capacity, never decides anything. */
  lemma OpenHasRoom(ms: seq<Mailbox>, domain: string)
    ensures Available(ms, domain) == [] <==> Sum(Spares(Available(ms, domain))) == 0
    ensures Candidates(ms, domain) == [] ==> Available(ms, domain) == []
  {
    var open := Available(ms, domain);
    CandidateMembers(ms, domain);
    AvailableMembers(ms, domain);
    if open != [] {
      assert open[|open| - 1] in open;
    }
  }

  // ---- conservation -----------------------------------------------------

  /** By how much the even shares of a domain overshoot the mailboxes they fall to. */
  function Overshoots(ms: seq<Mailbox>, domain: string, count: nat): seq<nat> {
    var open := Available(ms, domain);
    seq(|open|, i requires 0 <= i < |open| =>
      if Share(count, |open|, i) > Spare(open[i]) then Share(count, |open|, i) - Spare(open[i]) else 0)
  }

  /** One domain: every lead is either handed out or unassigned, and what is
      unassigned is the sum of the overshoots when some candidate has room. */
  lemma DomainConserves(ms: seq<Mailbox>, domain: string, count: nat)
    ensures var part := ForDomain(ms, domain, count);
            && Total(part.handed) + part.unassigned == count
            && (Available(ms, domain) != [] ==> part.unassigned == Sum(Overshoots(ms, domain, count)))
            && (Available(ms, domain) == [] ==> part.unassigned == count)
  {
    var open := Available(ms, domain);
    if open != [] {
      var given := Given(ms, domain, count);
      ListingTotal(open, given, domain);
      SharesAreEven(count, |open|);
      SumAdd(given, Overshoots(ms, domain, count), Shares(count, |open|));
    }
  }

  lemma {:induction false} OutcomeConserves(ms: seq<Mailbox>, leads: map<string, nat>, order: seq<string>)
    ensures Total(Outcome(ms, leads, order).handed) + Outcome(ms, leads, order).unassigned
            == Sum(Counts(leads, order))
  {
    hide ForDomain, Available;
    if order == [] {
    } else {
      var n := |order| - 1;
      OutcomeConserves(ms, leads, order[..n]);
      DomainConserves(ms, order[n], CountOf(leads, order[n]));
      TotalAppend(Outcome(ms, leads, order[..n]).handed, ForDomain(ms, order[n], CountOf(leads, order[n])).handed);
      assert Counts(leads, order)[..n] == Counts(leads, order[..n]);
    }
  }

  lemma {:induction false} ExhaustedIff(ms: seq<Mailbox>, leads: map<string, nat>, order: seq<string>)
    ensures Outcome(ms, leads, order).exhausted
            <==> exists k :: 0 <= k < |order| && Available(ms, order[k]) == []
  {
    hide Available;
    if order == [] {
    } else {
      var n := |order| - 1;
      ExhaustedIff(ms, leads, order[..n]);
      forall k | 0 <= k < n ensures order[..n][k] == order[k] {
      }
    }
  }

  /** The whole request: no lead is lost or invented, and the `exhausted` flag
      says exactly that some domain found no mailbox with room. */
  lemma AnswerConserves(ms: seq<Mailbox>, leads: map<string, nat>, order: seq<string>)
    requires Enumerates(order, leads)
    ensures Total(Answer(ms, leads, order).handed) + Answer(ms, leads, order).unassigned == Sum(Counts(leads, order))
    ensures Answer(ms, leads, order).exhausted <==> ms == [] || exists d :: d in leads && Available(ms, d) == []
  {
    OutcomeConserves(ms, leads, order);
    ExhaustedIff(ms, leads, order);
  }

  // ---- the order of the hash map ----------------------------------------

  /** Equal up to the order of the assignments. */
  ghost predicate SameUpToOrder(r: Response, s: Response) {
    && multiset(r.handed) == multiset(s.handed)
    && r.unassigned == s.unassigned
    && r.exhausted == s.exhausted
  }

  lemma JoinSame(r: Response, s: Response, x: Response)
    requires SameUpToOrder(r, s)
    ensures SameUpToOrder(Join(r, x), Join(s, x))
  {
  }

  lemma JoinSwaps(r: Response, x: Response, y: Response)
    ensures SameUpToOrder(Join(Join(r, x), y), Join(Join(r, y), x))
  {
  }

  /** A domain in the middle of the order may as well come last. */
  lemma {:induction false} MoveToEnd(
      ms: seq<Mailbox>, leads: map<string, nat>, a: seq<string>, x: string, b: seq<string>)
    ensures SameUpToOrder(Outcome(ms, leads, a + [x] + b), Outcome(ms, leads, a + b + [x]))
    decreases |b|
  {
    if b == [] {
      assert a + [x] + b == a + b + [x];
    } else {
      var c, y := b[..|b| - 1], b[|b| - 1];
      assert b == c + [y];
      var px, py := ForDomain(ms, x, CountOf(leads, x)), ForDomain(ms, y, CountOf(leads, y));
      assert a + [x] + b == (a + [x] + c) + [y] && a + b == (a + c) + [y];
      MoveToEnd(ms, leads, a, x, c);
      OutcomeSnoc(ms, leads, a + [x] + c, y);
      OutcomeSnoc(ms, leads, a + c, x);
      OutcomeSnoc(ms, leads, a + c, y);
      OutcomeSnoc(ms, leads, a + b, x);
      JoinSame(Outcome(ms, leads, a + [x] + c), Outcome(ms, leads, a + c + [x]), py);
      JoinSwaps(Outcome(ms, leads, a + c), px, py);
    }
  }

  /** Whatever order the hash map yields, the answer is the same up to the order
      of its assignments. */
  lemma {:induction false} OrderIndependent(
      ms: seq<Mailbox>, leads: map<string, nat>, order: seq<string>, other: seq<string>)
    requires Unique(order) && Unique(other)
    requires forall d :: d in order <==> d in other
    ensures SameUpToOrder(Outcome(ms, leads, order), Outcome(ms, leads, other))
    decreases |order|
  {
    if order == [] {
      BothEmpty(order, other);
    } else {
      var front, x := order[..|order| - 1], order[|order| - 1];
      assert order == front + [x];
      var a, b := Around(other, x);
      forall d ensures d in front <==> d in a + b {
        assert d in order <==> d in other;
      }
      OrderIndependent(ms, leads, front, a + b);
      MoveToEnd(ms, leads, a, x, b);
      OutcomeSnoc(ms, leads, front, x);
      OutcomeSnoc(ms, leads, a + b, x);
      JoinSame(Outcome(ms, leads, front), Outcome(ms, leads, a + b), ForDomain(ms, x, CountOf(leads, x)));
    }
  }

  lemma BothEmpty(order: seq<string>, other: seq<string>)
    requires forall d :: d in order <==> d in other
    ensures order == [] <==> other == []
  {
    if order != [] {
      assert order[0] in other;
    }
    if other != [] {
      assert other[0] in order;
    }
  }

  lemma Around(order: seq<string>, x: string) returns (a: seq<string>, b: seq<string>)
    requires Unique(order) && x in order
    ensures order == a + [x] + b && x !in a + b && Unique(a + b)
  {
    var k :| 0 <= k < |order| && order[k] == x;
    a, b := order[..k], order[k + 1..];
  }

  lemma AnswerIsOrderIndependent(ms: seq<Mailbox>, leads: map<string, nat>, order: seq<string>, other: seq<string>)
    requires Enumerates(order, leads) && Enumerates(other, leads)
    ensures SameUpToOrder(Answer(ms, leads, order), Answer(ms, leads, other))
  {
    OrderIndependent(ms, leads, order, other);
    OutcomeConserves(ms, leads, order);
    OutcomeConserves(ms, leads, other);
    TotalOfSame(Outcome(ms, leads, order).handed, Outcome(ms, leads, other).handed);
  }

  lemma TakeOut(a: Assignment, b: seq<Assignment>) returns (rest: seq<Assignment>)
    requires a in b
    ensures multiset(b) == multiset(rest) + multiset{a}
    ensures Total(b) == Total(rest) + a.count
  {
    var k :| 0 <= k < |b| && b[k] == a;
    var c, d := b[..k], b[k + 1..];
    rest := c + d;
    assert b == c + [a] + d;
    TotalAppend(c, d);
    TotalAppend(c, [a]);
    TotalAppend(c + [a], d);
  }

  lemma {:induction false} TotalOfSame(a: seq<Assignment>, b: seq<Assignment>)
    requires multiset(a) == multiset(b)
    ensures Total(a) == Total(b)
  {
    if a == [] {
      assert |multiset(b)| == 0;
    } else {
      var front, last := a[..|a| - 1], a[|a| - 1];
      assert a == front + [last];
      assert last in multiset(a) && last in multiset(b);
      var rest := TakeOut(last, b);
      assert multiset(a) == multiset(front) + multiset{last};
      assert multiset(front) == multiset(a) - multiset{last};
      assert multiset(rest) == multiset(b) - multiset{last};
      TotalOfSame(front, rest);
    }
  }

  // ---- the daily cap over several domains -------------------------------

  /** From one domain a mailbox gets the smaller of its share and its room, and
      nothing at all when it is no candidate. */
  lemma DomainReceived(ms: seq<Mailbox>, domain: string, count: nat, m: Mailbox)
    requires DistinctIds(ms) && m in ms
    ensures var open := Available(ms, domain);
            var got := Received(ForDomain(ms, domain, count).handed, m.id);
            && got <= Spare(m)
            && (m !in Candidates(ms, domain) ==> got == 0)
            && (forall i :: 0 <= i < |open| && open[i] == m ==> got == Min(Share(count, |open|, i), Spare(m)))
  {
    CandidateMembers(ms, domain);
    AvailableMembers(ms, domain);
    hide Candidates, Available;
    var open, given := Available(ms, domain), Given(ms, domain, count);
    if i :| 0 <= i < |open| && open[i].id == m.id {
      assert open[i] in ms;
      assert open[i] == m && m in open;
      ListingReceived(open, given, domain, m.id, i);
    } else {
      ListingAbsent(open, given, domain, m.id);
    }
  }

  /** How many of the domains have the mailbox among their candidates. */
  function Reach(ms: seq<Mailbox>, order: seq<string>, m: Mailbox): nat {
    if order == [] then 0
    else Reach(ms, order[..|order| - 1], m) + if m in Candidates(ms, order[|order| - 1]) then 1 else 0
  }

  lemma OnceMore(room: nat, times: nat)
    ensures room * (times + 1) == room * times + room
  {
  }

  /** Over the whole request a mailbox gets at most its room once for each
      domain that has it among its candidates. */
  lemma {:induction false} ReceivedBound(ms: seq<Mailbox>, leads: map<string, nat>, order: seq<string>, m: Mailbox)
    requires DistinctIds(ms) && m in ms
    ensures Received(Outcome(ms, leads, order).handed, m.id) <= Spare(m) * Reach(ms, order, m)
  {
    hide ForDomain, Candidates;
    if order == [] {
    } else {
      var front, d := order[..|order| - 1], order[|order| - 1];
      ReceivedBound(ms, leads, front, m);
      DomainReceived(ms, d, CountOf(leads, d), m);
      ReceivedAppend(Outcome(ms, leads, front).handed, ForDomain(ms, d, CountOf(leads, d)).handed, m.id);
      OnceMore(Spare(m), Reach(ms, front, m));
    }
  }

  /** No mailbox with room is a candidate of two of the domains. */
  ghost predicate Separate(ms: seq<Mailbox>, domains: set<string>) {
    forall m, d, e | m in ms && Spare(m) > 0 && d in domains && e in domains ::
      m in Candidates(ms, d) && m in Candidates(ms, e) ==> d == e
  }

  ghost predicate WithinCaps(ms: seq<Mailbox>, leads: map<string, nat>, order: seq<string>)
  {
    forall m :: m in ms ==> Received(Outcome(ms, leads, order).handed, m.id) <= Spare(m)
  }

  lemma {:induction false} SeparateReach(ms: seq<Mailbox>, order: seq<string>, domains: set<string>, m: Mailbox)
    requires Unique(order) && (forall d :: d in order ==> d in domains)
    requires Separate(ms, domains) && m in ms && Spare(m) > 0
    ensures Reach(ms, order, m) <= 1
    ensures (forall d :: d in order ==> m !in Candidates(ms, d)) ==> Reach(ms, order, m) == 0
  {
    if order == [] {
    } else {
      var front, d := order[..|order| - 1], order[|order| - 1];
      SeparateReach(ms, front, domains, m);
      assert d in order;
      if m in Candidates(ms, d) {
        forall e | e in front ensures m !in Candidates(ms, e) {
          assert e in order;
        }
      }
    }
  }

  lemma {:induction false} ReceivedFromPart(
      ms: seq<Mailbox>, leads: map<string, nat>, order: seq<string>, d: string, id: string)
    requires d in order
    ensures Received(Outcome(ms, leads, order).handed, id) >= Received(ForDomain(ms, d, CountOf(leads, d)).handed, id)
  {
    var front, e := order[..|order| - 1], order[|order| - 1];
    assert order == front + [e];
    ReceivedAppend(Outcome(ms, leads, front).handed, ForDomain(ms, e, CountOf(leads, e)).handed, id);
    if d != e {
      ReceivedFromPart(ms, leads, front, d, id);
    }
  }

  lemma {:induction false} ReceivedFromTwo(
      ms: seq<Mailbox>, leads: map<string, nat>, order: seq<string>, d: string, e: string, id: string)
    requires d in order && e in order && d != e
    ensures Received(Outcome(ms, leads, order).handed, id)
            >= Received(ForDomain(ms, d, CountOf(leads, d)).handed, id)
               + Received(ForDomain(ms, e, CountOf(leads, e)).handed, id)
  {
    var front, last := order[..|order| - 1], order[|order| - 1];
    assert order == front + [last];
    ReceivedAppend(Outcome(ms, leads, front).handed, ForDomain(ms, last, CountOf(leads, last)).handed, id);
    if last == d {
      ReceivedFromPart(ms, leads, front, e, id);
    } else if last == e {
      ReceivedFromPart(ms, leads, front, d, id);
    } else {
      ReceivedFromTwo(ms, leads, front, d, e, id);
    }
  }

  /** Enough leads for a domain fill any mailbox it can use. */
  lemma DomainCanFill(ms: seq<Mailbox>, domain: string, m: Mailbox)
    requires DistinctIds(ms) && m in ms && Spare(m) > 0 && m in Candidates(ms, domain)
    ensures Received(ForDomain(ms, domain, Times(|Available(ms, domain)|, Spare(m))).handed, m.id) == Spare(m)
  {
    CandidateMembers(ms, domain);
    AvailableMembers(ms, domain);
    var open := Available(ms, domain);
    assert m in open;
    var i :| 0 <= i < |open| && open[i] == m;
    var count := Times(|open|, Spare(m));
    ShareOfMultiple(|open|, Spare(m), i);
    DomainReceived(ms, domain, count, m);
  }

  /** The two domains that share a mailbox each get enough leads to fill it. */
  function Flood(ms: seq<Mailbox>, domains: set<string>, m: Mailbox): map<string, nat> {
    map d | d in domains :: Times(|Available(ms, d)|, Spare(m))
  }

  lemma SeparateKeepsCaps(ms: seq<Mailbox>, leads: map<string, nat>, order: seq<string>)
    requires DistinctIds(ms) && Enumerates(order, leads) && Separate(ms, leads.Keys)
    ensures WithinCaps(ms, leads, order)
  {
    forall m | m in ms ensures Received(Outcome(ms, leads, order).handed, m.id) <= Spare(m) {
      ReceivedBound(ms, leads, order, m);
      if Spare(m) > 0 {
        SeparateReach(ms, order, leads.Keys, m);
      }
      AtMostOnce(Spare(m), Reach(ms, order, m));
    }
  }

  lemma AtMostOnce(room: nat, times: nat)
    requires room > 0 ==> times <= 1
    ensures room * times <= room
  {
  }

  lemma OverlapBreaksACap(ms: seq<Mailbox>, order: seq<string>, domains: set<string>)
    requires DistinctIds(ms) && Unique(order) && forall d :: d in order <==> d in domains
    requires !Separate(ms, domains)
    ensures exists leads: map<string, nat> :: leads.Keys == domains && !WithinCaps(ms, leads, order)
  {
    var m, d, e :| m in ms && Spare(m) > 0 && d in domains && e in domains
                   && m in Candidates(ms, d) && m in Candidates(ms, e) && d != e;
    var leads := Flood(ms, domains, m);
    DomainCanFill(ms, d, m);
    DomainCanFill(ms, e, m);
    ReceivedFromTwo(ms, leads, order, d, e, m.id);
    assert leads.Keys == domains && !WithinCaps(ms, leads, order);
  }

  /** `sent_today` is not updated between domains, so the daily caps are safe for
      every number of leads exactly when no mailbox with room serves two of the
      domains. */
  lemma CapsHoldForAllCountsIff(ms: seq<Mailbox>, order: seq<string>, domains: set<string>)
    requires DistinctIds(ms) && Unique(order) && forall d :: d in order <==> d in domains
    ensures (forall leads: map<string, nat> | leads.Keys == domains :: WithinCaps(ms, leads, order))
            <==> Separate(ms, domains)
  {
    if Separate(ms, domains) {
      forall leads: map<string, nat> | leads.Keys == domains ensures WithinCaps(ms, leads, order) {
        SeparateKeepsCaps(ms, leads, order);
      }
    } else {
      OverlapBreaksACap(ms, order, domains);
    }
  }

  // ---- who gets the leads of a domain --------------------------------------------

  lemma {:induction false} PartitionIsKept(ms: seq<Mailbox>, domain: string, suited: bool, targets: set<nat>)
    requires forall i :: 0 <= i < |ms| ==>
               (i in targets <==> Suits(ms[i], domain) == suited && ms[i].sentToday < ms[i].dailyCap)
    ensures WithCapacity(Partition(ms, domain, suited)) == Kept(ms, targets)
  {
    hide Suits;
    if ms == [] {
    } else {
      var n := |ms| - 1;
      PartitionIsKept(ms[..n], domain, suited, targets);
      var before := Partition(ms[..n], domain, suited);
      assert (before + [ms[n]])[..|before|] == before;
      assert before + [] == before;
    }
  }

  lemma AvailableIsKept(ms: seq<Mailbox>, domain: string, fits: Mailbox -> bool)
    requires forall m :: m in ms ==> (Suits(m, domain) <==> fits(m))
    ensures Available(ms, domain) == Kept(ms, Targets(ms, fits))
  {
    hide Suits, WithCapacity, Kept;
    PartitionMembers(ms, domain, true);
    hide Partition;
    var matched := Partition(ms, domain, true);
    if matched != [] {
      assert matched[0] in ms && fits(matched[0]);
      PartitionIsKept(ms, domain, true, Targets(ms, fits));
    } else {
      forall m | m in ms ensures !fits(m) {
        assert m !in matched;
      }
      PartitionIsKept(ms, domain, false, Targets(ms, fits));
    }
  }

  lemma {:induction false} TagsAreDomains(ms: seq<Mailbox>, leads: map<string, nat>, order: seq<string>, a: Assignment)
    requires a in Outcome(ms, leads, order).handed
    ensures a.tag in order && a in ForDomain(ms, a.tag, CountOf(leads, a.tag)).handed
  {
    var n := |order| - 1;
    if a in Outcome(ms, leads, order[..n]).handed {
      TagsAreDomains(ms, leads, order[..n], a);
    } else {
      PartTags(ms, order[n], CountOf(leads, order[n]), a);
    }
  }

  lemma PartTags(ms: seq<Mailbox>, domain: string, count: nat, a: Assignment)
    requires a in ForDomain(ms, domain, count).handed
    ensures a.tag == domain && a.count > 0
    ensures exists j :: 0 <= j < |Available(ms, domain)| && Available(ms, domain)[j].id == a.mailboxId
  {
    hide Available;
    ListingMembers(Available(ms, domain), Given(ms, domain, count), domain, a);
  }

  lemma {:induction false} FromOneDomain(
      ms: seq<Mailbox>, leads: map<string, nat>, order: seq<string>, d: string, id: string)
    requires Unique(order)
    ensures ReceivedFor(Outcome(ms, leads, order).handed, id, d)
            == if d in order then Received(ForDomain(ms, d, CountOf(leads, d)).handed, id) else 0
  {
    if order == [] {
    } else {
      var front, last := order[..|order| - 1], order[|order| - 1];
      assert order == front + [last];
      var part := ForDomain(ms, last, CountOf(leads, last));
      FromOneDomain(ms, leads, front, d, id);
      ReceivedForAppend(Outcome(ms, leads, front).handed, part.handed, id, d);
      forall a | a in part.handed ensures a.tag == last {
        PartTags(ms, last, CountOf(leads, last), a);
      }
      hide ForDomain;
      OneTag(part.handed, id, d, last);
    }
  }

  /** The leads of a domain go, under its name as written, in even parts to the
      mailboxes with room that fit, or to all with room when none fits. */
  lemma LeadsAreSpread(ms: seq<Mailbox>, leads: map<string, nat>, order: seq<string>, d: string, fits: Mailbox -> bool)
    requires Enumerates(order, leads) && d in leads
    requires forall m :: m in ms ==> (Suits(m, d) <==> fits(m))
    ensures SpreadOver(ms, Answer(ms, leads, order).handed, d, leads[d], Targets(ms, fits))
  {
    var handed, targets := Answer(ms, leads, order).handed, Targets(ms, fits);
    AvailableIsKept(ms, d, fits);
    hide Suits, Available, Targets, Part, Kept;
    forall i | 0 <= i < |ms| && DistinctIds(ms) ensures ReceivedFor(handed, ms[i].id, d) == Part(ms, targets, leads[d], i) {
      FromOneDomain(ms, leads, order, d, ms[i].id);
      TargetsHaveRoom(ms, fits);
      SplitGivesParts(ms, targets, leads[d], d, i);
    }
    forall a | a in handed && a.tag == d ensures exists i :: i in targets && i < |ms| && ms[i].id == a.mailboxId {
      TagsAreDomains(ms, leads, order, a);
      PartTags(ms, d, leads[d], a);
      TargetsHaveRoom(ms, fits);
      var j :| 0 <= j < |Available(ms, d)| && Available(ms, d)[j].id == a.mailboxId;
      var i := KeptFrom(ms, targets, j);
    }
  }

  lemma TargetsHaveRoom(ms: seq<Mailbox>, fits: Mailbox -> bool)
    ensures forall j :: j in Targets(ms, fits) ==> j < |ms| && ms[j].sentToday < ms[j].dailyCap
  {
  }

  /** The assignments with this tag name targets only, and with distinct ids every
      mailbox gets its part. */
  ghost predicate SpreadOver(ms: seq<Mailbox>, handed: seq<Assignment>, d: string, count: nat, targets: set<nat>) {
    && (forall a :: a in handed && a.tag == d ==> exists i :: i in targets && i < |ms| && ms[i].id == a.mailboxId)
    && (DistinctIds(ms) ==> forall i :: 0 <= i < |ms| ==> ReceivedFor(handed, ms[i].id, d) == Part(ms, targets, count, i))
  }

  /** Leads at Google go to Google mailboxes. */
  lemma GmailLeadsAreSpread(ms: seq<Mailbox>, leads: map<string, nat>, order: seq<string>, d: string)
    requires Enumerates(order, leads) && d in leads && Lower(d) in ["gmail.com", "googlemail.com"]
    ensures SpreadOver(ms, Answer(ms, leads, order).handed, d, leads[d],
                       Targets(ms, (m: Mailbox) => Lower(m.info.provider) == "gmail"))
  {
    hide Lower, Answer, Targets, SpreadOver;
    LeadsAreSpread(ms, leads, order, d, (m: Mailbox) => Lower(m.info.provider) == "gmail");
  }

  /** Leads at Microsoft go to Microsoft mailboxes. */
  lemma OutlookLeadsAreSpread(ms: seq<Mailbox>, leads: map<string, nat>, order: seq<string>, d: string)
    requires Enumerates(order, leads) && d in leads
    requires Lower(d) in ["outlook.com", "hotmail.com", "live.com", "msn.com"]
    ensures SpreadOver(ms, Answer(ms, leads, order).handed, d, leads[d],
                       Targets(ms, (m: Mailbox) => Lower(m.info.provider) == "outlook"))
  {
    hide Lower, Answer, Targets, SpreadOver;
    LeadsAreSpread(ms, leads, order, d, (m: Mailbox) => Lower(m.info.provider) == "outlook");
  }

  /** Other leads go to the mailboxes of their own domain. */
  lemma OtherLeadsAreSpread(ms: seq<Mailbox>, leads: map<string, nat>, order: seq<string>, d: string)
    requires Enumerates(order, leads) && d in leads
    requires Lower(d) !in ["gmail.com", "googlemail.com", "outlook.com", "hotmail.com", "live.com", "msn.com"]
    ensures SpreadOver(ms, Answer(ms, leads, order).handed, d, leads[d],
                       Targets(ms, (m: Mailbox) => d != "" && m.info.domain == Some(Lower(d))))
  {
    LowerKeepsEmpty(d, "");
    hide Lower, Answer, Targets, SpreadOver;
    LeadsAreSpread(ms, leads, order, d, (m: Mailbox) => d != "" && m.info.domain == Some(Lower(d)));
  }

  /** All assignments are of requested domains, and hand something out. */
  lemma AssignmentsAreOfLeads(ms: seq<Mailbox>, leads: map<string, nat>, order: seq<string>, a: Assignment)
    requires Enumerates(order, leads) && a in Answer(ms, leads, order).handed
    ensures a.tag in leads && a.count > 0
  {
    TagsAreDomains(ms, leads, order, a);
    PartTags(ms, a.tag, CountOf(leads, a.tag), a);
  }
}
