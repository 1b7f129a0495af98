/**
 Many workers on the lease table at once.  A claim is a transaction of several
 steps under a row lock; every other statement is one step that waits for the
 lock.  Crashes, stale recovery and the upserts of the API interleave freely.
 */
module LeaseProtocol {
  import opened Common
  import opened Leases

  type Worker = nat

  datatype Phase =
    | Waiting
    | Locked(key: Key)    // the SELECT has the row lock
    | Tested(key: Key)    // and its condition held
    | Written(key: Key)   // the UPDATE is done but not committed
    | Holding(key: Key)   // the claim is committed, the sync is running
    | Crashed

  /** `rows` is what is committed; the pending write of a claim shows in its phase only. */
  datatype System = System(rows: Table, locks: map<Key, Worker>, phases: map<Worker, Phase>, now: nat)

  datatype Action =
    | Tick
    | Lock(w: Worker, k: Key)
    | Test(w: Worker)
    | Write(w: Worker)
    | Commit(w: Worker)
    | Rollback(w: Worker)
    | Complete(w: Worker)
    | Fail(w: Worker, message: Option<string>)
    | Crash(w: Worker)
    | Upsert(k: Key, p: Patch)
    | Recover(k: Key)

  function PhaseOf(s: System, w: Worker): Phase {
    if w in s.phases then s.phases[w] else Waiting
  }

  predicate InTransaction(ph: Phase) {
    ph.Locked? || ph.Tested? || ph.Written?
  }

  predicate Enabled(s: System, a: Action) {
    match a
    case Tick => true
    case Lock(w, k) => PhaseOf(s, w) == Waiting && k !in s.locks
    case Test(w) => PhaseOf(s, w).Locked?
    case Write(w) => PhaseOf(s, w).Tested?
    case Commit(w) => PhaseOf(s, w).Written?
    case Rollback(w) => InTransaction(PhaseOf(s, w))
    case Complete(w) => PhaseOf(s, w).Holding? && PhaseOf(s, w).key !in s.locks
    case Fail(w, _) => PhaseOf(s, w).Holding? && PhaseOf(s, w).key !in s.locks
    case Crash(w) => PhaseOf(s, w) != Crashed
    case Upsert(k, _) => k !in s.locks
    case Recover(k) => k !in s.locks
  }

  function Enter(s: System, w: Worker, ph: Phase): System {
    s.(phases := s.phases[w := ph])
  }

  function Release(s: System, k: Key): System {
    s.(locks := s.locks - {k})
  }

  function Put(s: System, k: Key, row: Row): System {
    s.(rows := s.rows[k := row])
  }

  function Next(s: System, a: Action): System
    requires Enabled(s, a)
  {
    match a
    case Tick => s.(now := s.now + 1)
    case Lock(w, k) => Enter(s.(locks := s.locks[k := w]), w, Locked(k))
    case Test(w) =>
      var k := PhaseOf(s, w).key;
      if k in s.rows && Claimable(s.rows[k], s.now) then Enter(s, w, Tested(k)) else Release(Enter(s, w, Waiting), k)
    case Write(w) => Enter(s, w, Written(PhaseOf(s, w).key))
    case Commit(w) =>
      var k := PhaseOf(s, w).key;
      Release(Enter(Put(s, k, ClaimedRow(RowAt(s.rows, k), s.now)), w, Holding(k)), k)
    case Rollback(w) => Release(Enter(s, w, Waiting), PhaseOf(s, w).key)
    case Complete(w) =>
      var k := PhaseOf(s, w).key;
      Enter(s.(rows := AfterComplete(s.rows, k, s.now)), w, Waiting)
    case Fail(w, message) =>
      var k := PhaseOf(s, w).key;
      Enter(s.(rows := AfterFail(s.rows, k, s.now, message)), w, Waiting)
    case Crash(w) =>
      var ph := PhaseOf(s, w);
      if InTransaction(ph) then Release(Enter(s, w, Crashed), ph.key) else Enter(s, w, Crashed)
    case Upsert(k, p) => s.(rows := AfterUpsert(s.rows, k, p, s.now))
    case Recover(k) => s.(rows := AfterRecover(s.rows, k, s.now))
  }

  /** Nobody has started yet; the table may hold anything. */
  predicate Start(s: System) {
    s.locks == map[] && s.phases == map[]
  }

  ghost predicate Legal(s: System, acts: seq<Action>)
    decreases acts
  {
    acts == [] || (Enabled(s, acts[0]) && Legal(Next(s, acts[0]), acts[1..]))
  }

  function Exec(s: System, acts: seq<Action>): System
    requires Legal(s, acts)
    decreases acts
  {
    if acts == [] then s else Exec(Next(s, acts[0]), acts[1..])
  }

  /** Claims of the mailbox that commit in the run. */
  function Claims(s: System, acts: seq<Action>, k: Key): nat
    requires Legal(s, acts)
    decreases acts
  {
    if acts == [] then 0
    else (if acts[0].Commit? && PhaseOf(s, acts[0].w).key == k then 1 else 0) + Claims(Next(s, acts[0]), acts[1..], k)
  }

  // ---- what the row lock gives -------------------------------------------

  /** A lock belongs to the one transaction that runs on its row. */
  ghost predicate LocksMatch(s: System) {
    LocksOwned(s) && TransactionsLock(s)
  }

  ghost predicate LocksOwned(s: System) {
    forall k :: k in s.locks ==> InTransaction(PhaseOf(s, s.locks[k])) && PhaseOf(s, s.locks[k]).key == k
  }

  ghost predicate TransactionsLock(s: System) {
    forall w :: InTransaction(PhaseOf(s, w)) ==>
      PhaseOf(s, w).key in s.locks && s.locks[PhaseOf(s, w).key] == w
  }

  /** The row a claim has tested stays claimable until the claim commits. */
  ghost predicate TestsStand(s: System) {
    forall w :: PhaseOf(s, w).Tested? || PhaseOf(s, w).Written? ==>
      PhaseOf(s, w).key in s.rows && Claimable(s.rows[PhaseOf(s, w).key], s.now)
  }

  lemma StepKeepsOwners(s: System, a: Action)
    requires LocksMatch(s) && Enabled(s, a)
    ensures LocksOwned(Next(s, a))
  {
    hide Claimable, ClaimedRow, CompletedRow, FailedRow, RecoveredRow, PatchedRow;
  }

  lemma StepKeepsLocks(s: System, a: Action)
    requires LocksMatch(s) && Enabled(s, a)
    ensures LocksMatch(Next(s, a))
  {
    hide Claimable, ClaimedRow, CompletedRow, FailedRow, RecoveredRow, PatchedRow;
    StepKeepsOwners(s, a);
    var t := Next(s, a);
    forall w | InTransaction(PhaseOf(t, w))
      ensures PhaseOf(t, w).key in t.locks && t.locks[PhaseOf(t, w).key] == w
    {
      hide LocksOwned;
      assert InTransaction(PhaseOf(s, w)) ==> s.locks[PhaseOf(s, w).key] == w;
    }
  }

  lemma StepKeepsTests(s: System, a: Action)
    requires LocksMatch(s) && TestsStand(s) && Enabled(s, a)
    ensures TestsStand(Next(s, a))
  {
    var t := Next(s, a);
    forall w | PhaseOf(t, w).Tested? || PhaseOf(t, w).Written?
      ensures PhaseOf(t, w).key in t.rows && Claimable(t.rows[PhaseOf(t, w).key], t.now)
    {
      assert InTransaction(PhaseOf(s, w)) ==> s.locks[PhaseOf(s, w).key] == w;
    }
  }

  // ---- at most one live holder -------------------------------------------

  ghost predicate Held(s: System, k: Key) {
    exists w :: PhaseOf(s, w) == Holding(k)
  }

  ghost predicate Exclusive(s: System) {
    forall v, w :: PhaseOf(s, v).Holding? && PhaseOf(s, v) == PhaseOf(s, w) ==> v == w
  }

  /** A row with a live holder is marked busy. */
  ghost predicate HoldersBusy(s: System) {
    forall w :: PhaseOf(s, w).Holding? ==> RowAt(s.rows, PhaseOf(s, w).key).isBusy
  }

  ghost predicate Inv(s: System) {
    LocksMatch(s) && TestsStand(s) && Exclusive(s) && HoldersBusy(s)
  }

  /** Steps that clear the busy mark without being the holder. */
  predicate Clears(a: Action, k: Key) {
    match a
    case Upsert(key, p) => key == k && p.isBusy == Some(false)
    case Recover(key) => key == k
    case _ => false
  }

  /** The busy mark is only cleared from outside when the holder is gone. */
  ghost predicate Safe(s: System, a: Action) {
    forall k :: Clears(a, k) ==> !Held(s, k)
  }

  lemma StepKeepsInv(s: System, a: Action)
    requires Inv(s) && Enabled(s, a) && Safe(s, a)
    ensures Inv(Next(s, a))
  {
    StepKeepsLocks(s, a);
    StepKeepsTests(s, a);
    StepKeepsHolders(s, a);
  }

  lemma StepKeepsHolders(s: System, a: Action)
    requires Inv(s) && Enabled(s, a) && Safe(s, a)
    ensures Exclusive(Next(s, a)) && HoldersBusy(Next(s, a))
  {
    var t := Next(s, a);
    forall w | PhaseOf(t, w).Holding? ensures RowAt(t.rows, PhaseOf(t, w).key).isBusy {
      var k := PhaseOf(t, w).key;
      if PhaseOf(s, w) == Holding(k) {
        assert Held(s, k);
      }
    }
    if a.Commit? {
      var k := PhaseOf(s, a.w).key;
      assert Claimable(s.rows[k], s.now);
      assert forall w :: PhaseOf(s, w) == Holding(k) ==> RowAt(s.rows, k).isBusy;
    }
    forall v, w | PhaseOf(t, v).Holding? && PhaseOf(t, v) == PhaseOf(t, w) ensures v == w {
      assert PhaseOf(s, v) == PhaseOf(t, v) || (a.Commit? && a.w == v);
      assert PhaseOf(s, w) == PhaseOf(t, w) || (a.Commit? && a.w == w);
    }
  }

  ghost predicate SafeRun(s: System, acts: seq<Action>)
    requires Legal(s, acts)
    decreases acts
  {
    acts == [] || (Safe(s, acts[0]) && SafeRun(Next(s, acts[0]), acts[1..]))
  }

  lemma {:induction false} RunKeepsInv(s: System, acts: seq<Action>)
    requires Inv(s) && Legal(s, acts) && SafeRun(s, acts)
    ensures Inv(Exec(s, acts))
    decreases acts
  {
    if acts == [] {
    } else {
      StepKeepsInv(s, acts[0]);
      RunKeepsInv(Next(s, acts[0]), acts[1..]);
    }
  }

  /** Every run in which only holders and the recovery of dead holders clear the
      busy mark has at most one live holder for each mailbox. */
  lemma AtMostOneHolder(s: System, acts: seq<Action>, v: Worker, w: Worker, k: Key)
    requires Start(s) && Legal(s, acts) && SafeRun(s, acts)
    requires PhaseOf(Exec(s, acts), v) == Holding(k) && PhaseOf(Exec(s, acts), w) == Holding(k)
    ensures v == w
  {
    RunKeepsInv(s, acts);
  }

  // ---- what happens when the busy mark is cleared under a live holder -----

  /** No time stamp lies in the future. */
  ghost predicate ClockInv(s: System) {
    forall k :: k in s.rows ==>
      && (s.rows[k].lastSyncAt.Some? ==> s.rows[k].lastSyncAt.value <= s.now)
      && (s.rows[k].syncRequestedAt.Some? ==> s.rows[k].syncRequestedAt.value <= s.now)
  }

  lemma StepKeepsClock(s: System, a: Action)
    requires ClockInv(s) && Enabled(s, a)
    ensures ClockInv(Next(s, a))
  {
  }

  /** A sync request that leaves the busy mark alone. */
  const REQUEST := Patch(Some(true), None, true, true, None, false)

  /** The four steps of a claim that nobody disturbs. */
  function ClaimActs(w: Worker, k: Key): seq<Action> {
    [Lock(w, k)] + [Test(w), Write(w), Commit(w)]
  }

  lemma UndisturbedClaim(s: System, w: Worker, k: Key)
    requires PhaseOf(s, w) == Waiting && k !in s.locks && k in s.rows && Claimable(s.rows[k], s.now)
    ensures Legal(s, ClaimActs(w, k)) && SafeRun(s, ClaimActs(w, k)) && Claims(s, ClaimActs(w, k), k) == 1
    ensures Exec(s, ClaimActs(w, k)) == Enter(Put(s, k, ClaimedRow(s.rows[k], s.now)), w, Holding(k))
    ensures PhaseOf(Exec(s, ClaimActs(w, k)), w) == Holding(k)
    ensures forall v :: v != w ==> PhaseOf(Exec(s, ClaimActs(w, k)), v) == PhaseOf(s, v)
  {
    ClaimSteps(s, w, k);
    hide Claimable, ClaimedRow, Exec, Legal, Claims, SafeRun, Next, Enabled;
    RunOfFour(s, Lock(w, k), Test(w), Write(w), Commit(w));
  }

  lemma ClaimSteps(s: System, w: Worker, k: Key)
    requires PhaseOf(s, w) == Waiting && k !in s.locks && k in s.rows && Claimable(s.rows[k], s.now)
    ensures Enabled(s, Lock(w, k))
    ensures Enabled(Next(s, Lock(w, k)), Test(w))
    ensures Enabled(Next(Next(s, Lock(w, k)), Test(w)), Write(w))
    ensures var s3 := Next(Next(Next(s, Lock(w, k)), Test(w)), Write(w));
            && Enabled(s3, Commit(w)) && PhaseOf(s3, w) == Written(k)
            && Next(s3, Commit(w)) == Enter(Put(s, k, ClaimedRow(s.rows[k], s.now)), w, Holding(k))
  {
    hide Claimable, ClaimedRow;
    ClaimTests(s, w, k);
    var locked := s.(locks := s.locks[k := w]);
    var s3 := Next(Enter(locked, w, Tested(k)), Write(w));
    assert s3 == Enter(locked, w, Written(k));
    assert locked.locks - {k} == s.locks;
  }

  lemma ClaimTests(s: System, w: Worker, k: Key)
    requires PhaseOf(s, w) == Waiting && k !in s.locks && k in s.rows && Claimable(s.rows[k], s.now)
    ensures Enabled(Next(s, Lock(w, k)), Test(w))
    ensures Next(Next(s, Lock(w, k)), Test(w)) == Enter(s.(locks := s.locks[k := w]), w, Tested(k))
  {
    hide Claimable, ClaimedRow;
  }

  lemma RunOfFour(s: System, a: Action, b: Action, c: Action, d: Action)
    requires Enabled(s, a) && Enabled(Next(s, a), b) && !a.Commit? && !b.Commit? && !c.Commit? && d.Commit?
    requires Enabled(Next(Next(s, a), b), c) && Enabled(Next(Next(Next(s, a), b), c), d)
    requires forall k :: !Clears(a, k) && !Clears(b, k) && !Clears(c, k) && !Clears(d, k)
    ensures Legal(s, [a] + [b, c, d]) && SafeRun(s, [a] + [b, c, d])
    ensures Exec(s, [a] + [b, c, d]) == Next(Next(Next(Next(s, a), b), c), d)
    ensures forall k :: Claims(s, [a] + [b, c, d], k)
                        == if PhaseOf(Next(Next(Next(s, a), b), c), d.w).key == k then 1 else 0
  {
    hide Next, Enabled, Clears;
    var s1 := Next(s, a);
    var s2 := Next(s1, b);
    var s3 := Next(s2, c);
    RunStep(s3, d, []);
    assert [d] + [] == [d];
    RunStep(s2, c, [d]);
    assert [c] + [d] == [c, d];
    RunStep(s1, b, [c, d]);
    assert [b] + [c, d] == [b, c, d];
    RunStep(s, a, [b, c, d]);
  }

  lemma RunStep(s: System, a: Action, rest: seq<Action>)
    requires Enabled(s, a) && Legal(Next(s, a), rest)
    ensures Legal(s, [a] + rest) && Exec(s, [a] + rest) == Exec(Next(s, a), rest)
    ensures Safe(s, a) && SafeRun(Next(s, a), rest) ==> SafeRun(s, [a] + rest)
    ensures forall k :: Claims(s, [a] + rest, k)
                        == (if a.Commit? && PhaseOf(s, a.w).key == k then 1 else 0) + Claims(Next(s, a), rest, k)
  {
    assert ([a] + rest)[1..] == rest;
  }

  /** In every safe continuation a mailbox has at most one live holder. */
  ghost predicate StaysExclusive(s: System) {
    forall acts :: Legal(s, acts) && SafeRun(s, acts) ==> Exclusive(Exec(s, acts))
  }

  lemma ReclaimRun(s: System, k: Key, v: Worker) returns (acts: seq<Action>)
    requires ClockInv(s) && k !in s.locks && !RowAt(s.rows, k).isBusy && PhaseOf(s, v) == Waiting
    ensures Legal(s, acts) && SafeRun(s, acts)
    ensures PhaseOf(Exec(s, acts), v) == Holding(k)
    ensures forall w :: w != v ==> PhaseOf(Exec(s, acts), w) == PhaseOf(s, w)
  {
    var s1 := Next(s, Tick);
    var s2 := Next(s1, Upsert(k, REQUEST));
    assert Claimable(s2.rows[k], s2.now);
    UndisturbedClaim(s2, v, k);
    hide ClaimActs;
    RunStep(s1, Upsert(k, REQUEST), ClaimActs(v, k));
    RunStep(s, Tick, [Upsert(k, REQUEST)] + ClaimActs(v, k));
    acts := [Tick] + ([Upsert(k, REQUEST)] + ClaimActs(v, k));
  }

  /** Clearing the busy mark from outside is harmless exactly when the mailbox has
      no live holder: otherwise any waiting worker can become a second one. */
  lemma ClearingIsSafeIff(s: System, a: Action, k: Key, v: Worker)
    requires Inv(s) && ClockInv(s) && Enabled(s, a) && Clears(a, k) && PhaseOf(s, v) == Waiting
    ensures StaysExclusive(Next(s, a)) <==> !Held(s, k)
  {
    var t := Next(s, a);
    if Held(s, k) {
      var w :| PhaseOf(s, w) == Holding(k);
      StepKeepsClock(s, a);
      var acts := ReclaimRun(t, k, v);
      assert PhaseOf(t, w) == PhaseOf(s, w);
      assert !Exclusive(Exec(t, acts));
    } else {
      StepKeepsInv(s, a);
      forall acts | Legal(t, acts) && SafeRun(t, acts) ensures Exclusive(Exec(t, acts)) {
        RunKeepsInv(t, acts);
      }
    }
  }

  /** That goes for the sync route, for the activate route and for stale recovery. */
  lemma RoutesAreSafeIff(s: System, k: Key, v: Worker)
    requires Inv(s) && ClockInv(s) && k !in s.locks && PhaseOf(s, v) == Waiting
    ensures StaysExclusive(Next(s, Upsert(k, SYNC_PATCH))) <==> !Held(s, k)
    ensures StaysExclusive(Next(s, Upsert(k, ACTIVATE_PATCH))) <==> !Held(s, k)
    ensures StaysExclusive(Next(s, Recover(k))) <==> !Held(s, k)
  {
    ClearingIsSafeIff(s, Upsert(k, SYNC_PATCH), k, v);
    ClearingIsSafeIff(s, Upsert(k, ACTIVATE_PATCH), k, v);
    ClearingIsSafeIff(s, Recover(k), k, v);
  }

  /** The request that a live holder works on is still open. */
  ghost predicate HoldersPending(s: System) {
    forall w :: PhaseOf(s, w).Holding? ==> Pending(RowAt(s.rows, PhaseOf(s, w).key))
  }

  lemma StepKeepsPending(s: System, a: Action)
    requires Inv(s) && ClockInv(s) && HoldersPending(s) && Enabled(s, a) && Safe(s, a)
    ensures HoldersPending(Next(s, a))
  {
    var t := Next(s, a);
    forall w | PhaseOf(t, w).Holding? ensures Pending(RowAt(t.rows, PhaseOf(t, w).key)) {
      var k := PhaseOf(t, w).key;
      if PhaseOf(s, w) == Holding(k) {
        assert Held(s, k);
        assert Pending(RowAt(s.rows, k)) && RowAt(s.rows, k).isBusy;
        PendingStays(s, a, k);
      }
    }
  }

  /** So in every safe run the request of a live holder is open. */
  lemma {:induction false} RunKeepsPending(s: System, acts: seq<Action>)
    requires Inv(s) && ClockInv(s) && HoldersPending(s) && Legal(s, acts) && SafeRun(s, acts)
    ensures Inv(Exec(s, acts)) && ClockInv(Exec(s, acts)) && HoldersPending(Exec(s, acts))
    decreases acts
  {
    hide Inv, ClockInv, HoldersPending, Safe;
    if acts == [] {
    } else {
      StepKeepsInv(s, acts[0]);
      StepKeepsClock(s, acts[0]);
      StepKeepsPending(s, acts[0]);
      RunKeepsPending(Next(s, acts[0]), acts[1..]);
    }
  }

  /** Only the end of a sync closes a request. */
  lemma PendingStays(s: System, a: Action, k: Key)
    requires ClockInv(s) && Enabled(s, a) && k in s.rows && Pending(s.rows[k])
    requires !((a.Complete? || a.Fail?) && PhaseOf(s, a.w) == Holding(k))
    ensures k in Next(s, a).rows && Pending(Next(s, a).rows[k])
  {
  }

  /** After either route, and after recovery of an active row, a second holder does
      not even need a new request: the next claim gets the mailbox. */
  lemma NextClaimIsSecond(s: System, a: Action, k: Key, v: Worker)
    requires Inv(s) && ClockInv(s) && HoldersPending(s) && Held(s, k) && k !in s.locks && PhaseOf(s, v) == Waiting
    requires a == Upsert(k, SYNC_PATCH) || a == Upsert(k, ACTIVATE_PATCH) || (a == Recover(k) && RowAt(s.rows, k).isActive)
    ensures Legal(Next(s, a), ClaimActs(v, k)) && SafeRun(Next(s, a), ClaimActs(v, k))
    ensures !Exclusive(Exec(Next(s, a), ClaimActs(v, k)))
  {
    var t := Next(s, a);
    var w :| PhaseOf(s, w) == Holding(k);
    PendingStays(s, a, k);
    assert Claimable(t.rows[k], t.now);
    assert PhaseOf(t, w) == Holding(k) && PhaseOf(t, v) == Waiting;
    hide Claimable, ClaimActs, Next;
    UndisturbedClaim(t, v, k);
  }

  // ---- the timed lease ------------------------------------------------------

  /** Every live holder has written its row at most `limit` ago. */
  ghost predicate Timely(s: System, limit: nat) {
    forall w :: PhaseOf(s, w).Holding? ==>
      var row := RowAt(s.rows, PhaseOf(s, w).key);
      row.updatedAt.Some? && s.now <= row.updatedAt.value + limit
  }

  ghost predicate TimelyRun(s: System, acts: seq<Action>, limit: nat)
    requires Legal(s, acts)
    decreases acts
  {
    Timely(s, limit) && (acts == [] || TimelyRun(Next(s, acts[0]), acts[1..], limit))
  }

  function StaleKeys(s: System): set<Key> {
    set k | k in s.rows && Stale(s.rows[k], s.now)
  }

  /** Recovery writes the row of a mailbox that is or was `seen` stale, and the
      routes clear no mark of a live holder. */
  ghost predicate Checked(s: System, a: Action, seen: set<Key>) {
    (a.Recover? ==> a.k in StaleKeys(s) + seen) && (!a.Recover? ==> Safe(s, a))
  }

  /** Recovery looks at the row as it is when it writes. */
  ghost predicate CheckedRun(s: System, acts: seq<Action>)
    requires Legal(s, acts)
    decreases acts
  {
    acts == [] || (Checked(s, acts[0], {}) && CheckedRun(Next(s, acts[0]), acts[1..]))
  }

  /** Recovery may also have looked earlier, as the source does: it reads a list of
      rows and writes them one after the other. */
  ghost predicate LookedRun(s: System, acts: seq<Action>, seen: set<Key>)
    requires Legal(s, acts)
    decreases acts
  {
    acts == [] || (Checked(s, acts[0], seen) && LookedRun(Next(s, acts[0]), acts[1..], seen + StaleKeys(s)))
  }

  lemma {:induction false} TimelyRunsAreSafe(s: System, acts: seq<Action>, limit: nat)
    requires Legal(s, acts) && CheckedRun(s, acts) && TimelyRun(s, acts, limit) && limit <= CUTOFF
    ensures SafeRun(s, acts)
    decreases acts
  {
    if acts == [] {
    } else {
      TimelyStepIsSafe(s, acts[0], limit);
      TimelyRunsAreSafe(Next(s, acts[0]), acts[1..], limit);
    }
  }

  lemma TimelyStepIsSafe(s: System, a: Action, limit: nat)
    requires Enabled(s, a) && Checked(s, a, {}) && Timely(s, limit) && limit <= CUTOFF
    ensures Safe(s, a)
  {
    if a.Recover? {
      assert Stale(s.rows[a.k], s.now);
      forall k | Clears(a, k) ensures !Held(s, k) {
        assert k == a.k;
      }
    }
  }

  function Ticks(n: nat): seq<Action> {
    if n == 0 then [] else [Tick] + Ticks(n - 1)
  }

  lemma {:induction false} TicksOnlyAge(s: System, n: nat, limit: nat)
    requires Timely(s.(now := s.now + n), limit)
    ensures Legal(s, Ticks(n)) && Exec(s, Ticks(n)) == s.(now := s.now + n)
    ensures CheckedRun(s, Ticks(n)) && TimelyRun(s, Ticks(n), limit)
    decreases n
  {
    assert Timely(s, limit) by {
      Earlier(s, n, limit);
    }
    if n == 0 {
    } else {
      TicksOnlyAge(Next(s, Tick), n - 1, limit);
      GuardStep(s, Tick, Ticks(n - 1), limit, {});
      RunStep(s, Tick, Ticks(n - 1));
    }
  }

  lemma Earlier(s: System, n: nat, limit: nat)
    requires Timely(s.(now := s.now + n), limit)
    ensures Timely(s, limit)
  {
    var t := s.(now := s.now + n);
    forall w | PhaseOf(s, w).Holding?
      ensures var row := RowAt(s.rows, PhaseOf(s, w).key); row.updatedAt.Some? && s.now <= row.updatedAt.value + limit
    {
      assert PhaseOf(t, w) == PhaseOf(s, w);
    }
  }

  lemma GuardStep(s: System, a: Action, rest: seq<Action>, limit: nat, seen: set<Key>)
    requires Enabled(s, a) && Legal(Next(s, a), rest) && Timely(s, limit) && TimelyRun(Next(s, a), rest, limit)
    ensures Legal(s, [a] + rest) && TimelyRun(s, [a] + rest, limit)
    ensures Checked(s, a, {}) && CheckedRun(Next(s, a), rest) ==> CheckedRun(s, [a] + rest)
    ensures Checked(s, a, seen) && LookedRun(Next(s, a), rest, seen + StaleKeys(s)) ==> LookedRun(s, [a] + rest, seen)
  {
    assert ([a] + rest)[1..] == rest;
  }

  lemma {:induction false} GuardAppend(s: System, a: seq<Action>, b: seq<Action>, limit: nat)
    requires Legal(s, a) && Legal(Exec(s, a), b) && TimelyRun(s, a, limit) && TimelyRun(Exec(s, a), b, limit)
    ensures Legal(s, a + b) && TimelyRun(s, a + b, limit)
    ensures CheckedRun(s, a) && CheckedRun(Exec(s, a), b) ==> CheckedRun(s, a + b)
    decreases a
  {
    hide Timely, Checked;
    if a == [] {
      assert a + b == b;
    } else {
      GuardAppend(Next(s, a[0]), a[1..], b, limit);
      assert a + b == [a[0]] + (a[1..] + b);
      GuardStep(s, a[0], a[1..] + b, limit, {});
    }
  }

  lemma {:induction false} LookedAppend(s: System, a: seq<Action>, b: seq<Action>, seen: set<Key>)
    requires Legal(s, a) && Legal(Exec(s, a), b) && LookedRun(s, a, seen) && LookedRun(Exec(s, a), b, seen)
    ensures Legal(s, a + b) && LookedRun(s, a + b, seen)
    decreases a
  {
    hide Checked, StaleKeys;
    RunAppend(s, a, b);
    if a == [] {
      assert a + b == b;
    } else {
      SeenMore(Exec(s, a), b, seen, seen + StaleKeys(s));
      LookedAppend(Next(s, a[0]), a[1..], b, seen + StaleKeys(s));
      assert (a + b)[0] == a[0] && (a + b)[1..] == a[1..] + b;
    }
  }

  lemma {:induction false} SeenMore(s: System, acts: seq<Action>, seen: set<Key>, more: set<Key>)
    requires Legal(s, acts) && LookedRun(s, acts, seen) && seen <= more
    ensures LookedRun(s, acts, more)
    decreases acts
  {
    if acts == [] {
    } else {
      SeenMore(Next(s, acts[0]), acts[1..], seen + StaleKeys(s), more + StaleKeys(s));
    }
  }

  /** Steps of workers only are always checked. */
  lemma {:induction false} WorkersAreChecked(s: System, acts: seq<Action>, seen: set<Key>)
    requires Legal(s, acts) && forall a :: a in acts ==> !a.Recover? && !a.Upsert?
    ensures CheckedRun(s, acts) && LookedRun(s, acts, seen)
    decreases acts
  {
    hide StaleKeys;
    if acts == [] {
    } else {
      assert acts[0] in acts && forall a :: a in acts[1..] ==> a in acts;
      WorkersAreChecked(Next(s, acts[0]), acts[1..], seen + StaleKeys(s));
    }
  }

  /** A claim keeps the run timely, and needs no recovery. */
  lemma TimelyClaim(s: System, w: Worker, k: Key, limit: nat, seen: set<Key>)
    requires PhaseOf(s, w) == Waiting && k !in s.locks && k in s.rows && Claimable(s.rows[k], s.now) && Timely(s, limit)
    ensures Legal(s, ClaimActs(w, k)) && TimelyRun(s, ClaimActs(w, k), limit)
    ensures CheckedRun(s, ClaimActs(w, k)) && LookedRun(s, ClaimActs(w, k), seen)
    ensures Timely(Exec(s, ClaimActs(w, k)), limit)
  {
    UndisturbedClaim(s, w, k);
    ClaimSteps(s, w, k);
    assert ClaimActs(w, k) == [Lock(w, k), Test(w), Write(w), Commit(w)];
    WorkersAreChecked(s, ClaimActs(w, k), seen);
    ClaimIsTimely(s, w, k, limit);
    hide Next, Enabled, Timely, Claimable, ClaimedRow, Legal, CheckedRun, LookedRun, Exec;
    TimelyOfFour(s, Lock(w, k), Test(w), Write(w), Commit(w), limit);
  }

  lemma ClaimIsTimely(s: System, w: Worker, k: Key, limit: nat)
    requires PhaseOf(s, w) == Waiting && k !in s.locks && k in s.rows && Claimable(s.rows[k], s.now) && Timely(s, limit)
    ensures var s1 := Next(s, Lock(w, k));
            && Timely(s1, limit) && Enabled(s1, Test(w))
            && var s2 := Next(s1, Test(w));
               && Timely(s2, limit) && Enabled(s2, Write(w))
               && var s3 := Next(s2, Write(w));
                  Timely(s3, limit) && Enabled(s3, Commit(w)) && Timely(Next(s3, Commit(w)), limit)
  {
    ClaimSteps(s, w, k);
    var s1 := Next(s, Lock(w, k));
    var s2 := Next(s1, Test(w));
    var s3 := Next(s2, Write(w));
    TimelyClaimed(s, w, k, limit);
    hide Timely, Claimable, ClaimedRow;
    TimelyUnheld(s, s1, w, limit);
    TimelyUnheld(s1, s2, w, limit);
    TimelyUnheld(s2, s3, w, limit);
  }

  lemma TimelyOfFour(s: System, a: Action, b: Action, c: Action, d: Action, limit: nat)
    requires Enabled(s, a) && Enabled(Next(s, a), b)
    requires Enabled(Next(Next(s, a), b), c) && Enabled(Next(Next(Next(s, a), b), c), d)
    requires Timely(s, limit) && Timely(Next(s, a), limit) && Timely(Next(Next(s, a), b), limit)
    requires Timely(Next(Next(Next(s, a), b), c), limit) && Timely(Next(Next(Next(Next(s, a), b), c), d), limit)
    ensures Legal(s, [a] + [b, c, d]) && TimelyRun(s, [a] + [b, c, d], limit)
  {
    hide Next, Enabled, Timely;
    var s1 := Next(s, a);
    var s2 := Next(s1, b);
    var s3 := Next(s2, c);
    GuardStep(s3, d, [], limit, {});
    assert [d] + [] == [d];
    GuardStep(s2, c, [d], limit, {});
    assert [c] + [d] == [c, d];
    GuardStep(s1, b, [c, d], limit, {});
    assert [b] + [c, d] == [b, c, d];
    GuardStep(s, a, [b, c, d], limit, {});
  }

  lemma TimelyUnheld(s: System, t: System, w: Worker, limit: nat)
    requires Timely(s, limit) && t.rows == s.rows && t.now == s.now && !PhaseOf(t, w).Holding?
    requires forall v :: v != w ==> PhaseOf(t, v) == PhaseOf(s, v)
    ensures Timely(t, limit)
  {
  }

  lemma TimelyClaimed(s: System, w: Worker, k: Key, limit: nat)
    requires Timely(s, limit) && k in s.rows && !s.rows[k].isBusy
    ensures Timely(Enter(Put(s, k, ClaimedRow(s.rows[k], s.now)), w, Holding(k)), limit)
  {
    var t := Enter(Put(s, k, ClaimedRow(s.rows[k], s.now)), w, Holding(k));
    forall v | PhaseOf(t, v).Holding?
      ensures var row := RowAt(t.rows, PhaseOf(t, v).key); row.updatedAt.Some? && t.now <= row.updatedAt.value + limit
    {
      assert v != w ==> PhaseOf(t, v) == PhaseOf(s, v);
    }
  }

  /** A recovered row can be claimed at once. */
  lemma RecoveryOpens(s: System, k: Key, limit: nat)
    requires k !in s.locks && k in s.rows && s.rows[k].isActive && Pending(s.rows[k]) && Timely(s, limit)
    ensures var t := Next(s, Recover(k));
            && Timely(t, limit) && t.locks == s.locks && t.phases == s.phases && t.now == s.now
            && k in t.rows && Claimable(t.rows[k], t.now)
  {
    var t := Next(s, Recover(k));
    forall v | PhaseOf(t, v).Holding?
      ensures var row := RowAt(t.rows, PhaseOf(t, v).key); row.updatedAt.Some? && t.now <= row.updatedAt.value + limit
    {
      assert PhaseOf(t, v) == PhaseOf(s, v);
    }
  }

  /** Recovery of a row and a claim of it by the worker. */
  function Takeover(w: Worker, k: Key): seq<Action> {
    [Recover(k)] + ClaimActs(w, k)
  }

  lemma TakeoverRun(s: System, w: Worker, k: Key, limit: nat, seen: set<Key>)
    requires k !in s.locks && k in s.rows && s.rows[k].isActive && Pending(s.rows[k])
    requires PhaseOf(s, w) == Waiting && Timely(s, limit)
    ensures Legal(s, Takeover(w, k)) && TimelyRun(s, Takeover(w, k), limit)
    ensures k in StaleKeys(s) ==> CheckedRun(s, Takeover(w, k))
    ensures k in StaleKeys(s) + seen ==> LookedRun(s, Takeover(w, k), seen)
    ensures var t := Exec(s, Takeover(w, k));
            && Timely(t, limit) && t.locks == s.locks && PhaseOf(t, w) == Holding(k)
            && (forall v :: v != w ==> PhaseOf(t, v) == PhaseOf(s, v))
            && k in t.rows && t.rows[k].isActive && Pending(t.rows[k])
  {
    RecoveryOpens(s, k, limit);
    var t := Next(s, Recover(k));
    TimelyClaim(t, w, k, limit, seen + StaleKeys(s));
    UndisturbedClaim(t, w, k);
    assert Checked(s, Recover(k), {}) <==> k in StaleKeys(s);
    assert Checked(s, Recover(k), seen) <==> k in StaleKeys(s) + seen;
    hide Timely, Checked, ClaimActs, Next, Legal, CheckedRun, LookedRun, TimelyRun, Exec, StaleKeys;
    GuardStep(s, Recover(k), ClaimActs(w, k), limit, {});
    GuardStep(s, Recover(k), ClaimActs(w, k), limit, seen);
    RunStep(s, Recover(k), ClaimActs(w, k));
  }

  /** A mailbox that waits to be claimed, and nobody at work. */
  function Idling(k: Key, row: Row, now: nat): System {
    System(map[k := row], map[], map[], now)
  }

  const WAITING_ROW := Row(true, false, Some(1), None, None, Queued, None, Some(1))
  const DEAD_ROW := Row(true, true, Some(1), None, None, Syncing, None, Some(1))

  /** One worker that takes longer than the cutoff loses its mailbox to another. */
  function SlowSync(k: Key): seq<Action> {
    ClaimActs(0, k) + (Ticks(CUTOFF + 1) + Takeover(1, k))
  }

  lemma SlowSyncBreaksLease(k: Key, limit: nat)
    requires limit > CUTOFF
    ensures var s := Idling(k, WAITING_ROW, 1);
            Legal(s, SlowSync(k)) && CheckedRun(s, SlowSync(k)) && TimelyRun(s, SlowSync(k), limit)
            && !Exclusive(Exec(s, SlowSync(k)))
  {
    var s := Idling(k, WAITING_ROW, 1);
    UndisturbedClaim(s, 0, k);
    TimelyClaim(s, 0, k, limit, {});
    var s1 := Exec(s, ClaimActs(0, k));
    var s2 := s1.(now := s1.now + (CUTOFF + 1));
    HeldForLong(k, s1, s2, limit);
    hide Ticks, Takeover, ClaimActs, Timely, Exec, Legal, CheckedRun, TimelyRun, StaleKeys, Checked, Next, Pending;
    TicksOnlyAge(s1, CUTOFF + 1, limit);
    TakeoverRun(s2, 1, k, limit, {});
    GuardAppend(s1, Ticks(CUTOFF + 1), Takeover(1, k), limit);
    RunAppend(s1, Ticks(CUTOFF + 1), Takeover(1, k));
    GuardAppend(s, ClaimActs(0, k), Ticks(CUTOFF + 1) + Takeover(1, k), limit);
    RunAppend(s, ClaimActs(0, k), Ticks(CUTOFF + 1) + Takeover(1, k));
  }

  lemma HeldForLong(k: Key, s1: System, s2: System, limit: nat)
    requires limit > CUTOFF
    requires s1 == Enter(Put(Idling(k, WAITING_ROW, 1), k, ClaimedRow(WAITING_ROW, 1)), 0, Holding(k))
    requires s2 == s1.(now := s1.now + (CUTOFF + 1))
    ensures PhaseOf(s2, 0) == Holding(k) && PhaseOf(s2, 1) == Waiting && Timely(s2, limit)
    ensures k in s2.rows && s2.rows[k].isActive && Pending(s2.rows[k]) && k in StaleKeys(s2) && k !in s2.locks
  {
    assert forall w :: w != 0 ==> PhaseOf(s2, w) == Waiting;
  }

  /** When recovery looks at the row as it writes, no run has two live holders of a
      mailbox exactly when no sync leaves its row unwritten for longer than the
      cutoff. */
  lemma TimedLeaseIff(limit: nat)
    ensures (forall s, acts :: Start(s) && Legal(s, acts) && CheckedRun(s, acts) && TimelyRun(s, acts, limit)
                               ==> Exclusive(Exec(s, acts)))
            <==> limit <= 15 * 60
  {
    if limit <= CUTOFF {
      forall s, acts | Start(s) && Legal(s, acts) && CheckedRun(s, acts) && TimelyRun(s, acts, limit)
        ensures Exclusive(Exec(s, acts))
      {
        TimelyRunsAreSafe(s, acts, limit);
        RunKeepsInv(s, acts);
      }
    } else {
      SlowSyncBreaksLease(Key("", ""), limit);
    }
  }

  /** When it may have looked earlier, no bound on the syncs is short enough: of two
      workers that have seen the row of a dead one, each recovers and claims it. */
  lemma EarlyLookBreaksLease(k: Key, limit: nat)
    ensures var s, acts := Idling(k, DEAD_ROW, CUTOFF + 2), Takeover(0, k) + Takeover(1, k);
            && Start(s) && Legal(s, acts) && LookedRun(s, acts, {}) && TimelyRun(s, acts, limit)
            && !Exclusive(Exec(s, acts))
  {
    var s := Idling(k, DEAD_ROW, CUTOFF + 2);
    assert k in StaleKeys(s);
    assert forall w :: PhaseOf(s, w) == Waiting;
    hide Takeover, Timely, Exec, Legal, LookedRun, TimelyRun, StaleKeys, Checked, Next, Pending;
    TakeoverRun(s, 0, k, limit, {k});
    var t := Exec(s, Takeover(0, k));
    TakeoverRun(t, 1, k, limit, {k});
    GuardAppend(s, Takeover(0, k), Takeover(1, k), limit);
    RunAppend(s, Takeover(0, k), Takeover(1, k));
    LookedAppend(s, Takeover(0, k), Takeover(1, k), {k});
    SeenAtOnce(s, Takeover(0, k) + Takeover(1, k), k);
  }

  /** What is stale now need not have been seen before. */
  lemma SeenAtOnce(s: System, acts: seq<Action>, k: Key)
    requires Legal(s, acts) && LookedRun(s, acts, {k}) && k in StaleKeys(s)
    ensures LookedRun(s, acts, {})
  {
    assert {k} + StaleKeys(s) == {} + StaleKeys(s);
  }

  // ---- a holder that dies ---------------------------------------------------

  /** The row is marked busy and nobody alive holds it. */
  ghost predicate Orphaned(s: System, k: Key) {
    RowAt(s.rows, k).isBusy && !Held(s, k)
  }

  lemma StepKeepsOrphan(s: System, a: Action, k: Key)
    requires LocksMatch(s) && TestsStand(s) && Enabled(s, a) && Orphaned(s, k) && !Clears(a, k)
    ensures Orphaned(Next(s, a), k)
  {
    var t := Next(s, a);
    forall w ensures PhaseOf(t, w) != Holding(k) {
      assert PhaseOf(s, w) != Holding(k);
      assert PhaseOf(s, w) == Written(k) ==> Claimable(s.rows[k], s.now);
    }
  }

  /** Recovery is needed: while nobody clears the mark of a dead holder, no worker
      ever gets the mailbox again, whatever is requested. */
  lemma {:induction false} OrphanStaysOrphan(s: System, acts: seq<Action>, k: Key)
    requires LocksMatch(s) && TestsStand(s) && Orphaned(s, k)
    requires Legal(s, acts) && forall a :: a in acts ==> !Clears(a, k)
    ensures Orphaned(Exec(s, acts), k)
    decreases acts
  {
    if acts == [] {
    } else {
      assert acts[0] in acts && forall a :: a in acts[1..] ==> a in acts;
      StepKeepsLocks(s, acts[0]);
      StepKeepsTests(s, acts[0]);
      StepKeepsOrphan(s, acts[0], k);
      OrphanStaysOrphan(Next(s, acts[0]), acts[1..], k);
    }
  }

  /** Recovery is enough: after it any waiting worker can claim the request the
      dead holder left behind. */
  lemma RecoveryFreesOrphan(s: System, k: Key, v: Worker)
    requires Inv(s) && Orphaned(s, k) && k in s.rows && k !in s.locks && PhaseOf(s, v) == Waiting
    requires s.rows[k].isActive && Pending(s.rows[k])
    ensures var acts := [Recover(k)] + ClaimActs(v, k);
            Legal(s, acts) && SafeRun(s, acts) && PhaseOf(Exec(s, acts), v) == Holding(k)
  {
    var t := Next(s, Recover(k));
    UndisturbedClaim(t, v, k);
    RunStep(s, Recover(k), ClaimActs(v, k));
  }

  // ---- the claim is atomic ------------------------------------------------

  /** The table and its workers when a whole claim is one step. */
  datatype Atomic = Atomic(rows: Table, workers: map<Worker, Phase>, now: nat)

  datatype AtomicAction =
    | Nothing
    | Time
    | Claim(w: Worker, k: Key)
    | Finish(w: Worker)
    | GiveUp(w: Worker, message: Option<string>)
    | Die(w: Worker)
    | Change(k: Key, p: Patch)
    | Reset(k: Key)

  predicate AtomicEnabled(s: Atomic, a: AtomicAction) {
    match a
    case Claim(w, k) => w !in s.workers && k in s.rows && Claimable(s.rows[k], s.now)
    case Finish(w) => w in s.workers && s.workers[w].Holding?
    case GiveUp(w, _) => w in s.workers && s.workers[w].Holding?
    case Die(w) => w in s.workers ==> s.workers[w].Holding?
    case _ => true
  }

  function AtomicNext(s: Atomic, a: AtomicAction): Atomic
    requires AtomicEnabled(s, a)
  {
    match a
    case Nothing => s
    case Time => s.(now := s.now + 1)
    case Claim(w, k) => s.(rows := s.rows[k := ClaimedRow(s.rows[k], s.now)], workers := s.workers[w := Holding(k)])
    case Finish(w) =>
      var k := s.workers[w].key;
      s.(rows := AfterComplete(s.rows, k, s.now), workers := s.workers - {w})
    case GiveUp(w, message) =>
      var k := s.workers[w].key;
      s.(rows := AfterFail(s.rows, k, s.now, message), workers := s.workers - {w})
    case Die(w) => s.(workers := s.workers[w := Crashed])
    case Change(k, p) => s.(rows := AfterUpsert(s.rows, k, p, s.now))
    case Reset(k) => s.(rows := AfterRecover(s.rows, k, s.now))
  }

  function Visible(phases: map<Worker, Phase>): map<Worker, Phase> {
    map w | w in phases && (phases[w].Holding? || phases[w].Crashed?) :: phases[w]
  }

  lemma VisibleUpdate(phases: map<Worker, Phase>, w: Worker, ph: Phase)
    ensures Visible(phases[w := ph])
            == if ph.Holding? || ph.Crashed? then Visible(phases)[w := ph] else Visible(phases) - {w}
  {
  }

  lemma VisibleSame(phases: map<Worker, Phase>, w: Worker)
    requires w in phases ==> !phases[w].Holding? && !phases[w].Crashed?
    ensures Visible(phases) - {w} == Visible(phases)
  {
  }

  /** What the outside sees: committed rows, live holders and dead workers. */
  function View(s: System): Atomic {
    Atomic(s.rows, Visible(s.phases), s.now)
  }

  /** A claim takes effect at its commit; its other steps are invisible. */
  function Seen(s: System, a: Action): AtomicAction
    requires Enabled(s, a)
  {
    match a
    case Tick => Time
    case Commit(w) => Claim(w, PhaseOf(s, w).key)
    case Complete(w) => Finish(w)
    case Fail(w, message) => GiveUp(w, message)
    case Crash(w) => Die(w)
    case Upsert(k, p) => Change(k, p)
    case Recover(k) => Reset(k)
    case _ => Nothing
  }

  /** Every step under the row lock is an allowed step of the atomic machine,
      clearing steps included. */
  lemma StepIsAtomic(s: System, a: Action)
    requires LocksMatch(s) && TestsStand(s) && Enabled(s, a)
    ensures AtomicEnabled(View(s), Seen(s, a))
    ensures AtomicNext(View(s), Seen(s, a)) == View(Next(s, a))
  {
    SeenEnabled(s, a);
    hide CompletedRow, FailedRow, RecoveredRow, PatchedRow, ClaimedRow, Claimable, LocksMatch, TestsStand;
    hide Visible;
    if !a.Tick? && !a.Upsert? && !a.Recover? {
      VisibleUpdate(s.phases, a.w, PhaseOf(Next(s, a), a.w));
      if a.Lock? || a.Test? || a.Write? || a.Rollback? {
        VisibleSame(s.phases, a.w);
      }
    }
  }

  lemma SeenEnabled(s: System, a: Action)
    requires LocksMatch(s) && TestsStand(s) && Enabled(s, a)
    ensures AtomicEnabled(View(s), Seen(s, a))
    ensures a.Commit? ==> PhaseOf(s, a.w).key in s.rows
  {
  }

  ghost predicate AtomicRun(s: Atomic, t: Atomic, acts: seq<AtomicAction>)
    decreases acts
  {
    if acts == [] then s == t
    else AtomicEnabled(s, acts[0]) && AtomicRun(AtomicNext(s, acts[0]), t, acts[1..])
  }

  /** What is seen of each step of a run. */
  function SeenRun(s: System, acts: seq<Action>): seq<AtomicAction>
    requires Legal(s, acts)
    decreases acts
  {
    if acts == [] then [] else [Seen(s, acts[0])] + SeenRun(Next(s, acts[0]), acts[1..])
  }

  function AtomicClaims(acts: seq<AtomicAction>, k: Key): nat {
    if acts == [] then 0 else (if acts[0].Claim? && acts[0].k == k then 1 else 0) + AtomicClaims(acts[1..], k)
  }

  /** So every interleaving of the steps of many claims looks like a run in which
      claims are atomic: the one that shows each step as it is seen, with the same
      number of claims of every mailbox. */
  lemma {:induction false} RunsAreAtomic(s: System, acts: seq<Action>)
    requires LocksMatch(s) && TestsStand(s) && Legal(s, acts)
    ensures AtomicRun(View(s), View(Exec(s, acts)), SeenRun(s, acts))
    ensures forall k :: AtomicClaims(SeenRun(s, acts), k) == Claims(s, acts, k)
    decreases acts
  {
    if acts == [] {
    } else {
      StepKeepsLocks(s, acts[0]);
      StepKeepsTests(s, acts[0]);
      StepIsAtomic(s, acts[0]);
      RunsAreAtomic(Next(s, acts[0]), acts[1..]);
      hide LocksMatch, TestsStand, AtomicNext, AtomicEnabled, View, Next;
      assert SeenRun(s, acts)[1..] == SeenRun(Next(s, acts[0]), acts[1..]);
    }
  }

  // ---- claims and requests -------------------------------------------------

  function Requests(acts: seq<Action>, k: Key): nat {
    if acts == [] then 0
    else (if acts[0].Upsert? && acts[0].k == k && acts[0].p.requested then 1 else 0) + Requests(acts[1..], k)
  }

  /** Nobody clears the busy mark of the mailbox without asking for a sync. */
  ghost predicate OnlyRequestsClear(acts: seq<Action>, k: Key) {
    forall i :: 0 <= i < |acts| && Clears(acts[i], k) ==> acts[i].Upsert? && acts[i].p.requested
  }

  /** A sync that has been asked for and not been claimed. */
  function Open(s: System, k: Key): nat {
    if k in s.rows && !s.rows[k].isBusy && Pending(s.rows[k]) then 1 else 0
  }

  lemma StepUsesRequests(s: System, a: Action, k: Key)
    requires LocksMatch(s) && TestsStand(s) && ClockInv(s) && Enabled(s, a)
    requires Clears(a, k) ==> a.Upsert? && a.p.requested
    ensures Open(Next(s, a), k) + (if a.Commit? && PhaseOf(s, a.w).key == k then 1 else 0)
            <= Open(s, k) + if a.Upsert? && a.k == k && a.p.requested then 1 else 0
  {
  }

  /** Complete and fail both use up the request, and a request made during a sync
      is used up with it: a mailbox is never claimed more often than it was
      asked for, even by upserts that clear the busy mark with each request. */
  lemma {:induction false} ClaimsNeedRequests(s: System, acts: seq<Action>, k: Key)
    requires LocksMatch(s) && TestsStand(s) && ClockInv(s) && Legal(s, acts) && OnlyRequestsClear(acts, k)
    ensures Claims(s, acts, k) <= Open(s, k) + Requests(acts, k)
    decreases acts
  {
    if acts == [] {
    } else {
      StepKeepsLocks(s, acts[0]);
      StepKeepsTests(s, acts[0]);
      StepKeepsClock(s, acts[0]);
      StepUsesRequests(s, acts[0], k);
      assert Clears(acts[0], k) ==> acts[0].Upsert? && acts[0].p.requested;
      assert forall i :: 0 <= i < |acts[1..]| ==> acts[1..][i] == acts[i + 1];
      ClaimsNeedRequests(Next(s, acts[0]), acts[1..], k);
    }
  }

  /** Clearing the busy mark without asking for a sync breaks that bound: after an
      activation or a recovery under a live holder the same request is claimed a
      second time. */
  lemma OneRequestClaimedTwice(s: System, k: Key, v: Worker, w: Worker, a: Action)
    requires v != w && PhaseOf(s, v) == Waiting && PhaseOf(s, w) == Waiting
    requires k !in s.locks && k in s.rows && Claimable(s.rows[k], s.now)
    requires a == Upsert(k, ACTIVATE_PATCH) || a == Recover(k)
    ensures var acts := ClaimActs(w, k) + ([a] + ClaimActs(v, k));
            && Legal(s, acts) && Requests(acts, k) == 0
            && Open(s, k) == 1 && Claims(s, acts, k) == 2 && !Exclusive(Exec(s, acts))
  {
    UndisturbedClaim(s, w, k);
    SecondClaimIsOpen(s, k, v, w, a);
    var s1 := Enter(Put(s, k, ClaimedRow(s.rows[k], s.now)), w, Holding(k));
    var s2 := Next(s1, a);
    UndisturbedClaim(s2, v, k);
    ClaimsAskNothing(k, v, w, a);
    hide Exec, Legal, Claims, Claimable, ClaimedRow, Next, Enabled, Requests, Safe, SafeRun;
    RunStep(s1, a, ClaimActs(v, k));
    RunAppend(s, ClaimActs(w, k), [a] + ClaimActs(v, k));
  }

  lemma ClaimsAskNothing(k: Key, v: Worker, w: Worker, a: Action)
    requires !(a.Upsert? && a.p.requested)
    ensures Requests(ClaimActs(w, k) + ([a] + ClaimActs(v, k)), k) == 0
  {
    NoRequests(ClaimActs(w, k) + ([a] + ClaimActs(v, k)), k);
  }

  lemma SecondClaimIsOpen(s: System, k: Key, v: Worker, w: Worker, a: Action)
    requires v != w && PhaseOf(s, v) == Waiting
    requires k !in s.locks && k in s.rows && Claimable(s.rows[k], s.now)
    requires a == Upsert(k, ACTIVATE_PATCH) || a == Recover(k)
    ensures var s1 := Enter(Put(s, k, ClaimedRow(s.rows[k], s.now)), w, Holding(k));
            && Enabled(s1, a)
            && var s2 := Next(s1, a);
               && PhaseOf(s2, v) == Waiting && PhaseOf(s2, w) == Holding(k)
               && k !in s2.locks && k in s2.rows && Claimable(s2.rows[k], s2.now)
    ensures Open(s, k) == 1
  {
    StaysClaimable(s.rows[k], s.now);
    hide Claimable, ClaimedRow, PatchedRow, RecoveredRow;
  }

  /** An upsert that makes the mailbox active and open to claims, and asks for nothing. */
  const WAKE := Patch(Some(true), None, false, true, None, false)

  function TwoClaims(k: Key, a: Action): seq<Action> {
    ClaimActs(0, k) + ([a] + ([Upsert(k, WAKE)] + ClaimActs(1, k)))
  }

  lemma ClearedClaimsTwice(k: Key, a: Action)
    requires Clears(a, k) && !(a.Upsert? && a.p.requested)
    ensures var s := Idling(k, WAITING_ROW, 1);
            && Legal(s, TwoClaims(k, a)) && Claims(s, TwoClaims(k, a), k) == 2
            && Open(s, k) == 1 && Requests(TwoClaims(k, a), k) == 0
  {
    var s := Idling(k, WAITING_ROW, 1);
    UndisturbedClaim(s, 0, k);
    var s1 := Enter(Put(s, k, ClaimedRow(WAITING_ROW, 1)), 0, Holding(k));
    ClearedAndWoken(s1, k, a);
    var s2 := Next(s1, a);
    var s3 := Next(s2, Upsert(k, WAKE));
    UndisturbedClaim(s3, 1, k);
    TwoClaimsAskNothing(k, a);
    hide Exec, Legal, Claims, Claimable, ClaimedRow, Next, Enabled, Requests, Safe, SafeRun;
    RunStep(s2, Upsert(k, WAKE), ClaimActs(1, k));
    RunStep(s1, a, [Upsert(k, WAKE)] + ClaimActs(1, k));
    RunAppend(s, ClaimActs(0, k), [a] + ([Upsert(k, WAKE)] + ClaimActs(1, k)));
  }

  lemma TwoClaimsAskNothing(k: Key, a: Action)
    requires !(a.Upsert? && a.p.requested)
    ensures Requests(TwoClaims(k, a), k) == 0
  {
    NoRequests(TwoClaims(k, a), k);
  }

  lemma ClearedAndWoken(s: System, k: Key, a: Action)
    requires Clears(a, k) && !(a.Upsert? && a.p.requested) && k !in s.locks && k in s.rows && Pending(s.rows[k])
    ensures Enabled(s, a) && Enabled(Next(s, a), Upsert(k, WAKE))
    ensures var t := Next(Next(s, a), Upsert(k, WAKE));
            && t.locks == s.locks && t.phases == s.phases && k in t.rows && Claimable(t.rows[k], t.now)
  {
  }

  /** Whatever clears the busy mark from outside: claims never outnumber the open
      and the new requests exactly when each clearing asks for a sync itself. */
  lemma ClaimsNeedRequestsIff(k: Key, a: Action)
    requires Clears(a, k)
    ensures (forall s, acts :: LocksMatch(s) && TestsStand(s) && ClockInv(s) && Legal(s, acts) && OnlyClearedBy(acts, k, a)
                               ==> Claims(s, acts, k) <= Open(s, k) + Requests(acts, k))
            <==> a.Upsert? && a.p.requested
  {
    if a.Upsert? && a.p.requested {
      forall s, acts | LocksMatch(s) && TestsStand(s) && ClockInv(s) && Legal(s, acts) && OnlyClearedBy(acts, k, a)
        ensures Claims(s, acts, k) <= Open(s, k) + Requests(acts, k)
      {
        ClaimsNeedRequests(s, acts, k);
      }
    } else {
      var s := Idling(k, WAITING_ROW, 1);
      ClearedClaimsTwice(k, a);
      TwoClaimsClear(k, a);
      hide Claims, Legal, Requests, OnlyClearedBy, TwoClaims;
      assert LocksMatch(s) && TestsStand(s) && ClockInv(s);
    }
  }

  ghost predicate OnlyClearedBy(acts: seq<Action>, k: Key, a: Action) {
    forall i :: 0 <= i < |acts| && Clears(acts[i], k) ==> acts[i] == a
  }

  lemma TwoClaimsClear(k: Key, a: Action)
    ensures OnlyClearedBy(TwoClaims(k, a), k, a)
  {
    assert ClaimActs(0, k) == [Lock(0, k), Test(0), Write(0), Commit(0)];
    assert ClaimActs(1, k) == [Lock(1, k), Test(1), Write(1), Commit(1)];
  }

  /** Neither activation nor recovery takes the request away. */
  lemma StaysClaimable(row: Row, now: nat)
    requires Claimable(row, now)
    ensures Pending(row) && !row.isBusy
    ensures Claimable(PatchedRow(ClaimedRow(row, now), ACTIVATE_PATCH, now), now)
    ensures Claimable(RecoveredRow(ClaimedRow(row, now), now), now)
  {
  }

  lemma {:induction false} NoRequests(acts: seq<Action>, k: Key)
    requires forall a :: a in acts && a.Upsert? ==> !a.p.requested
    ensures Requests(acts, k) == 0
  {
    if acts == [] {
    } else {
      assert acts[0] in acts && forall a :: a in acts[1..] ==> a in acts;
      NoRequests(acts[1..], k);
    }
  }

  lemma {:induction false} RunAppend(s: System, a: seq<Action>, b: seq<Action>)
    requires Legal(s, a) && Legal(Exec(s, a), b)
    ensures Legal(s, a + b) && Exec(s, a + b) == Exec(Exec(s, a), b)
    ensures forall k :: Claims(s, a + b, k) == Claims(s, a, k) + Claims(Exec(s, a), b, k)
    decreases a
  {
    if a == [] {
      assert a + b == b;
    } else {
      RunAppend(Next(s, a[0]), a[1..], b);
      assert a + b == [a[0]] + (a[1..] + b);
      RunStep(s, a[0], a[1..] + b);
    }
  }

  // ---- after a sync has ended ------------------------------------------------

  /** No sync has been asked for since the last one ended. */
  ghost predicate Settled(s: System, k: Key) {
    LocksMatch(s) && TestsStand(s) && ClockInv(s) && !Pending(RowAt(s.rows, k))
  }

  lemma StepKeepsSettled(s: System, a: Action, k: Key)
    requires Settled(s, k) && Enabled(s, a)
    requires !(a.Upsert? && a.k == k && a.p.requested)
    ensures Settled(Next(s, a), k)
    ensures !(a.Commit? && PhaseOf(s, a.w).key == k)
  {
    StepKeepsLocks(s, a);
    StepKeepsTests(s, a);
    StepKeepsClock(s, a);
    hide LocksMatch;
  }

  lemma {:induction false} SettledStays(s: System, acts: seq<Action>, k: Key)
    requires Settled(s, k) && Legal(s, acts) && Requests(acts, k) == 0
    ensures !Pending(RowAt(Exec(s, acts).rows, k)) && Claims(s, acts, k) == 0
    decreases acts
  {
    hide Pending, RowAt;
    if acts == [] {
    } else {
      StepKeepsSettled(s, acts[0], k);
      SettledStays(Next(s, acts[0]), acts[1..], k);
    }
  }

  /** Completing or failing a sync uses up the request: whatever else happens, the
      mailbox is not pending and not claimed again before a later request. */
  lemma EndedSyncNeedsRequest(s: System, a: Action, acts: seq<Action>)
    requires LocksMatch(s) && TestsStand(s) && ClockInv(s)
    requires (a.Complete? || a.Fail?) && Enabled(s, a) && Legal(Next(s, a), acts)
    requires Requests(acts, PhaseOf(s, a.w).key) == 0
    ensures var k := PhaseOf(s, a.w).key;
            !Pending(RowAt(Exec(Next(s, a), acts).rows, k)) && Claims(Next(s, a), acts, k) == 0
  {
    StepKeepsLocks(s, a);
    StepKeepsTests(s, a);
    StepKeepsClock(s, a);
    SettledStays(Next(s, a), acts, PhaseOf(s, a.w).key);
  }

  /** The row is closed to claims until the given time, and nobody holds it. */
  ghost predicate Cooling(s: System, k: Key, until: nat) {
    LocksMatch(s) && TestsStand(s) && !Held(s, k) && RowAt(s.rows, k).availableAt == Some(until)
  }

  /** Steps that lift the cool-down of the mailbox. */
  predicate Warms(a: Action, k: Key) {
    (a.Upsert? && a.k == k && a.p.clearsAvailableAt) || a == Recover(k)
  }

  lemma StepKeepsCooling(s: System, a: Action, k: Key, until: nat)
    requires Cooling(s, k, until) && s.now < until && Enabled(s, a) && !Warms(a, k)
    ensures Cooling(Next(s, a), k, until)
    ensures !(a.Commit? && PhaseOf(s, a.w).key == k)
  {
    StepKeepsLocks(s, a);
    StepKeepsTests(s, a);
    var t := Next(s, a);
    forall w ensures PhaseOf(t, w) != Holding(k) {
      assert PhaseOf(s, w) != Holding(k);
      assert PhaseOf(s, w) == Written(k) ==> Claimable(s.rows[k], s.now);
    }
  }

  lemma {:induction false} CoolingStays(s: System, acts: seq<Action>, k: Key, until: nat)
    requires Cooling(s, k, until) && Legal(s, acts) && Exec(s, acts).now < until
    requires forall a :: a in acts ==> !Warms(a, k)
    ensures Claims(s, acts, k) == 0 && !Held(Exec(s, acts), k)
    decreases acts
  {
    hide LocksMatch, TestsStand, Held;
    if acts == [] {
    } else {
      ClockGrows(s, acts);
      assert acts[0] in acts && forall a :: a in acts[1..] ==> a in acts;
      StepKeepsCooling(s, acts[0], k, until);
      CoolingStays(Next(s, acts[0]), acts[1..], k, until);
    }
  }

  lemma {:induction false} ClockGrows(s: System, acts: seq<Action>)
    requires Legal(s, acts)
    ensures s.now <= Exec(s, acts).now
    decreases acts
  {
    if acts == [] {
    } else {
      ClockGrows(Next(s, acts[0]), acts[1..]);
    }
  }

  /** After a failure nobody gets the mailbox for an hour, whatever is requested,
      unless an upsert clears the time stamp or recovery replaces it. */
  lemma FailedSyncCoolsDown(s: System, w: Worker, message: Option<string>, acts: seq<Action>)
    requires Inv(s) && Enabled(s, Fail(w, message)) && Legal(Next(s, Fail(w, message)), acts)
    requires forall a :: a in acts ==> !Warms(a, PhaseOf(s, w).key)
    requires Exec(Next(s, Fail(w, message)), acts).now < s.now + 3600
    ensures var k := PhaseOf(s, w).key;
            Claims(Next(s, Fail(w, message)), acts, k) == 0 && !Held(Exec(Next(s, Fail(w, message)), acts), k)
  {
    var k, t := PhaseOf(s, w).key, Next(s, Fail(w, message));
    StepKeepsLocks(s, Fail(w, message));
    StepKeepsTests(s, Fail(w, message));
    assert !Held(t, k) by {
      assert forall v :: PhaseOf(t, v) == Holding(k) ==> PhaseOf(s, v) == Holding(k);
    }
    CoolingStays(t, acts, k, s.now + HOUR);
  }

  /** A claim whose steps nobody disturbs is the claim of the table: it leaves the
      same rows, and its worker holds the mailbox exactly when a row is returned. */
  lemma UndisturbedClaimIsClaim(s: System, w: Worker, k: Key)
    requires PhaseOf(s, w) == Waiting && k !in s.locks
    ensures var (rows, claimed) := AfterClaim(s.rows, k, s.now);
            var acts := if claimed.Some? then ClaimActs(w, k) else [Lock(w, k), Test(w)];
            && Legal(s, acts) && Exec(s, acts).rows == rows && Exec(s, acts).locks == s.locks
            && PhaseOf(Exec(s, acts), w) == if claimed.Some? then Holding(k) else Waiting
  {
    hide Claimable, ClaimedRow;
    if k in s.rows && Claimable(s.rows[k], s.now) {
      UndisturbedClaim(s, w, k);
    } else {
      var s1 := Next(s, Lock(w, k));
      var s2 := Next(s1, Test(w));
      RunStep(s1, Test(w), []);
      assert [Test(w)] + [] == [Test(w)];
      RunStep(s, Lock(w, k), [Test(w)]);
      assert [Lock(w, k)] + [Test(w)] == [Lock(w, k), Test(w)];
      assert Exec(s2, []) == s2;
    }
  }

  // ---- which rows can be claimed -------------------------------------------------

  /** A claim that nobody disturbs goes through exactly when the row is there and all
      five conditions of the SELECT hold. */
  lemma ClaimGoesThroughIff(s: System, w: Worker, k: Key)
    requires PhaseOf(s, w) == Waiting && k !in s.locks
    ensures Legal(s, ClaimActs(w, k)) <==>
            && k in s.rows
            && s.rows[k].isActive
            && !s.rows[k].isBusy
            && s.rows[k].syncRequestedAt.Some?
            && (s.rows[k].lastSyncAt.Some? ==> s.rows[k].syncRequestedAt.value > s.rows[k].lastSyncAt.value)
            && (s.rows[k].availableAt.Some? ==> s.rows[k].availableAt.value <= s.now)
  {
    if k in s.rows && Claimable(s.rows[k], s.now) {
      UndisturbedClaim(s, w, k);
    } else {
      RefusedClaim(s, w, k);
    }
  }

  lemma RefusedClaim(s: System, w: Worker, k: Key)
    requires PhaseOf(s, w) == Waiting && k !in s.locks && !(k in s.rows && Claimable(s.rows[k], s.now))
    ensures !Legal(s, ClaimActs(w, k))
  {
    hide Claimable;
    var s1 := Next(s, Lock(w, k));
    var s2 := Next(s1, Test(w));
    assert PhaseOf(s2, w) == Waiting;
    assert ClaimActs(w, k)[1..] == [Test(w), Write(w), Commit(w)];
    assert [Test(w), Write(w), Commit(w)][1..] == [Write(w), Commit(w)];
    assert Legal(s1, [Test(w), Write(w), Commit(w)]) ==> Legal(s2, [Write(w), Commit(w)]);
    assert !Legal(s2, [Write(w), Commit(w)]);
  }

  /** The row is missing or switched off. */
  ghost predicate Inactive(s: System, k: Key) {
    LocksMatch(s) && TestsStand(s) && !RowAt(s.rows, k).isActive
  }

  lemma StepKeepsInactive(s: System, a: Action, k: Key)
    requires Inactive(s, k) && Enabled(s, a) && !(a.Upsert? && a.k == k && a.p.isActive == Some(true))
    ensures Inactive(Next(s, a), k)
    ensures !(a.Commit? && PhaseOf(s, a.w).key == k)
  {
    StepKeepsLocks(s, a);
    StepKeepsTests(s, a);
  }

  /** A mailbox that is switched off is never claimed, whatever is requested, before an
      upsert switches it on. */
  lemma {:induction false} InactiveIsNotClaimed(s: System, acts: seq<Action>, k: Key)
    requires LocksMatch(s) && TestsStand(s) && Legal(s, acts)
    requires k in s.rows ==> !s.rows[k].isActive
    requires forall a :: a in acts ==> !(a.Upsert? && a.k == k && a.p.isActive == Some(true))
    ensures Claims(s, acts, k) == 0 && !RowAt(Exec(s, acts).rows, k).isActive
    decreases acts
  {
    if acts == [] {
    } else {
      assert acts[0] in acts && forall a :: a in acts[1..] ==> a in acts;
      StepKeepsInactive(s, acts[0], k);
      hide LocksMatch, TestsStand, Next;
      InactiveIsNotClaimed(Next(s, acts[0]), acts[1..], k);
    }
  }

  /** What an upsert opens: the columns it names count as written, the others as they
      were, and a new row starts switched off and without a request. */
  lemma UpsertOpensIff(s: System, k: Key, p: Patch, w: Worker)
    requires k !in s.locks && PhaseOf(s, w) == Waiting
    ensures var row := RowAt(s.rows, k);
            Legal(Next(s, Upsert(k, p)), ClaimActs(w, k)) <==>
            && (p.isActive == Some(true) || (p.isActive == None && row.isActive))
            && (p.isBusy == Some(false) || (p.isBusy == None && !row.isBusy))
            && (if p.requested then row.lastSyncAt.Some? ==> s.now > row.lastSyncAt.value
                else row.syncRequestedAt.Some?
                     && (row.lastSyncAt.Some? ==> row.syncRequestedAt.value > row.lastSyncAt.value))
            && (p.clearsAvailableAt || (row.availableAt.Some? ==> row.availableAt.value <= s.now))
  {
    var t := Next(s, Upsert(k, p));
    assert PhaseOf(t, w) == Waiting;
    ClaimGoesThroughIff(t, w, k);
    hide ClaimActs, Legal;
  }

  /** The sync route opens every mailbox whose last sync lies in the past, in cool-down
      or not; the activate route opens those with an open request. */
  lemma RoutesOpenIff(s: System, k: Key, w: Worker)
    requires k !in s.locks && PhaseOf(s, w) == Waiting
    ensures Legal(Next(s, Upsert(k, SYNC_PATCH)), ClaimActs(w, k)) <==>
            RowAt(s.rows, k).lastSyncAt.Some? ==> s.now > RowAt(s.rows, k).lastSyncAt.value
    ensures Legal(Next(s, Upsert(k, ACTIVATE_PATCH)), ClaimActs(w, k)) <==>
            && RowAt(s.rows, k).syncRequestedAt.Some?
            && (RowAt(s.rows, k).lastSyncAt.Some?
                ==> RowAt(s.rows, k).syncRequestedAt.value > RowAt(s.rows, k).lastSyncAt.value)
    ensures Next(s, Upsert(k, SYNC_PATCH)).rows[k].status == Queued
    ensures Next(s, Upsert(k, SYNC_PATCH)).rows[k].errorMessage == None
    ensures Next(s, Upsert(k, ACTIVATE_PATCH)).rows[k].status == Idle
    ensures Next(s, Upsert(k, ACTIVATE_PATCH)).rows[k].errorMessage == RowAt(s.rows, k).errorMessage
  {
    UpsertOpensIff(s, k, SYNC_PATCH, w);
    UpsertOpensIff(s, k, ACTIVATE_PATCH, w);
    hide ClaimActs, Legal;
  }

  /** The worker recovers the row of an active mailbox with an open request that is not
      cooling down, is busy, and was last written more than 15 minutes ago; and then it
      can claim it. */
  lemma WorkerRecoversIff(s: System, k: Key, w: Worker)
    requires k !in s.locks && PhaseOf(s, w) == Waiting
    ensures Checked(s, Recover(k), {}) <==>
            && k in s.rows
            && s.rows[k].isActive && s.rows[k].isBusy
            && s.rows[k].syncRequestedAt.Some?
            && (s.rows[k].lastSyncAt.Some? ==> s.rows[k].syncRequestedAt.value > s.rows[k].lastSyncAt.value)
            && (s.rows[k].availableAt.Some? ==> s.rows[k].availableAt.value <= s.now)
            && s.rows[k].updatedAt.Some? && s.now - s.rows[k].updatedAt.value > 15 * 60
    ensures Checked(s, Recover(k), {}) ==>
              Legal(Next(s, Recover(k)), ClaimActs(w, k))
              && Next(s, Recover(k)).rows[k].status == Idle && Next(s, Recover(k)).rows[k].availableAt == Some(s.now)
    ensures k !in s.rows ==> Next(s, Recover(k)).rows == s.rows
  {
    if Checked(s, Recover(k), {}) {
      var t := Next(s, Recover(k));
      assert PhaseOf(t, w) == Waiting;
      ClaimGoesThroughIff(t, w, k);
    }
    hide ClaimActs, Legal, Next;
  }

  // ---- how a sync has ended --------------------------------------------------------

  /** A request, and nothing else, that comes some time after the end of a sync. */
  function Reopened(s: System, a: Action, ticks: nat): System
    requires Enabled(s, a)
    requires (a.Complete? || a.Fail?) && PhaseOf(s, a.w).key !in s.locks
  {
    var t := Next(s, a);
    Next(t.(now := t.now + ticks), Upsert(PhaseOf(s, a.w).key, Patch(None, None, true, false, None, false)))
  }

  /** After a completed sync an active mailbox is open again with the next request,
      after a failed one only when the request comes an hour later. */
  lemma EndedSyncReopensIff(s: System, a: Action, ticks: nat, v: Worker)
    requires Enabled(s, a) && (a.Complete? || a.Fail?) && ticks > 0 && PhaseOf(s, v) == Waiting
    ensures Legal(Reopened(s, a, ticks), ClaimActs(v, PhaseOf(s, a.w).key))
            <==> RowAt(s.rows, PhaseOf(s, a.w).key).isActive && (a.Fail? ==> ticks >= 3600)
  {
    var k, t := PhaseOf(s, a.w).key, Next(s, a);
    var later := t.(now := t.now + ticks);
    EndedRow(s, a);
    assert Reopened(s, a, ticks) == Next(later, Upsert(k, Patch(None, None, true, false, None, false)));
    assert PhaseOf(later, v) == Waiting;
    hide Next, Enabled, Reopened, CompletedRow, FailedRow;
    UpsertOpensIff(later, k, Patch(None, None, true, false, None, false), v);
    hide ClaimActs, Legal;
  }

  lemma EndedRow(s: System, a: Action)
    requires Enabled(s, a) && (a.Complete? || a.Fail?)
    ensures var k, t := PhaseOf(s, a.w).key, Next(s, a);
            && k !in t.locks && t.now == s.now && (forall v :: v != a.w ==> PhaseOf(t, v) == PhaseOf(s, v))
            && k in t.rows && !t.rows[k].isBusy && t.rows[k].lastSyncAt == Some(s.now)
            && t.rows[k].isActive == RowAt(s.rows, k).isActive
            && t.rows[k].availableAt == if a.Complete? then None else Some(s.now + 3600)
  {
  }

  /** The row tells how the sync has ended. */
  ghost predicate Tells(s: System, k: Key, status: Status, message: Option<string>) {
    && LocksMatch(s) && TestsStand(s) && ClockInv(s) && !Held(s, k)
    && !Pending(RowAt(s.rows, k))
    && RowAt(s.rows, k).status == status && RowAt(s.rows, k).errorMessage == message
  }

  lemma StepKeepsTelling(s: System, a: Action, k: Key, status: Status, message: Option<string>)
    requires Tells(s, k, status, message) && Enabled(s, a)
    requires !(a.Upsert? && a.k == k) && a != Recover(k)
    ensures Tells(Next(s, a), k, status, message)
  {
    StepKeepsLocks(s, a);
    StepKeepsTests(s, a);
    StepKeepsClock(s, a);
    var t := Next(s, a);
    forall w ensures PhaseOf(t, w) != Holding(k) {
      assert PhaseOf(s, w) != Holding(k);
      assert PhaseOf(s, w) == Written(k) ==> Claimable(s.rows[k], s.now);
    }
    if a.Complete? || a.Fail? {
      assert PhaseOf(s, a.w) != Holding(k);
    }
  }

  /** The stored status and message tell a success from a failure until the next
      upsert or recovery of the mailbox. */
  lemma OutcomeIsStored(s: System, a: Action, acts: seq<Action>)
    requires Inv(s) && ClockInv(s) && Enabled(s, a) && (a.Complete? || a.Fail?) && Legal(Next(s, a), acts)
    requires forall b :: b in acts ==> !(b.Upsert? && b.k == PhaseOf(s, a.w).key) && b != Recover(PhaseOf(s, a.w).key)
    ensures var row := RowAt(Exec(Next(s, a), acts).rows, PhaseOf(s, a.w).key);
            && !row.isBusy
            && row.status == (if a.Complete? then Completed else Failed)
            && row.errorMessage == if a.Complete? then None else a.message
  {
    var k, t := PhaseOf(s, a.w).key, Next(s, a);
    StepKeepsLocks(s, a);
    StepKeepsTests(s, a);
    StepKeepsClock(s, a);
    assert !Held(t, k) by {
      assert forall v :: PhaseOf(t, v) == Holding(k) ==> PhaseOf(s, v) == Holding(k);
    }
    TellingStays(t, acts, k, RowAt(t.rows, k).status, RowAt(t.rows, k).errorMessage);
  }

  lemma {:induction false} TellingStays(
      s: System, acts: seq<Action>, k: Key, status: Status, message: Option<string>)
    requires Tells(s, k, status, message) && Legal(s, acts) && !RowAt(s.rows, k).isBusy
    requires forall b :: b in acts ==> !(b.Upsert? && b.k == k) && b != Recover(k)
    ensures Tells(Exec(s, acts), k, status, message) && !RowAt(Exec(s, acts).rows, k).isBusy
    decreases acts
  {
    if acts == [] {
    } else {
      assert acts[0] in acts && forall b :: b in acts[1..] ==> b in acts;
      StepKeepsTelling(s, acts[0], k, status, message);
      StillFree(s, acts[0], k);
      hide Tells, Next;
      TellingStays(Next(s, acts[0]), acts[1..], k, status, message);
    }
  }

  lemma StillFree(s: System, a: Action, k: Key)
    requires TestsStand(s) && !Pending(RowAt(s.rows, k)) && !RowAt(s.rows, k).isBusy && Enabled(s, a)
    requires !(a.Upsert? && a.k == k)
    ensures !RowAt(Next(s, a).rows, k).isBusy
  {
  }

  /** A committed claim shows as busy and syncing. */
  lemma ClaimShows(s: System, w: Worker, k: Key)
    requires PhaseOf(s, w) == Waiting && k !in s.locks && Legal(s, ClaimActs(w, k))
    ensures k in s.rows && k in Exec(s, ClaimActs(w, k)).rows
    ensures Exec(s, ClaimActs(w, k)).rows[k] == s.rows[k].(isBusy := true, status := Syncing, updatedAt := Some(s.now))
  {
    ClaimGoesThroughIff(s, w, k);
    UndisturbedClaim(s, w, k);
  }
}
