/**
 The UID tracking of `run_idle_session` in rust-imap-worker/src/mailbox_monitor.rs:
 one mailbox, over sessions, reconnects, removal and re-adding.

 The connection, the fetches and the publishing are outside; what the server
 answers and what becomes of each message are inputs.
 */
module UidMonitor {
  import opened Common
  import opened Text
  import SelectResponse

  /** What the source does with a message it has not seen. */
  datatype Verdict =
    | Warmup        // moved to the hidden folder
    | SelfSent      // skipped
    | FetchFailed   // skipped
    | Deliver       // published once, or lost in a failed publish

  /** A message of a fetch response, with what becomes of it. */
  datatype Message = Message(uid: nat, verdict: Verdict)

  /** One publication: the UIDVALIDITY it was made under, and the UID. */
  datatype Event = Event(uidvalidity: nat, uid: nat)

  /** The entry of the mailbox in the shared map, zeros when there is none; the
      UIDVALIDITY that the current connection has read; and everything published. */
  datatype Tracker = Tracker(
    present: bool,
    uidvalidity: nat,
    lastUid: nat,
    session: Option<nat>,
    published: seq<Event>)

  const NEW_MAILBOX := Tracker(true, 0, 0, None, [])

  /** The start of a session, with the numbers of the SELECT response. */
  function SessionStarted(t: Tracker, uidvalidity: nat, uidnext: nat): Tracker {
    if t.present && (t.uidvalidity == 0 || t.uidvalidity != uidvalidity) then
      t.(uidvalidity := uidvalidity, lastUid := if uidnext > 1 then uidnext - 1 else 0, session := Some(uidvalidity))
    else t.(session := Some(uidvalidity))
  }

  /** The connection stays until its task notices. */
  function Removed(t: Tracker): Tracker {
    t.(present := false, uidvalidity := 0, lastUid := 0)
  }

  /** A mailbox that is there keeps its entry; a new one gets a task that has yet to
      connect. */
  function Added(t: Tracker): Tracker {
    if t.present then t else Tracker(true, 0, 0, None, t.published)
  }

  /** The highest UID among those listed, if it is above `least`. */
  function Highest(least: nat, messages: seq<Message>): nat {
    if messages == [] then least
    else
      var before := Highest(least, messages[..|messages| - 1]);
      var uid := messages[|messages| - 1].uid;
      if uid > before then uid else before
  }

  /** The listed messages that are new and get delivered. */
  function Delivered(uidvalidity: nat, lastUid: nat, messages: seq<Message>): seq<Event> {
    if messages == [] then []
    else
      var m := messages[|messages| - 1];
      Delivered(uidvalidity, lastUid, messages[..|messages| - 1])
      + if m.uid > lastUid && m.verdict == Deliver then [Event(uidvalidity, m.uid)] else []
  }

  /** The answer to one push on the current connection.  The messages are those of
      the parsed response in the order the hash map yields them; a mailbox that was
      removed in the meantime reads as if nothing had been seen, and nothing is
      stored for it. */
  function Pushed(t: Tracker, messages: seq<Message>): Tracker {
    if t.session == None then t
    else
      var lastUid := if t.present then t.lastUid else 0;
      t.(published := t.published + Delivered(t.session.value, lastUid, messages),
         lastUid := if t.present then Highest(t.lastUid, messages) else t.lastUid)
  }

  lemma NothingYet(uidvalidity: nat, lastUid: nat)
    ensures Highest(lastUid, []) == lastUid && Delivered(uidvalidity, lastUid, []) == []
  {
  }

  lemma OneMore(uidvalidity: nat, lastUid: nat, messages: seq<Message>, m: Message)
    ensures Highest(lastUid, messages + [m])
            == if m.uid > Highest(lastUid, messages) then m.uid else Highest(lastUid, messages)
    ensures Delivered(uidvalidity, lastUid, messages + [m])
            == Delivered(uidvalidity, lastUid, messages)
               + if m.uid > lastUid && m.verdict == Deliver then [Event(uidvalidity, m.uid)] else []
  {
    assert (messages + [m])[..|messages|] == messages;
  }

  /** The shared entry of one mailbox and its monitor task. */
  class Monitor {
    var present: bool
    var uidvalidity: nat
    var lastUid: nat
    var session: Option<nat>
    var published: seq<Event>

    function State(): Tracker
      reads this
    {
      Tracker(present, uidvalidity, lastUid, session, published)
    }

    constructor ()
      ensures State() == NEW_MAILBOX
    {
      present, uidvalidity, lastUid, session, published := true, 0, 0, None, [];
    }

    method StartSession(newUidvalidity: nat, uidnext: nat)
      modifies this
      ensures State() == SessionStarted(old(State()), newUidvalidity, uidnext)
    {
      session := Some(newUidvalidity);
      if present {
        if uidvalidity == 0 || uidvalidity != newUidvalidity {
          uidvalidity := newUidvalidity;
          lastUid := if uidnext > 1 then uidnext - 1 else 0;
        }
      }
    }

    method Remove()
      modifies this
      ensures State() == Removed(old(State()))
    {
      present, uidvalidity, lastUid := false, 0, 0;
    }

    method Add()
      modifies this
      ensures State() == Added(old(State()))
    {
      if !present {
        present, uidvalidity, lastUid, session := true, 0, 0, None;
      }
    }

    method HandlePush(messages: seq<Message>)
      requires State().session.Some?
      modifies this
      ensures State() == Pushed(old(State()), messages)
    {
      var seen := if present then lastUid else 0;
      var maxUid := seen;
      hide Highest, Delivered;
      NothingYet(session.value, seen);
      assert messages[..0] == [];
      for i := 0 to |messages|
        invariant present == old(present) && uidvalidity == old(uidvalidity)
        invariant lastUid == old(lastUid) && session == old(session)
        invariant maxUid == Highest(seen, messages[..i])
        invariant published == old(published) + Delivered(session.value, seen, messages[..i])
      {
        assert messages[..i + 1] == messages[..i] + [messages[i]];
        OneMore(session.value, seen, messages[..i], messages[i]);
        var uid := messages[i].uid;
        HighestBounds(seen, messages[..i]);
        if uid <= seen {
          continue;
        }
        if uid > maxUid {
          maxUid := uid;
        }
        if messages[i].verdict == Deliver {
          published := published + [Event(session.value, uid)];
        }
      }
      assert messages[..|messages|] == messages;
      HighestBounds(seen, messages);
      if present {
        if maxUid > lastUid {
          lastUid := maxUid;
        }
      }
    }
  }

  lemma {:induction false} HighestBounds(least: nat, messages: seq<Message>)
    ensures least <= Highest(least, messages)
    ensures forall m :: m in messages ==> m.uid <= Highest(least, messages)
    ensures Highest(least, messages) == least || exists m :: m in messages && m.uid == Highest(least, messages)
  {
    if messages == [] {
    } else {
      var n := |messages| - 1;
      assert messages == messages[..n] + [messages[n]];
      HighestBounds(least, messages[..n]);
    }
  }

  // ---- at most once -------------------------------------------------------------

  /** Nothing that was published on this UIDVALIDITY is above the UID. */
  ghost predicate Covered(t: Tracker, uidvalidity: nat, uid: nat) {
    forall e :: e in t.published && e.uidvalidity == uidvalidity ==> e.uid <= uid
  }

  /** Nothing is published twice; and while a connection runs for an entry, the entry
      has its UIDVALIDITY and is not below what was published on it. */
  ghost predicate Tidy(t: Tracker) {
    && Unique(t.published)
    && (t.present && t.uidvalidity != 0 ==> t.session.Some?)
    && (t.present && t.session.Some? ==>
          t.session.value == t.uidvalidity && Covered(t, t.uidvalidity, t.lastUid))
  }

  ghost predicate DistinctUids(messages: seq<Message>) {
    forall i, j :: 0 <= i < j < |messages| ==> messages[i].uid != messages[j].uid
  }

  /** Exactly the listed messages that are new and to be delivered, each once. */
  lemma {:induction false} DeliveredAre(uidvalidity: nat, lastUid: nat, messages: seq<Message>)
    ensures forall e :: e in Delivered(uidvalidity, lastUid, messages) <==>
              e.uidvalidity == uidvalidity && e.uid > lastUid && Message(e.uid, Deliver) in messages
    ensures DistinctUids(messages) ==> Unique(Delivered(uidvalidity, lastUid, messages))
  {
    if messages == [] {
    } else {
      var n := |messages| - 1;
      assert messages == messages[..n] + [messages[n]];
      DeliveredAre(uidvalidity, lastUid, messages[..n]);
      var before := Delivered(uidvalidity, lastUid, messages[..n]);
      if DistinctUids(messages) {
        forall i | 0 <= i < |before| ensures before[i].uid != messages[n].uid {
          assert before[i] in before;
          assert Message(before[i].uid, Deliver) in messages[..n];
        }
      }
    }
  }

  /** What a push delivers is new when nothing above the stored UID was published. */
  lemma PushIsNew(t: Tracker, uidvalidity: nat, uid: nat, messages: seq<Message>)
    requires Unique(t.published) && Covered(t, uidvalidity, uid) && DistinctUids(messages)
    ensures Unique(t.published + Delivered(uidvalidity, uid, messages))
  {
    var news := Delivered(uidvalidity, uid, messages);
    DeliveredAre(uidvalidity, uid, messages);
    forall i, j | 0 <= i < |t.published| && 0 <= j < |news| ensures t.published[i] != news[j] {
      assert t.published[i] in t.published && news[j] in news;
    }
  }

  /** A push keeps the tracker tidy, in whatever order the hash map yields its messages. */
  lemma PushKeepsTidy(t: Tracker, messages: seq<Message>)
    requires Tidy(t) && SafePush(t, messages)
    ensures Tidy(Pushed(t, messages))
    ensures Pushed(t, messages).lastUid >= t.lastUid
  {
    if t.session.Some? {
      var lastUid := if t.present then t.lastUid else 0;
      PushIsNew(t, t.session.value, lastUid, messages);
      DeliveredAre(t.session.value, lastUid, messages);
      HighestBounds(t.lastUid, messages);
    }
  }

  // ---- runs ---------------------------------------------------------------------

  datatype Input =
    | Session(uidvalidity: nat, uidnext: nat)
    | Push(messages: seq<Message>)
    | Remove
    | Add

  function Next(t: Tracker, i: Input): Tracker {
    match i
    case Session(uidvalidity, uidnext) => SessionStarted(t, uidvalidity, uidnext)
    case Push(messages) => Pushed(t, messages)
    case Remove => Removed(t)
    case Add => Added(t)
  }

  function Run(t: Tracker, inputs: seq<Input>): Tracker
    decreases inputs
  {
    if inputs == [] then t else Run(Next(t, inputs[0]), inputs[1..])
  }

  /** The session keeps what is stored, or UIDNEXT is above everything published
      under its UIDVALIDITY. */
  ghost predicate SafeSession(t: Tracker, uidvalidity: nat, uidnext: nat) {
    || (t.uidvalidity == uidvalidity && uidvalidity != 0)
    || forall e :: e in t.published && e.uidvalidity == uidvalidity ==> e.uid < uidnext || e.uid == 0
  }

  /** The entry is there, or nothing was published on the connection. */
  ghost predicate SafePush(t: Tracker, messages: seq<Message>) {
    DistinctUids(messages) && (t.present || t.session == None || Covered(t, t.session.value, 0))
  }

  ghost predicate Safe(t: Tracker, i: Input) {
    match i
    case Session(uidvalidity, uidnext) => t.present ==> SafeSession(t, uidvalidity, uidnext)
    case Push(messages) => SafePush(t, messages)
    case _ => true
  }

  ghost predicate SafeRun(t: Tracker, inputs: seq<Input>)
    decreases inputs
  {
    inputs == [] || (Safe(t, inputs[0]) && SafeRun(Next(t, inputs[0]), inputs[1..]))
  }

  /** Every message is published at most once in every run whose resets are safe and
      whose late pushes, after a removal, find nothing published on the connection. */
  lemma {:induction false} AtMostOnce(t: Tracker, inputs: seq<Input>)
    requires Tidy(t) && SafeRun(t, inputs)
    ensures Tidy(Run(t, inputs))
    decreases inputs
  {
    if inputs == [] {
    } else {
      if inputs[0].Push? {
        PushKeepsTidy(t, inputs[0].messages);
      }
      AtMostOnce(Next(t, inputs[0]), inputs[1..]);
    }
  }

  /** No safe continuation publishes a message twice. */
  ghost predicate PublishesOnce(s: Tracker) {
    forall inputs :: SafeRun(s, inputs) ==> Unique(Run(s, inputs).published)
  }

  lemma TwicePublished(s: Tracker, e: Event)
    requires e in s.published && s.session == Some(e.uidvalidity) && s.present && e.uid > s.lastUid
    ensures !PublishesOnce(s)
  {
    var again := Push([Message(e.uid, Deliver)]);
    PublishedAgain(s, e);
    RunCons(s, again, []);
    assert [again] + [] == [again] && [again][1..] == [];
    assert Run(Next(s, again), []) == Next(s, again);
    assert SafeRun(Next(s, again), []);
    assert SafeRun(s, [again]) && !Unique(Run(s, [again]).published);
  }

  /** A session is safe exactly when no safe continuation of it publishes a
      message twice. */
  lemma SessionIsSafeIff(t: Tracker, uidvalidity: nat, uidnext: nat)
    requires Tidy(t)
    ensures (t.present ==> SafeSession(t, uidvalidity, uidnext))
            <==> PublishesOnce(SessionStarted(t, uidvalidity, uidnext))
  {
    var s := SessionStarted(t, uidvalidity, uidnext);
    if t.present ==> SafeSession(t, uidvalidity, uidnext) {
      forall inputs | SafeRun(s, inputs) ensures Unique(Run(s, inputs).published) {
        AtMostOnce(s, inputs);
      }
    } else {
      var e :| e in t.published && e.uidvalidity == uidvalidity && e.uid >= uidnext && e.uid > 0;
      TwicePublished(s, e);
    }
  }

  lemma OneDelivery(s: Tracker, uid: nat)
    requires s.session.Some? && uid > if s.present then s.lastUid else 0
    ensures Pushed(s, [Message(uid, Deliver)])
            == s.(lastUid := if s.present then uid else s.lastUid, published := s.published + [Event(s.session.value, uid)])
  {
    var lastUid := if s.present then s.lastUid else 0;
    assert [Message(uid, Deliver)][..0] == [];
    assert Delivered(s.session.value, lastUid, [Message(uid, Deliver)]) == [Event(s.session.value, uid)];
    assert Highest(lastUid, [Message(uid, Deliver)]) == uid;
  }

  /** A message above the stored UID is delivered, published before or not. */
  lemma PublishedAgain(s: Tracker, e: Event)
    requires e in s.published && s.session == Some(e.uidvalidity) && e.uid > if s.present then s.lastUid else 0
    ensures !Unique(Pushed(s, [Message(e.uid, Deliver)]).published)
  {
    var after := Pushed(s, [Message(e.uid, Deliver)]).published;
    OneDelivery(s, e.uid);
    var i :| 0 <= i < |s.published| && s.published[i] == e;
    assert after[i] == e && after[|after| - 1] == e;
  }

  /** A push publishes nothing twice, whatever its messages, exactly when the mailbox
      has not been removed, or nothing was published on its connection before. */
  lemma PushIsSafeIff(t: Tracker)
    requires Tidy(t)
    ensures (forall messages :: DistinctUids(messages) ==> Unique(Pushed(t, messages).published))
            <==> t.present || t.session == None
                 || forall e :: e in t.published && e.uidvalidity == t.session.value ==> e.uid == 0
  {
    if t.present || t.session == None || Covered(t, t.session.value, 0) {
      forall messages | DistinctUids(messages) ensures Unique(Pushed(t, messages).published) {
        PushKeepsTidy(t, messages);
      }
    } else {
      var e :| e in t.published && e.uidvalidity == t.session.value && e.uid > 0;
      PublishedAgain(t, e);
      assert DistinctUids([Message(e.uid, Deliver)]);
    }
  }

  /** A push that is handled after the mailbox was removed publishes old messages again. */
  lemma RemovedPublishesAgain(t: Tracker, e: Event)
    requires e in t.published && t.session == Some(e.uidvalidity) && e.uid > 0
    ensures !Unique(Run(t, [Remove] + ([Push([Message(e.uid, Deliver)])] + [])).published)
  {
    var push := Push([Message(e.uid, Deliver)]);
    PublishedAgain(Removed(t), e);
    RunCons(t, Remove, [push] + []);
    RunCons(Removed(t), push, []);
  }

  /** A mailbox that is added, for the first time or again, gets what arrives from the
      UIDNEXT of its first session on: nothing older, and nothing missing. */
  lemma AddedStartsAtUidnext(t: Tracker, uidvalidity: nat, uidnext: nat, messages: seq<Message>)
    ensures var after := Run(t, [Remove] + ([Add] + ([Session(uidvalidity, uidnext)] + ([Push(messages)] + []))));
            && t.published <= after.published
            && forall e :: e in after.published[|t.published|..] <==>
                 e.uidvalidity == uidvalidity && e.uid >= uidnext && e.uid > 0 && Message(e.uid, Deliver) in messages
  {
    var t1 := Removed(t);
    var t2 := Added(t1);
    var t3 := SessionStarted(t2, uidvalidity, uidnext);
    RunCons(t, Remove, [Add] + ([Session(uidvalidity, uidnext)] + ([Push(messages)] + [])));
    RunCons(t1, Add, [Session(uidvalidity, uidnext)] + ([Push(messages)] + []));
    RunCons(t2, Session(uidvalidity, uidnext), [Push(messages)] + []);
    RunCons(t3, Push(messages), []);
    DeliveredAre(uidvalidity, t3.lastUid, messages);
    var news := Delivered(uidvalidity, t3.lastUid, messages);
    assert (t.published + news)[|t.published|..] == news;
  }

  /** A session that keeps what is stored loses nothing either: the next push publishes
      exactly what is above the stored UID. */
  lemma KeptSessionContinues(t: Tracker, uidnext: nat, messages: seq<Message>)
    requires t.present && t.uidvalidity != 0
    ensures var after := Run(t, [Session(t.uidvalidity, uidnext)] + ([Push(messages)] + []));
            && t.published <= after.published
            && (forall e :: e in after.published[|t.published|..] <==>
                  e.uidvalidity == t.uidvalidity && e.uid > t.lastUid && Message(e.uid, Deliver) in messages)
            && after.lastUid >= t.lastUid && forall m :: m in messages ==> m.uid <= after.lastUid
  {
    var t1 := SessionStarted(t, t.uidvalidity, uidnext);
    RunCons(t, Session(t.uidvalidity, uidnext), [Push(messages)] + []);
    RunCons(t1, Push(messages), []);
    DeliveredAre(t.uidvalidity, t.lastUid, messages);
    HighestBounds(t.lastUid, messages);
    var news := Delivered(t.uidvalidity, t.lastUid, messages);
    assert (t.published + news)[|t.published|..] == news;
  }

  lemma RunCons(t: Tracker, i: Input, rest: seq<Input>)
    ensures Run(t, [i] + rest) == Run(Next(t, i), rest)
  {
    assert ([i] + rest)[1..] == rest;
  }

  // ---- the rules of the mail server ---------------------------------------------

  /** UIDVALIDITY is never zero and never decreases (RFC 3501, section 2.3.1.1), and the
      mailbox is not removed. */
  ghost predicate Standard(t: Tracker, inputs: seq<Input>)
    decreases inputs
  {
    inputs == [] ||
    (Standard(Next(t, inputs[0]), inputs[1..])
     && match inputs[0]
        case Session(uidvalidity, _) => 0 < uidvalidity && t.uidvalidity <= uidvalidity
        case Push(messages) => DistinctUids(messages)
        case Remove => false
        case Add => true)
  }

  /** Nothing was published under a UIDVALIDITY yet to come. */
  ghost predicate NoFuture(t: Tracker) {
    forall e :: e in t.published ==> 0 < e.uidvalidity <= t.uidvalidity
  }

  lemma {:induction false} StandardRunsAreSafe(t: Tracker, inputs: seq<Input>)
    requires Tidy(t) && NoFuture(t) && Standard(t, inputs)
    requires t.present && (t.session.Some? ==> t.uidvalidity > 0)
    ensures SafeRun(t, inputs)
    decreases inputs
  {
    if inputs == [] {
    } else {
      var next := Next(t, inputs[0]);
      if inputs[0].Push? {
        PushKeepsTidy(t, inputs[0].messages);
        DeliveredAre(t.uidvalidity, t.lastUid, inputs[0].messages);
      }
      StandardRunsAreSafe(next, inputs[1..]);
    }
  }

  /** From a newly added mailbox every standard run publishes each (UIDVALIDITY, UID)
      at most once. */
  lemma StandardRunsPublishOnce(inputs: seq<Input>)
    requires Standard(NEW_MAILBOX, inputs)
    ensures Unique(Run(NEW_MAILBOX, inputs).published)
  {
    StandardRunsAreSafe(NEW_MAILBOX, inputs);
    AtMostOnce(NEW_MAILBOX, inputs);
  }

  lemma {:induction false} UidvalidityGrows(t: Tracker, inputs: seq<Input>)
    requires t.present && Standard(t, inputs)
    ensures Run(t, inputs).uidvalidity >= t.uidvalidity
    decreases inputs
  {
    if inputs == [] {
    } else {
      UidvalidityGrows(Next(t, inputs[0]), inputs[1..]);
    }
  }

  /** Over any sequence of sessions the stored UID never goes back while the
      UIDVALIDITY is the same. */
  lemma {:induction false} LastUidGrows(t: Tracker, inputs: seq<Input>)
    requires t.present && t.uidvalidity > 0 && Standard(t, inputs) && Run(t, inputs).uidvalidity == t.uidvalidity
    ensures Run(t, inputs).lastUid >= t.lastUid
    decreases inputs
  {
    if inputs == [] {
    } else {
      UidvalidityGrows(Next(t, inputs[0]), inputs[1..]);
      if inputs[0].Push? {
        HighestBounds(t.lastUid, inputs[0].messages);
      }
      LastUidGrows(Next(t, inputs[0]), inputs[1..]);
    }
  }

  // ---- the numbers the client reads -----------------------------------------------

  /** Every session of the run reads the same numbers, and the mailbox is not removed. */
  ghost predicate Reads(inputs: seq<Input>, uidvalidity: nat, uidnext: nat) {
    forall i :: i in inputs ==> match i
                                case Session(v, n) => v == uidvalidity && n == uidnext
                                case Push(messages) => DistinctUids(messages)
                                case Remove => false
                                case Add => true
  }

  /** Until a session nothing is published. */
  ghost predicate Waits(t: Tracker, uidvalidity: nat) {
    t.present && (t.uidvalidity == uidvalidity || (t.uidvalidity == 0 && t.session == None && t.published == []))
  }

  lemma {:induction false} SameNumbersAreSafe(t: Tracker, inputs: seq<Input>, uidvalidity: nat, uidnext: nat)
    requires Tidy(t) && uidvalidity > 0 && Reads(inputs, uidvalidity, uidnext) && Waits(t, uidvalidity)
    ensures SafeRun(t, inputs)
    decreases inputs
  {
    if inputs == [] {
    } else {
      assert inputs[0] in inputs && forall i :: i in inputs[1..] ==> i in inputs;
      if inputs[0].Push? {
        PushKeepsTidy(t, inputs[0].messages);
        DeliveredAre(t.uidvalidity, t.lastUid, inputs[0].messages);
      }
      SameNumbersAreSafe(Next(t, inputs[0]), inputs[1..], uidvalidity, uidnext);
    }
  }

  /** Two sessions with a UIDVALIDITY of zero, and the same push in both. */
  function Reconnect(uidnext: nat, uid: nat): seq<Input> {
    [Session(0, uidnext)] + ([Push([Message(uid, Deliver)])]
                             + ([Session(0, uidnext)] + ([Push([Message(uid, Deliver)])] + [])))
  }

  /** A UIDVALIDITY that reads as zero resets the tracking in every session: each
      reconnect publishes again what is not below the UIDNEXT read. */
  lemma ZeroPublishesAgain(uidnext: nat, uid: nat)
    requires uid > 0 && uid >= uidnext
    ensures Reads(Reconnect(uidnext, uid), 0, uidnext)
    ensures Run(NEW_MAILBOX, Reconnect(uidnext, uid)).published == [Event(0, uid), Event(0, uid)]
  {
    var session, push := Session(0, uidnext), Push([Message(uid, Deliver)]);
    var t1 := SessionStarted(NEW_MAILBOX, 0, uidnext);
    var t2 := Next(t1, push);
    var t3 := SessionStarted(t2, 0, uidnext);
    OneDelivery(t1, uid);
    OneDelivery(t3, uid);
    RunCons(t3, push, []);
    RunCons(t2, session, [push] + []);
    RunCons(t1, push, [session] + ([push] + []));
    RunCons(NEW_MAILBOX, session, [push] + ([session] + ([push] + [])));
    assert [] + [Event(0, uid)] + [Event(0, uid)] == [Event(0, uid), Event(0, uid)];
  }

  /** When every session reads the same numbers, no run publishes a message twice
      exactly when the UIDVALIDITY read is not zero. */
  lemma SameNumbersPublishOnceIff(uidvalidity: nat, uidnext: nat)
    ensures (forall inputs :: Reads(inputs, uidvalidity, uidnext) ==> Unique(Run(NEW_MAILBOX, inputs).published))
            <==> uidvalidity > 0
  {
    if uidvalidity > 0 {
      forall inputs | Reads(inputs, uidvalidity, uidnext) ensures Unique(Run(NEW_MAILBOX, inputs).published) {
        SameNumbersAreSafe(NEW_MAILBOX, inputs, uidvalidity, uidnext);
        AtMostOnce(NEW_MAILBOX, inputs);
      }
    } else {
      ZeroPublishesAgain(uidnext, uidnext + 1);
      var twice := Run(NEW_MAILBOX, Reconnect(uidnext, uidnext + 1)).published;
      assert twice[0] == twice[1];
    }
  }

  /** Every SELECT of the run is answered with these lines. */
  ghost predicate Answers(inputs: seq<Input>, lines: seq<string>) {
    Reads(inputs, SelectResponse.FirstNumber(lines, "uidvalidity"), SelectResponse.FirstNumber(lines, "uidnext"))
  }

  /** A server that announces a UIDVALIDITY in one line of its answer, with `c` after
      the digits: no run publishes a message twice exactly when `c` is a blank.  With
      the usual closing bracket old messages are published again. */
  lemma ServerAnswerPublishesOnceIff(lines: seq<string>, at: nat, digits: string, c: char, rest: string)
    requires at < |lines| && digits != "" && Digits(digits) && 0 < Number(digits) <= MAX_U32
    requires !IsDigit(c) && (IsSpace(c) ==> c == ' ')
    requires Lower(Trim(lines[at])) == "* ok [uidvalidity " + digits + [c] + rest
    requires forall i :: 0 <= i < |lines| && i != at ==> Find(Lower(Trim(lines[i])), "uidvalidity") == None
    ensures (forall inputs :: Answers(inputs, lines) ==> Unique(Run(NEW_MAILBOX, inputs).published)) <==> c == ' '
  {
    hide Find, Trim, Lower, Number;
    assert "* ok [" + "uidvalidity" + " " == "* ok [uidvalidity ";
    SelectResponse.ServerResponseReads(lines, "uidvalidity", at, digits, c, rest);
    var uidvalidity := SelectResponse.FirstNumber(lines, "uidvalidity");
    SameNumbersPublishOnceIff(uidvalidity, SelectResponse.FirstNumber(lines, "uidnext"));
  }
}
