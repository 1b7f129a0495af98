/**
 The merge of `upsertRecoveredLead` in shared/lib/mysql.ts: message ids and
 objections that a lead already has are kept, new ones are appended.
 */
module LeadMerge {
  import opened Common

  datatype Objection = Objection(category: string, rule: string, evidence: Option<string>, syncedAt: Option<string>)
  datatype Lead = Lead(messageIds: seq<string>, objections: seq<Objection>)
  datatype Key = Key(tenant: string, mailbox: string, email: string)

  /** One upsert call; absent lists leave the stored ones as they are. */
  datatype Update = Update(messageIds: Option<seq<string>>, objections: Option<seq<Objection>>)

  const NEW_LEAD := Lead([], [])

  // ---- message ids --------------------------------------------------------

  function MergedIds(current: seq<string>, incoming: seq<string>): seq<string> {
    if incoming == [] then current
    else
      var merged := MergedIds(current, incoming[..|incoming| - 1]);
      var id := incoming[|incoming| - 1];
      if id in merged then merged else merged + [id]
  }

  method MergeMessageIds(current: seq<string>, incoming: seq<string>) returns (merged: seq<string>)
    ensures merged == MergedIds(current, incoming)
  {
    merged := current;
    for i := 0 to |incoming|
      invariant merged == MergedIds(current, incoming[..i])
    {
      assert incoming[..i + 1][..i] == incoming[..i];
      if incoming[i] !in merged {
        merged := merged + [incoming[i]];
      }
    }
    assert incoming[..|incoming|] == incoming;
  }

  /** The old list stays in front, the ids are those of both lists, and nothing
      new is stored twice. */
  lemma {:induction false} MergedIdsAre(current: seq<string>, incoming: seq<string>)
    ensures current <= MergedIds(current, incoming)
    ensures forall id :: id in MergedIds(current, incoming) <==> id in current || id in incoming
    ensures Unique(current) ==> Unique(MergedIds(current, incoming))
  {
    if incoming == [] {
    } else {
      var n := |incoming| - 1;
      assert incoming == incoming[..n] + [incoming[n]];
      MergedIdsAre(current, incoming[..n]);
    }
  }

  /** Two merges in a row are one merge with both lists: nothing depends on how
      a serial run cuts the incoming ids into calls. */
  lemma {:induction false} MergedIdsInSteps(current: seq<string>, first: seq<string>, second: seq<string>)
    ensures MergedIds(MergedIds(current, first), second) == MergedIds(current, first + second)
  {
    if second == [] {
      assert first + second == first;
    } else {
      var n := |second| - 1;
      assert (first + second)[..|first + second| - 1] == first + second[..n];
      MergedIdsInSteps(current, first, second[..n]);
    }
  }

  /** Ids that are already there change nothing. */
  lemma {:induction false} MergedIdsAbsorb(current: seq<string>, incoming: seq<string>)
    requires forall id :: id in incoming ==> id in current
    ensures MergedIds(current, incoming) == current
  {
    if incoming == [] {
    } else {
      MergedIdsAbsorb(current, incoming[..|incoming| - 1]);
    }
  }

  // ---- objections ---------------------------------------------------------

  function Rules(os: seq<Objection>): set<string> {
    set o | o in os :: o.rule
  }

  function MergedObjections(current: seq<Objection>, incoming: seq<Objection>): seq<Objection> {
    if incoming == [] then current
    else
      var merged := MergedObjections(current, incoming[..|incoming| - 1]);
      var o := incoming[|incoming| - 1];
      if o.rule in Rules(merged) then merged else merged + [o]
  }

  /** The loop keeps the rules it has seen in a set beside the list. */
  method MergeObjections(current: seq<Objection>, incoming: seq<Objection>) returns (merged: seq<Objection>)
    ensures merged == MergedObjections(current, incoming)
  {
    merged := current;
    var existingRules := Rules(current);
    for i := 0 to |incoming|
      invariant merged == MergedObjections(current, incoming[..i])
      invariant existingRules == Rules(merged)
    {
      assert incoming[..i + 1][..i] == incoming[..i];
      var o := incoming[i];
      if o.rule !in existingRules {
        RulesGrow(merged, o);
        merged := merged + [o];
        existingRules := existingRules + {o.rule};
      }
    }
    assert incoming[..|incoming|] == incoming;
  }

  lemma RulesGrow(os: seq<Objection>, o: Objection)
    ensures Rules(os + [o]) == Rules(os) + {o.rule}
  {
    forall rule | rule in Rules(os) + {o.rule} ensures rule in Rules(os + [o]) {
      if rule == o.rule {
        assert o in os + [o];
      } else {
        var p :| p in os && p.rule == rule;
        assert p in os + [o];
      }
    }
  }

  ghost predicate UniqueRules(os: seq<Objection>) {
    forall i, j :: 0 <= i < j < |os| ==> os[i].rule != os[j].rule
  }

  /** The first objection with the rule. */
  function FirstWith(os: seq<Objection>, rule: string): Option<Objection> {
    if os == [] then None
    else if FirstWith(os[..|os| - 1], rule).Some? then FirstWith(os[..|os| - 1], rule)
    else if os[|os| - 1].rule == rule then Some(os[|os| - 1])
    else None
  }

  lemma {:induction false} FirstWithExists(os: seq<Objection>, rule: string)
    ensures FirstWith(os, rule).Some? <==> rule in Rules(os)
  {
    if os == [] {
    } else {
      var n := |os| - 1;
      assert os == os[..n] + [os[n]];
      FirstWithExists(os[..n], rule);
      RulesGrow(os[..n], os[n]);
    }
  }

  lemma FirstWithGrows(os: seq<Objection>, o: Objection, rule: string)
    ensures FirstWith(os + [o], rule)
            == if FirstWith(os, rule).Some? then FirstWith(os, rule) else if o.rule == rule then Some(o) else None
  {
    assert (os + [o])[..|os|] == os;
  }

  /** For every rule the stored objection is the first one ever offered. */
  lemma {:induction false} FirstObjectionWins(current: seq<Objection>, incoming: seq<Objection>, rule: string)
    ensures FirstWith(MergedObjections(current, incoming), rule) == FirstWith(current + incoming, rule)
  {
    if incoming == [] {
      assert current + incoming == current;
    } else {
      var front, o := incoming[..|incoming| - 1], incoming[|incoming| - 1];
      var merged := MergedObjections(current, front);
      FirstObjectionWins(current, front, rule);
      FirstWithExists(merged, o.rule);
      FirstWithGrows(merged, o, rule);
      FirstWithGrows(current + front, o, rule);
      assert current + incoming == current + front + [o];
    }
  }

  /** The old objections stay in front and rules stay unique. */
  lemma {:induction false} MergedObjectionsAre(current: seq<Objection>, incoming: seq<Objection>)
    ensures current <= MergedObjections(current, incoming)
    ensures UniqueRules(current) ==> UniqueRules(MergedObjections(current, incoming))
  {
    if incoming == [] {
    } else {
      var n := |incoming| - 1;
      MergedObjectionsAre(current, incoming[..n]);
      var merged := MergedObjections(current, incoming[..n]);
      forall i | 0 <= i < |merged| ensures merged[i].rule in Rules(merged) {
        assert merged[i] in merged;
      }
    }
  }

  lemma {:induction false} MergedObjectionsInSteps(
      current: seq<Objection>, first: seq<Objection>, second: seq<Objection>)
    ensures MergedObjections(MergedObjections(current, first), second) == MergedObjections(current, first + second)
  {
    if second == [] {
      assert first + second == first;
    } else {
      var n := |second| - 1;
      assert (first + second)[..|first + second| - 1] == first + second[..n];
      MergedObjectionsInSteps(current, first, second[..n]);
    }
  }

  lemma {:induction false} MergedObjectionsAbsorb(current: seq<Objection>, incoming: seq<Objection>)
    requires forall o :: o in incoming ==> o.rule in Rules(current)
    ensures MergedObjections(current, incoming) == current
  {
    if incoming == [] {
    } else {
      MergedObjectionsAbsorb(current, incoming[..|incoming| - 1]);
    }
  }

  // ---- upserts -------------------------------------------------------------

  function Offered<T>(items: Option<seq<T>>): seq<T> {
    if items.Some? then items.value else []
  }

  function Upserted(lead: Lead, u: Update): Lead {
    Lead(MergedIds(lead.messageIds, Offered(u.messageIds)), MergedObjections(lead.objections, Offered(u.objections)))
  }

  /** The table of recovered leads; every call runs in its own transaction. */
  class RecoveredLeads {
    var rows: map<Key, Lead>

    method UpsertRecoveredLead(k: Key, u: Update)
      modifies this
      ensures rows == old(rows)[k := Upserted(if k in old(rows) then old(rows)[k] else NEW_LEAD, u)]
    {
      var current := if k in rows then rows[k] else NEW_LEAD;
      var ids, objections := current.messageIds, current.objections;
      if u.messageIds.Some? {
        ids := MergeMessageIds(ids, u.messageIds.value);
      }
      if u.objections.Some? {
        objections := MergeObjections(objections, u.objections.value);
      }
      rows := rows[k := Lead(ids, objections)];
    }
  }

  /** A serial run of upserts on one lead. */
  function UpsertAll(lead: Lead, us: seq<Update>): Lead {
    if us == [] then lead else Upserted(UpsertAll(lead, us[..|us| - 1]), us[|us| - 1])
  }

  function AllIds(us: seq<Update>): seq<string> {
    if us == [] then [] else AllIds(us[..|us| - 1]) + Offered(us[|us| - 1].messageIds)
  }

  function AllObjections(us: seq<Update>): seq<Objection> {
    if us == [] then [] else AllObjections(us[..|us| - 1]) + Offered(us[|us| - 1].objections)
  }

  /** A run of upserts is one upsert of everything it offers. */
  lemma {:induction false} RunIsOneUpsert(lead: Lead, us: seq<Update>)
    ensures UpsertAll(lead, us) == Upserted(lead, Update(Some(AllIds(us)), Some(AllObjections(us))))
  {
    if us == [] {
    } else {
      var n := |us| - 1;
      RunIsOneUpsert(lead, us[..n]);
      MergedIdsInSteps(lead.messageIds, AllIds(us[..n]), Offered(us[n].messageIds));
      MergedObjectionsInSteps(lead.objections, AllObjections(us[..n]), Offered(us[n].objections));
    }
  }

  /** What every serial run guarantees. */
  lemma RunKeepsLead(lead: Lead, us: seq<Update>)
    ensures var after := UpsertAll(lead, us);
            && lead.messageIds <= after.messageIds
            && lead.objections <= after.objections
            && (Unique(lead.messageIds) ==> Unique(after.messageIds))
            && (UniqueRules(lead.objections) ==> UniqueRules(after.objections))
            && (forall id :: id in after.messageIds <==> id in lead.messageIds || id in AllIds(us))
            && (forall rule :: FirstWith(after.objections, rule) == FirstWith(lead.objections + AllObjections(us), rule))
  {
    RunIsOneUpsert(lead, us);
    MergedIdsAre(lead.messageIds, AllIds(us));
    MergedObjectionsAre(lead.objections, AllObjections(us));
    forall rule
      ensures FirstWith(UpsertAll(lead, us).objections, rule) == FirstWith(lead.objections + AllObjections(us), rule)
    {
      FirstObjectionWins(lead.objections, AllObjections(us), rule);
    }
  }

  /** Repeating a whole run changes nothing. */
  lemma RunIsIdempotent(lead: Lead, us: seq<Update>)
    ensures UpsertAll(UpsertAll(lead, us), us) == UpsertAll(lead, us)
  {
    RunIsOneUpsert(lead, us);
    RunIsOneUpsert(UpsertAll(lead, us), us);
    RunKeepsLead(lead, us);
    MergedIdsAbsorb(UpsertAll(lead, us).messageIds, AllIds(us));
    var after := UpsertAll(lead, us).objections;
    forall o | o in AllObjections(us) ensures o.rule in Rules(after) {
      FirstWithExists(lead.objections + AllObjections(us), o.rule);
      FirstWithExists(after, o.rule);
      assert o in lead.objections + AllObjections(us);
    }
    MergedObjectionsAbsorb(after, AllObjections(us));
  }
}
