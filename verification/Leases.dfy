/**
 The mailbox sync lease of shared/lib/mysql.ts: rows of `lead_recovery_state`
 that workers claim, complete and fail.

 One clock stands for both the database clock and the clock of the workers.
 */
module Leases {
  import opened Common

  datatype Key = Key(tenant: string, mailbox: string)
  datatype Status = Idle | Queued | Syncing | Completed | Failed
  datatype Row = Row(
    isActive: bool,
    isBusy: bool,
    syncRequestedAt: Option<nat>,
    lastSyncAt: Option<nat>,
    availableAt: Option<nat>,
    status: Status,
    errorMessage: Option<string>,
    updatedAt: Option<nat>)

  type Table = map<Key, Row>

  const HOUR := 3600

  /** How long a busy row must have gone unwritten to count as stale. */
  const CUTOFF := 900

  /** The column defaults a new row starts from. */
  const NEW_ROW := Row(false, false, None, None, None, Idle, None, None)

  /** A sync has been asked for since the last one ended. */
  predicate Pending(row: Row) {
    row.syncRequestedAt.Some? && (row.lastSyncAt.None? || row.syncRequestedAt.value > row.lastSyncAt.value)
  }

  predicate Cooled(row: Row, now: nat) {
    row.availableAt.None? || row.availableAt.value <= now
  }

  /** The condition of the claim's `SELECT … FOR UPDATE`. */
  predicate Claimable(row: Row, now: nat) {
    row.isActive && !row.isBusy && Pending(row) && Cooled(row, now)
  }

  /** What a polling worker takes for the row of a crashed one. */
  predicate Stale(row: Row, now: nat) {
    && row.isActive && row.isBusy && Pending(row) && Cooled(row, now)
    && row.updatedAt.Some? && row.updatedAt.value + CUTOFF < now
  }

  /** `ON UPDATE CURRENT_TIMESTAMP`: a write that changes nothing keeps the stamp. */
  function Stamp(before: Row, row: Row, now: nat): Row {
    if row == before && before.updatedAt.Some? then before else row.(updatedAt := Some(now))
  }

  function ClaimedRow(row: Row, now: nat): Row {
    Stamp(row, row.(isBusy := true, status := Syncing), now)
  }

  function CompletedRow(row: Row, now: nat): Row {
    Stamp(row, row.(isBusy := false, availableAt := None, lastSyncAt := Some(now),
                    status := Completed, errorMessage := None), now)
  }

  function FailedRow(row: Row, now: nat, message: Option<string>): Row {
    Stamp(row, row.(isBusy := false, status := Failed, availableAt := Some(now + HOUR),
                    lastSyncAt := Some(now), errorMessage := message), now)
  }

  function RecoveredRow(row: Row, now: nat): Row {
    Stamp(row, row.(isBusy := false, status := Idle, availableAt := Some(now)), now)
  }

  /** The columns one `upsertRecoveryState` call writes; it never writes `last_sync_at` here. */
  datatype Patch = Patch(
    isActive: Option<bool>,
    isBusy: Option<bool>,
    requested: bool,
    clearsAvailableAt: bool,
    status: Option<Status>,
    clearsError: bool)

  /** What the sync route sends. */
  const SYNC_PATCH := Patch(Some(true), Some(false), true, true, Some(Queued), true)

  /** What the activate route sends. */
  const ACTIVATE_PATCH := Patch(Some(true), Some(false), false, true, Some(Idle), false)

  function PatchedRow(row: Row, p: Patch, now: nat): Row {
    Stamp(row, row.(
      isActive := if p.isActive.Some? then p.isActive.value else row.isActive,
      isBusy := if p.isBusy.Some? then p.isBusy.value else row.isBusy,
      syncRequestedAt := if p.requested then Some(now) else row.syncRequestedAt,
      availableAt := if p.clearsAvailableAt then None else row.availableAt,
      status := if p.status.Some? then p.status.value else row.status,
      errorMessage := if p.clearsError then None else row.errorMessage), now)
  }

  function RowAt(rows: Table, k: Key): Row {
    if k in rows then rows[k] else NEW_ROW
  }

  // ---- the table after one statement ------------------------------------------

  /** A claim that runs alone, and the row it returns. */
  function AfterClaim(rows: Table, k: Key, now: nat): (Table, Option<Row>) {
    if k in rows && Claimable(rows[k], now) then (rows[k := ClaimedRow(rows[k], now)], Some(ClaimedRow(rows[k], now)))
    else (rows, None)
  }

  /** The row is inserted when it is missing. */
  function AfterComplete(rows: Table, k: Key, now: nat): Table {
    rows[k := CompletedRow(RowAt(rows, k), now)]
  }

  function AfterFail(rows: Table, k: Key, now: nat, message: Option<string>): Table {
    rows[k := FailedRow(RowAt(rows, k), now, message)]
  }

  /** A missing row stays missing. */
  function AfterRecover(rows: Table, k: Key, now: nat): Table {
    if k in rows then rows[k := RecoveredRow(rows[k], now)] else rows
  }

  function AfterUpsert(rows: Table, k: Key, p: Patch, now: nat): Table {
    rows[k := PatchedRow(RowAt(rows, k), p, now)]
  }

  /** The table with its statements as methods. */
  class RecoveryTable {
    var rows: Table

    constructor ()
      ensures rows == map[]
    {
      rows := map[];
    }

    /** The whole claim transaction, run alone. */
    method ClaimMailboxForSync(k: Key, now: nat) returns (claimed: Option<Row>)
      modifies this
      ensures (rows, claimed) == AfterClaim(old(rows), k, now)
    {
      if k !in rows || !Claimable(rows[k], now) {
        return None;
      }
      rows := rows[k := Stamp(rows[k], rows[k].(isBusy := true, status := Syncing), now)];
      claimed := Some(rows[k]);
    }

    method CompleteMailboxSync(k: Key, now: nat)
      modifies this
      ensures rows == AfterComplete(old(rows), k, now)
    {
      if k !in rows {
        rows := rows[k := NEW_ROW];
      }
      var row := rows[k].(isBusy := false, availableAt := None, lastSyncAt := Some(now),
                          status := Completed, errorMessage := None);
      rows := rows[k := Stamp(rows[k], row, now)];
    }

    method FailMailboxSync(k: Key, now: nat, message: Option<string>)
      modifies this
      ensures rows == AfterFail(old(rows), k, now, message)
    {
      if k !in rows {
        rows := rows[k := NEW_ROW];
      }
      var row := rows[k].(isBusy := false, status := Failed, availableAt := Some(now + HOUR),
                          lastSyncAt := Some(now), errorMessage := message);
      rows := rows[k := Stamp(rows[k], row, now)];
    }

    method RecoverStaleBusyState(k: Key, now: nat)
      modifies this
      ensures rows == AfterRecover(old(rows), k, now)
    {
      if k in rows {
        rows := rows[k := Stamp(rows[k], rows[k].(isBusy := false, status := Idle, availableAt := Some(now)), now)];
      }
    }
  }
}
