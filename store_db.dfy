/** The persisted state of backend/src/database/db.js — the `stores` table and the
    `audit_log` table — as the prepared statements of storeService.js read and write it,
    together with the start-up migrations and the stale-provisioning sweep.

    The table is a map from id to row; each SQL statement the core runs is one method of
    `StoreTable`, specified by a function of the old rows. */
module StoreDb {
  import opened Values

  type StoreId = string

  /** A CURRENT_TIMESTAMP value; the clock is a parameter of every statement that reads it. */
  type Time = nat

  datatype Status = Provisioning | Ready | Failed | Deleting | Deleted

  /** A row in one of these states does not count against the store cap, and its slug may be
      taken by a new store (after the row is removed). */
  predicate Releasable(s: Status) {
    s == Deleted || s == Failed
  }

  datatype Row = Row(
    id: StoreId,
    name: string,
    slug: string,
    storeType: string,
    status: Status,
    namespace: string,
    storeUrl: Option<string>,
    adminUrl: Option<string>,
    errorMessage: Option<string>,
    startedAt: Option<Time>,
    finishedAt: Option<Time>,
    createdAt: Time)

  datatype Action = Create | ProvisionSuccess | ProvisionFailed | DeleteStart | DeleteSuccess | DeleteFailed

  /** The JSON `details` payload of each kind of audit entry. */
  datatype Details =
    | CreateDetails(name: string, slug: string, storeType: string)
    | UrlDetails(storeUrl: Option<string>, adminUrl: Option<string>)
    | ErrorDetails(error: string)
    | NameDetails(name: string)

  datatype AuditEntry = AuditEntry(storeId: StoreId, action: Action, details: Details, ip: Option<string>)

  const RestartMessage := "Server restarted during provisioning"

  // ---------------------------------------------------------------------------
  // Table constraints

  /** PRIMARY KEY: the map is keyed by each row's own id. */
  predicate KeysMatch(rows: map<StoreId, Row>) {
    forall id :: id in rows ==> rows[id].id == id
  }

  /** `slug TEXT UNIQUE NOT NULL`: no two rows share a slug, whatever their status. */
  predicate SlugsUnique(rows: map<StoreId, Row>) {
    forall a, b :: a in rows && b in rows && rows[a].slug == rows[b].slug ==> a == b
  }

  predicate TableInvariant(rows: map<StoreId, Row>) {
    KeysMatch(rows) && SlugsUnique(rows)
  }

  predicate SlugFree(rows: map<StoreId, Row>, slug: string) {
    forall id :: id in rows ==> rows[id].slug != slug
  }

  // ---------------------------------------------------------------------------
  // The statements, as functions of the rows before them

  /** insertStore: status 'provisioning', no URLs, started now. */
  function Inserted(rows: map<StoreId, Row>, id: StoreId, name: string, slug: string,
                    storeType: string, namespace: string, now: Time): map<StoreId, Row>
  {
    rows[id := Row(id, name, slug, storeType, Provisioning, namespace, None, None, None, Some(now), None, now)]
  }

  /** updateStoreStatus: `UPDATE ... WHERE id = ?` changes nothing when the id is absent. */
  function StatusSet(rows: map<StoreId, Row>, id: StoreId, status: Status, storeUrl: Option<string>,
                     adminUrl: Option<string>, errorMessage: Option<string>): map<StoreId, Row>
  {
    if id in rows
    then rows[id := rows[id].(status := status, storeUrl := storeUrl, adminUrl := adminUrl, errorMessage := errorMessage)]
    else rows
  }

  /** setProvisionFinished. */
  function FinishStamped(rows: map<StoreId, Row>, id: StoreId, now: Time): map<StoreId, Row> {
    if id in rows then rows[id := rows[id].(finishedAt := Some(now))] else rows
  }

  /** The start-up sweep: every 'provisioning' row becomes 'failed' with the restart message. */
  function Swept(rows: map<StoreId, Row>): map<StoreId, Row> {
    map id | id in rows ::
      if rows[id].status == Provisioning
      then rows[id].(status := Failed, errorMessage := Some(RestartMessage))
      else rows[id]
  }

  // ---------------------------------------------------------------------------
  // Counting queries

  function IdsWithStatus(rows: map<StoreId, Row>, s: Status): set<StoreId> {
    set id | id in rows && rows[id].status == s
  }

  /** countActiveStores: `status NOT IN ('deleted', 'failed')`. */
  function ActiveIds(rows: map<StoreId, Row>): set<StoreId> {
    set id | id in rows && !Releasable(rows[id].status)
  }

  /** getAllStores and countTotal: `status != 'deleted'`. */
  function ListedIds(rows: map<StoreId, Row>): set<StoreId> {
    set id | id in rows && rows[id].status != Deleted
  }

  function CountActive(rows: map<StoreId, Row>): nat {
    |ActiveIds(rows)|
  }

  function CountWithStatus(rows: map<StoreId, Row>, s: Status): nat {
    |IdsWithStatus(rows, s)|
  }

  /** The rows a statement changed: SQLite's `changes` for an UPDATE whose every matched row
      gets a new value. */
  function ChangedIds(before: map<StoreId, Row>, after: map<StoreId, Row>): set<StoreId> {
    set id | id in before && id in after && before[id] != after[id]
  }

  /** countByStatus: `GROUP BY status` over the rows that are not deleted; a status with no
      row has no entry. */
  function CountsByStatus(rows: map<StoreId, Row>): (m: map<Status, nat>)
    ensures Deleted !in m
    ensures forall s :: s in m ==> m[s] == CountWithStatus(rows, s) && m[s] > 0
    ensures forall s :: s != Deleted && s !in m ==> CountWithStatus(rows, s) == 0
  {
    map s | s in {Provisioning, Ready, Failed, Deleting} && CountWithStatus(rows, s) > 0 :: CountWithStatus(rows, s)
  }

  // ---------------------------------------------------------------------------
  // Lemmas about the statements

  /** The sweep marks every provisioning row failed with the restart message, changes no
      other row (rows in 'deleting' included), changes exactly as many rows as were
      provisioning, and keeps the table constraints. */
  lemma SweepProperties(rows: map<StoreId, Row>)
    ensures var r := Swept(rows);
      && r.Keys == rows.Keys
      && (forall id :: id in rows && rows[id].status == Provisioning ==>
            r[id].status == Failed && r[id].errorMessage == Some(RestartMessage)
            && r[id] == rows[id].(status := Failed, errorMessage := Some(RestartMessage)))
      && (forall id :: id in rows && rows[id].status != Provisioning ==> r[id] == rows[id])
      && IdsWithStatus(r, Provisioning) == {}
      && ChangedIds(rows, r) == IdsWithStatus(rows, Provisioning)
      && |ChangedIds(rows, r)| == CountWithStatus(rows, Provisioning)
      && (TableInvariant(rows) ==> TableInvariant(r))
  {
    var r := Swept(rows);
    assert ChangedIds(rows, r) == IdsWithStatus(rows, Provisioning) by {
      forall id | id in rows
        ensures id in ChangedIds(rows, r) <==> id in IdsWithStatus(rows, Provisioning)
      {
        if rows[id].status == Provisioning {
          assert r[id].status != rows[id].status;
        }
      }
    }
  }

  /** The sweep frees one admission slot per stale provisioning row. */
  lemma SweepFreesSlots(rows: map<StoreId, Row>)
    ensures CountActive(Swept(rows)) == CountActive(rows) - CountWithStatus(rows, Provisioning)
  {
    var r := Swept(rows);
    var p := IdsWithStatus(rows, Provisioning);
    assert p <= ActiveIds(rows);
    assert ActiveIds(r) == ActiveIds(rows) - p;
  }

  /** An update that keeps every row's key and slug keeps the table's constraints. */
  lemma KeysAndSlugsKept(before: map<StoreId, Row>, after: map<StoreId, Row>)
    requires TableInvariant(before)
    requires after.Keys == before.Keys
    requires forall id :: id in after ==> after[id].id == before[id].id && after[id].slug == before[id].slug
    ensures TableInvariant(after)
  {
  }

  /** Setting a row's status moves that row, and only it, in or out of the active set. */
  lemma StatusSetActive(rows: map<StoreId, Row>, id: StoreId, status: Status, storeUrl: Option<string>,
                        adminUrl: Option<string>, errorMessage: Option<string>)
    requires id in rows
    ensures ActiveIds(StatusSet(rows, id, status, storeUrl, adminUrl, errorMessage))
      == (ActiveIds(rows) - {id}) + (if Releasable(status) then {} else {id})
  {
    var after := StatusSet(rows, id, status, storeUrl, adminUrl, errorMessage);
    forall x | x in after && x != id
      ensures after[x] == rows[x]
    {
    }
  }

  /** Removing a releasable row (slug reclamation) leaves the count the cap is checked
      against unchanged. */
  lemma RemoveReleasableCount(rows: map<StoreId, Row>, id: StoreId)
    requires id in rows && Releasable(rows[id].status)
    ensures CountActive(rows - {id}) == CountActive(rows)
  {
    assert ActiveIds(rows - {id}) == ActiveIds(rows);
  }

  /** Inserting a store adds exactly one row to that count. */
  lemma InsertCount(rows: map<StoreId, Row>, id: StoreId, name: string, slug: string,
                    storeType: string, namespace: string, now: Time)
    requires id !in rows
    ensures CountActive(Inserted(rows, id, name, slug, storeType, namespace, now)) == CountActive(rows) + 1
  {
    var after := Inserted(rows, id, name, slug, storeType, namespace, now);
    assert ActiveIds(after) == ActiveIds(rows) + {id};
  }

  /** The per-status counts of the metrics add up to the total of non-deleted rows. */
  lemma CountsByStatusSum(rows: map<StoreId, Row>)
    ensures |ListedIds(rows)| ==
      CountWithStatus(rows, Provisioning) + CountWithStatus(rows, Ready)
      + CountWithStatus(rows, Failed) + CountWithStatus(rows, Deleting)
  {
    var p := IdsWithStatus(rows, Provisioning);
    var r := IdsWithStatus(rows, Ready);
    var f := IdsWithStatus(rows, Failed);
    var d := IdsWithStatus(rows, Deleting);
    ListedPartition(rows);
    DisjointUnionSize(p, r);
    DisjointUnionSize(p + r, f);
    DisjointUnionSize(p + r + f, d);
  }

  lemma ListedPartition(rows: map<StoreId, Row>)
    ensures ListedIds(rows) == IdsWithStatus(rows, Provisioning) + IdsWithStatus(rows, Ready)
      + IdsWithStatus(rows, Failed) + IdsWithStatus(rows, Deleting)
  {
    forall id | id in ListedIds(rows)
      ensures rows[id].status in {Provisioning, Ready, Failed, Deleting}
    {
    }
  }

  lemma DisjointUnionSize(a: set<StoreId>, b: set<StoreId>)
    requires forall id :: id in a ==> id !in b
    ensures |a + b| == |a| + |b|
  {
    assert a * b == {};
  }

  // ---------------------------------------------------------------------------
  // The audit query

  /** The `n` most recent entries of `log`, newest first. */
  function Newest(log: seq<AuditEntry>, n: nat): (r: seq<AuditEntry>)
    ensures |r| == if n < |log| then n else |log|
    ensures forall i :: 0 <= i < |r| ==> r[i] == log[|log| - 1 - i]
  {
    if n == 0 || log == [] then [] else [log[|log| - 1]] + Newest(log[..|log| - 1], n - 1)
  }

  // ---------------------------------------------------------------------------
  // The two tables

  class StoreTable {
    var rows: map<StoreId, Row>
    var audit: seq<AuditEntry>

    ghost predicate Valid()
      reads this
    {
      TableInvariant(rows)
    }

    constructor (rows0: map<StoreId, Row>, audit0: seq<AuditEntry>)
      requires TableInvariant(rows0)
      ensures Valid() && rows == rows0 && audit == audit0
    {
      rows, audit := rows0, audit0;
    }

    /** getStoreById. */
    function Get(id: StoreId): (r: Option<Row>)
      reads this
      ensures r.None? <==> id !in rows
      ensures r.Some? ==> r.value == rows[id]
      ensures Valid() && r.Some? ==> r.value.id == id
    {
      if id in rows then Some(rows[id]) else None
    }

    /** getStoreBySlug: the row holding the slug, if any; the UNIQUE constraint makes it the
        only one. */
    method GetBySlug(slug: string) returns (r: Option<Row>)
      requires Valid()
      ensures r.None? <==> SlugFree(rows, slug)
      ensures r.Some? ==> r.value.id in rows && rows[r.value.id] == r.value && r.value.slug == slug
      ensures r.Some? ==> forall id :: id in rows && rows[id].slug == slug ==> id == r.value.id
    {
      if exists id :: id in rows && rows[id].slug == slug {
        var id :| id in rows && rows[id].slug == slug;
        r := Some(rows[id]);
      } else {
        r := None;
      }
    }

    /** insertStore. The statement fails (and changes nothing) when the primary key or the
        slug is already taken. */
    method Insert(id: StoreId, name: string, slug: string, storeType: string, namespace: string, now: Time)
      returns (ok: bool)
      requires Valid()
      modifies this
      ensures Valid()
      ensures ok <==> id !in old(rows) && SlugFree(old(rows), slug)
      ensures rows == if ok then Inserted(old(rows), id, name, slug, storeType, namespace, now) else old(rows)
      ensures audit == old(audit)
    {
      ok := id !in rows && forall k :: k in rows ==> rows[k].slug != slug;
      if ok {
        rows := Inserted(rows, id, name, slug, storeType, namespace, now);
      }
    }

    /** updateStoreStatus. */
    method UpdateStatus(id: StoreId, status: Status, storeUrl: Option<string>, adminUrl: Option<string>,
                        errorMessage: Option<string>)
      requires Valid()
      modifies this
      ensures Valid()
      ensures rows == StatusSet(old(rows), id, status, storeUrl, adminUrl, errorMessage)
      ensures audit == old(audit)
    {
      KeysAndSlugsKept(rows, StatusSet(rows, id, status, storeUrl, adminUrl, errorMessage));
      rows := StatusSet(rows, id, status, storeUrl, adminUrl, errorMessage);
    }

    /** setProvisionFinished. */
    method SetProvisionFinished(id: StoreId, now: Time)
      requires Valid()
      modifies this
      ensures Valid()
      ensures rows == FinishStamped(old(rows), id, now)
      ensures audit == old(audit)
    {
      KeysAndSlugsKept(rows, FinishStamped(rows, id, now));
      rows := FinishStamped(rows, id, now);
    }

    /** deleteStoreRow: a hard delete. */
    method DeleteRow(id: StoreId)
      requires Valid()
      modifies this
      ensures Valid()
      ensures rows == old(rows) - {id}
      ensures audit == old(audit)
    {
      rows := rows - {id};
    }

    /** insertAuditLog: the log only grows. */
    method AppendAudit(entry: AuditEntry)
      requires Valid()
      modifies this
      ensures Valid()
      ensures rows == old(rows)
      ensures audit == old(audit) + [entry]
    {
      audit := audit + [entry];
    }

    /** The stale-provisioning sweep run at start-up; `changes` is the statement's row count. */
    method Sweep() returns (changes: nat)
      requires Valid()
      modifies this
      ensures Valid()
      ensures rows == Swept(old(rows))
      ensures changes == |ChangedIds(old(rows), rows)| == CountWithStatus(old(rows), Provisioning)
      ensures audit == old(audit)
    {
      SweepProperties(rows);
      changes := |IdsWithStatus(rows, Provisioning)|;
      rows := Swept(rows);
    }

    /** getAllStores: every row that is not deleted (the ORDER BY is not modelled). */
    function Listed(): (r: set<Row>)
      reads this
      requires Valid()
      ensures forall row :: row in r <==> row.id in rows && rows[row.id] == row && row.status != Deleted
    {
      set id | id in rows && rows[id].status != Deleted :: rows[id]
    }

    /** getAuditLogs: the most recent `limit` entries, newest first; SQLite reads a negative
        LIMIT as no limit. */
    function RecentAudit(limit: int): (r: seq<AuditEntry>)
      reads this
      ensures |r| == if 0 <= limit < |audit| then limit else |audit|
      ensures forall i :: 0 <= i < |r| ==> r[i] == audit[|audit| - 1 - i]
    {
      Newest(audit, if limit < 0 then |audit| else limit)
    }
  }

  // ---------------------------------------------------------------------------
  // Start-up: migrations of an older table, then the sweep

  /** A row of a table written by an older deploy: its slug column may be missing or null,
      and a missing provision_started_at column reads as null. */
  datatype LegacyRow = LegacyRow(
    id: StoreId,
    name: string,
    slug: Option<string>,
    storeType: string,
    status: Status,
    namespace: string,
    storeUrl: Option<string>,
    adminUrl: Option<string>,
    errorMessage: Option<string>,
    startedAt: Option<Time>,
    finishedAt: Option<Time>,
    createdAt: Time)

  /** The `stores` table found at start-up and what PRAGMA table_info / index_list say of it. */
  datatype LegacyTable = LegacyTable(
    rows: map<StoreId, LegacyRow>,
    hasStartedColumn: bool,
    hasSlugColumn: bool,
    nameUnique: bool)

  const UniqueSlugError := "UNIQUE constraint failed: stores.slug"

  predicate LegacyKeysMatch(rows: map<StoreId, LegacyRow>) {
    forall id :: id in rows ==> rows[id].id == id
  }

  /** What a snapshot of each schema generation guarantees: a missing column reads as null,
      and a table that already has the slug column and no unique name index was created by
      the current schema, so its slugs are non-null and unique. */
  predicate LegacyWellFormed(t: LegacyTable) {
    && LegacyKeysMatch(t.rows)
    && (!t.hasStartedColumn ==> forall id :: id in t.rows ==> t.rows[id].startedAt.None?)
    && (!t.hasSlugColumn ==> forall id :: id in t.rows ==> t.rows[id].slug.None?)
    && (t.hasSlugColumn && !t.nameUnique ==>
          (forall id :: id in t.rows ==> t.rows[id].slug.Some?) && SlugsUnique(Copied(t.rows)))
  }

  /** `UPDATE stores SET provision_started_at = created_at WHERE provision_started_at IS NULL`. */
  function BackfillStarted(rows: map<StoreId, LegacyRow>): map<StoreId, LegacyRow> {
    map id | id in rows ::
      if rows[id].startedAt.None? then rows[id].(startedAt := Some(rows[id].createdAt)) else rows[id]
  }

  /** One row of `INSERT INTO stores ... SELECT ..., COALESCE(slug, name), ... FROM stores_old`. */
  function Coalesced(r: LegacyRow): Row {
    Row(r.id, r.name, if r.slug.Some? then r.slug.value else r.name, r.storeType, r.status, r.namespace,
        r.storeUrl, r.adminUrl, r.errorMessage, r.startedAt, r.finishedAt, r.createdAt)
  }

  function Copied(rows: map<StoreId, LegacyRow>): map<StoreId, Row> {
    map id | id in rows :: Coalesced(rows[id])
  }

  /** The table rebuild (rename, create, copy, drop). The copy is one statement: it fails as a
      whole when two copied slugs collide, and start-up then aborts. */
  function Rebuilt(rows: map<StoreId, LegacyRow>): Result<map<StoreId, Row>, string> {
    var copy := Copied(rows);
    if SlugsUnique(copy) then Success(copy) else Failure(UniqueSlugError)
  }

  const MissingSlugColumnError := "no such column: slug"

  /** The rebuild as db.js writes it: the copy names `slug` in its SELECT, and when the old
      table has no such column SQLite refuses the statement, after the rename has already
      happened. */
  function RebuiltAsWritten(t: LegacyTable): (r: Result<map<StoreId, Row>, string>)
    ensures !t.hasSlugColumn ==> r == Failure(MissingSlugColumnError)
    ensures t.hasSlugColumn ==> r == Rebuilt(t.rows)
  {
    if !t.hasSlugColumn then Failure(MissingSlugColumnError) else Rebuilt(t.rows)
  }

  /** A table from before the slug column never survives the rebuild as written, even when
      the intended copy (a slug equal to each name) succeeds. */
  lemma RebuildAsWrittenFailsWithoutSlugColumn(t: LegacyTable)
    requires t == LegacyTable(map["s1" := LegacyRow("s1", "shop", None, "woocommerce", Ready,
                                                    "store-shop", None, None, None, None, None, 0)],
                              true, false, true)
    ensures RebuiltAsWritten(t).Failure?
    ensures Rebuilt(t.rows).Success? && Rebuilt(t.rows).value["s1"].slug == "shop"
  {
    RebuildWithoutSlugColumn(t.rows);
  }

  /** The backfill gives every row a start time: its own if it had one, else its creation
      time; nothing else changes. */
  lemma BackfillProperties(rows: map<StoreId, LegacyRow>)
    ensures var r := BackfillStarted(rows);
      && r.Keys == rows.Keys
      && (forall id :: id in r ==> r[id].startedAt.Some?)
      && (forall id :: id in rows && rows[id].startedAt.None? ==>
            r[id] == rows[id].(startedAt := Some(rows[id].createdAt)))
      && (forall id :: id in rows && rows[id].startedAt.Some? ==> r[id] == rows[id])
  {
  }

  /** The rebuild copies every row unchanged except that a null slug becomes the row's name;
      when it succeeds, the new table meets its constraints. */
  lemma RebuildProperties(rows: map<StoreId, LegacyRow>)
    requires LegacyKeysMatch(rows)
    ensures Rebuilt(rows).Success? <==> SlugsUnique(Copied(rows))
    ensures Rebuilt(rows).Success? ==>
      var r := Rebuilt(rows).value;
      && TableInvariant(r)
      && r.Keys == rows.Keys
      && (forall id :: id in rows ==>
            && r[id].slug == (if rows[id].slug.Some? then rows[id].slug.value else rows[id].name)
            && r[id].id == rows[id].id && r[id].name == rows[id].name
            && r[id].status == rows[id].status && r[id].storeType == rows[id].storeType
            && r[id].namespace == rows[id].namespace && r[id].errorMessage == rows[id].errorMessage
            && r[id].storeUrl == rows[id].storeUrl && r[id].adminUrl == rows[id].adminUrl
            && r[id].startedAt == rows[id].startedAt && r[id].finishedAt == rows[id].finishedAt
            && r[id].createdAt == rows[id].createdAt)
  {
  }

  /** A table from before the slug column, whose names were unique, always rebuilds: each
      slug is the row's name. */
  lemma RebuildWithoutSlugColumn(rows: map<StoreId, LegacyRow>)
    requires forall id :: id in rows ==> rows[id].slug.None?
    requires forall a, b :: a in rows && b in rows && rows[a].name == rows[b].name ==> a == b
    ensures Rebuilt(rows).Success?
    ensures forall id :: id in rows ==> Rebuilt(rows).value[id].slug == rows[id].name
  {
    var copy := Copied(rows);
    forall a, b | a in copy && b in copy && copy[a].slug == copy[b].slug
      ensures a == b
    {
      assert copy[a].slug == rows[a].name && copy[b].slug == rows[b].name;
    }
  }

  /** The rows the table holds after the migrations, before the sweep. */
  function Migrated(t: LegacyTable): map<StoreId, Row> {
    Copied(if t.hasStartedColumn then t.rows else BackfillStarted(t.rows))
  }

  predicate NeedsRebuild(t: LegacyTable) {
    !t.hasSlugColumn || t.nameUnique
  }

  /** The start-up of db.js: backfill the start time when that column was just added,
      rebuild the table when the slug column is missing or the name is still unique, then
      sweep stale provisioning rows. `changes` is the sweep's row count. */
  method InitializeDatabase(legacy: LegacyTable, log: seq<AuditEntry>) returns (r: Result<StoreTable, string>, changes: nat)
    requires LegacyWellFormed(legacy)
    ensures r.Failure? <==> NeedsRebuild(legacy) && !SlugsUnique(Migrated(legacy))
    ensures r.Failure? ==> r.error == UniqueSlugError
    ensures r.Success? ==>
      && fresh(r.value) && r.value.Valid()
      && r.value.rows == Swept(Migrated(legacy))
      && r.value.audit == log
      && changes == CountWithStatus(Migrated(legacy), Provisioning)
  {
    var rows := legacy.rows;
    if !legacy.hasStartedColumn {
      rows := BackfillStarted(rows);
    }
    var copy := Copied(rows);
    if NeedsRebuild(legacy) && !SlugsUnique(copy) {
      r, changes := Failure(UniqueSlugError), 0;
      return;
    }
    if !NeedsRebuild(legacy) {
      // the backfill leaves slugs alone, so the current schema's unique slugs carry over
      assert forall id :: id in copy ==> copy[id].slug == Copied(legacy.rows)[id].slug;
    }
    var table := new StoreTable(copy, log);
    changes := table.Sweep();
    r := Success(table);
  }
}
