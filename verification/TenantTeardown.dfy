/**
 Tenant teardown: a fixed walk of tables, a plan counted before any write, a series of gates, and then all
 deletes in one transaction.

 A row is the map of its non-null columns. The connection is the only writer; tables have no triggers and no
 cascades; any statement, and the commit, may fail.
 */
module TenantTeardown {
  import opened Wrappers
  import opened Sorting

  type Row = map<string, string>

  datatype Table = Table(columns: set<string>, rows: seq<Row>)

  type Database = map<string, Table>

  datatype Tier = CacheOps | RuntimeRole | LedgerClass | OrphanProbe | Root

  datatype WalkEntry = WalkEntry(tier: Tier, table: string, column: Option<string>)

  const WALK: seq<WalkEntry> := [
    WalkEntry(CacheOps, "free_usage_cache", Some("tenant_id")),
    WalkEntry(CacheOps, "approver_push_tokens", Some("tenant_id")),
    WalkEntry(RuntimeRole, "tenant_api_keys", Some("tenant_id")),
    WalkEntry(RuntimeRole, "tenant_members", Some("tenant_id")),
    WalkEntry(RuntimeRole, "memories", Some("tenant_id")),
    WalkEntry(RuntimeRole, "memory_embeddings", Some("tenant_id")),
    WalkEntry(RuntimeRole, "hitl_approvers", Some("tenant_id")),
    WalkEntry(RuntimeRole, "hitl_approval_requests", Some("tenant_id")),
    WalkEntry(RuntimeRole, "siem_export_cursors", None),
    WalkEntry(LedgerClass, "cosign_dispositions", Some("tenant_id")),
    WalkEntry(LedgerClass, "erasure_certificates", Some("tenant_id")),
    WalkEntry(LedgerClass, "erasure_ledger", Some("tenant_id")),
    WalkEntry(Root, "tenants", Some("id"))]

  predicate Of(row: Row, column: string, tenant: string) {
    column in row && row[column] == tenant
  }

  function Count(rows: seq<Row>, column: string, tenant: string): nat {
    if rows == [] then 0
    else Count(rows[..|rows| - 1], column, tenant) + (if Of(rows[|rows| - 1], column, tenant) then 1 else 0)
  }

  /** What DELETE ... WHERE column = tenant leaves. */
  function Keep(rows: seq<Row>, column: string, tenant: string): seq<Row> {
    if rows == [] then []
    else
      var rest := Keep(rows[..|rows| - 1], column, tenant);
      if Of(rows[|rows| - 1], column, tenant) then rest else rest + [rows[|rows| - 1]]
  }

  lemma {:induction false} CountZero(rows: seq<Row>, column: string, tenant: string)
    ensures Count(rows, column, tenant) == 0 <==> forall r :: r in rows ==> !Of(r, column, tenant)
    ensures Count(rows, column, tenant) == 0 ==> Keep(rows, column, tenant) == rows
  {
    if rows != [] {
      CountZero(rows[..|rows| - 1], column, tenant);
      assert rows == rows[..|rows| - 1] + [rows[|rows| - 1]];
    }
  }

  // ----- The plan -----

  datatype PlanStatus = Ok | Absent | Global | NoScopeColumn

  datatype PlanEntry = PlanEntry(tier: Tier, table: string, column: Option<string>, count: nat, status: PlanStatus)

  function Scan(db: Database, tenant: string, e: WalkEntry): PlanEntry {
    if e.table !in db then PlanEntry(e.tier, e.table, e.column, 0, Absent)
    else if e.column.None? then PlanEntry(e.tier, e.table, e.column, 0, Global)
    else if e.column.value !in db[e.table].columns then PlanEntry(e.tier, e.table, e.column, 0, NoScopeColumn)
    else PlanEntry(e.tier, e.table, e.column, Count(db[e.table].rows, e.column.value, tenant), Ok)
  }

  predicate Walked(walk: seq<WalkEntry>, name: string) {
    exists e :: e in walk && e.table == name
  }

  /** A table of any kind that carries tenant_id and that the walk does not know. */
  predicate OrphanTable(db: Database, walk: seq<WalkEntry>, name: string) {
    name in db && "tenant_id" in db[name].columns && !Walked(walk, name)
  }

  function Probe(db: Database, tenant: string, name: string): PlanEntry
    requires name in db
  {
    PlanEntry(OrphanProbe, name, Some("tenant_id"), Count(db[name].rows, "tenant_id", tenant), Ok)
  }

  ghost predicate IsPlan(db: Database, tenant: string, walk: seq<WalkEntry>, plan: seq<PlanEntry>) {
    && |walk| <= |plan|
    && (forall i :: 0 <= i < |walk| ==> plan[i] == Scan(db, tenant, walk[i]))
    && (forall i :: |walk| <= i < |plan| ==>
          OrphanTable(db, walk, plan[i].table) && plan[i] == Probe(db, tenant, plan[i].table))
    && (forall name :: OrphanTable(db, walk, name) ==> exists i :: |walk| <= i < |plan| && plan[i].table == name)
    && (forall i, j :: |walk| <= i < j < |plan| ==> plan[i].table != plan[j].table)
  }

  class Connection {
    const failsAt: Option<nat>
    var statements: nat
    var committed: Database
    var working: Database

    constructor (db: Database, failsAt: Option<nat>)
      ensures committed == working == db && this.failsAt == failsAt
    {
      committed, working, statements, this.failsAt := db, db, 0, failsAt;
    }

    method Execute() returns (ok: bool)
      modifies this`statements
      ensures failsAt.None? ==> ok
    {
      statements := statements + 1;
      ok := failsAt != Some(statements);
    }

    method Delete(table: string, column: string, tenant: string) returns (ok: bool)
      requires table in working
      modifies this`statements, this`working
      ensures failsAt.None? ==> ok
      ensures working == if ok then old(working)[table := Table(old(working)[table].columns, Keep(old(working)[table].rows, column, tenant))]
                         else old(working)
    {
      ok := Execute();
      if ok {
        working := working[table := Table(working[table].columns, Keep(working[table].rows, column, tenant))];
      }
    }

    method Commit() returns (ok: bool)
      modifies this`statements, this`committed
      ensures failsAt.None? ==> ok
      ensures committed == if ok then working else old(committed)
    {
      ok := Execute();
      if ok {
        committed := working;
      }
    }

    method Rollback()
      modifies this`working
      ensures working == committed
    {
      working := committed;
    }
  }

  method OrphanTables(db: Database, walk: seq<WalkEntry>) returns (names: seq<string>)
    ensures forall name :: name in names <==> OrphanTable(db, walk, name)
    ensures Ascending(StringLeq, names) && NoRepeats(names)
  {
    var found, todo := [], db.Keys;
    while todo != {}
      invariant todo <= db.Keys
      invariant forall name :: name in found <==> name !in todo && OrphanTable(db, walk, name)
      invariant NoRepeats(found)
      decreases |todo|
    {
      var name :| name in todo;
      assert name !in found;
      todo := todo - {name};
      if "tenant_id" in db[name].columns && !Walked(walk, name) {
        found := found + [name];
      }
    }
    names := SortStrings(found);
    StringOrder();
    SortNoRepeats(StringLeq, found);
    SortSorted(StringLeq, found);
    forall name ensures name in names <==> name in found { SortPermutes(StringLeq, found, name); }
  }

  method BuildPlan(conn: Connection, tenant: string, walk: seq<WalkEntry>) returns (r: Option<seq<PlanEntry>>)
    modifies conn`statements
    ensures conn.failsAt.None? ==> r.Some?
    ensures r.Some? ==> IsPlan(conn.working, tenant, walk, r.value)
  {
    var plan: seq<PlanEntry> := [];
    for i := 0 to |walk|
      invariant |plan| == i && forall j :: 0 <= j < i ==> plan[j] == Scan(conn.working, tenant, walk[j])
    {
      var ok := conn.Execute();
      if !ok {
        return None;
      }
      plan := plan + [Scan(conn.working, tenant, walk[i])];
    }
    var orphans := OrphanTables(conn.working, walk);
    for i := 0 to |orphans|
      invariant |plan| == |walk| + i && forall j :: 0 <= j < |walk| ==> plan[j] == Scan(conn.working, tenant, walk[j])
      invariant forall j :: 0 <= j < i ==> orphans[j] in conn.working && plan[|walk| + j] == Probe(conn.working, tenant, orphans[j])
    {
      var ok := conn.Execute();
      if !ok {
        return None;
      }
      assert orphans[i] in orphans;
      plan := plan + [Probe(conn.working, tenant, orphans[i])];
    }
    PlanFromParts(conn.working, tenant, walk, orphans, plan);
    r := Some(plan);
  }

  lemma PlanFromParts(db: Database, tenant: string, walk: seq<WalkEntry>, orphans: seq<string>, plan: seq<PlanEntry>)
    requires |plan| == |walk| + |orphans| && forall j :: 0 <= j < |walk| ==> plan[j] == Scan(db, tenant, walk[j])
    requires NoRepeats(orphans) && forall name :: name in orphans <==> OrphanTable(db, walk, name)
    requires forall j :: 0 <= j < |orphans| ==> orphans[j] in db && plan[|walk| + j] == Probe(db, tenant, orphans[j])
    ensures IsPlan(db, tenant, walk, plan)
  {
    forall i | |walk| <= i < |plan|
      ensures OrphanTable(db, walk, plan[i].table) && plan[i] == Probe(db, tenant, plan[i].table)
    {
      var j := i - |walk|;
      assert orphans[j] in orphans && plan[|walk| + j] == Probe(db, tenant, orphans[j]);
    }
    forall name | OrphanTable(db, walk, name)
      ensures exists i :: |walk| <= i < |plan| && plan[i].table == name
    {
      var j :| 0 <= j < |orphans| && orphans[j] == name;
      assert plan[|walk| + j].table == name;
    }
    assert forall i :: |walk| <= i < |plan| ==> plan[i].table == orphans[i - |walk|];
  }

  // ----- What a teardown does -----

  predicate Deletes(e: WalkEntry, name: string, columns: set<string>) {
    e.tier in {CacheOps, RuntimeRole, Root} && e.table == name && e.column.Some? && e.column.value in columns
  }

  /** One of the first k entries deletes this row. */
  predicate Doomed(walk: seq<WalkEntry>, k: nat, name: string, columns: set<string>, tenant: string, row: Row)
    requires k <= |walk|
  {
    exists i :: 0 <= i < k && Deletes(walk[i], name, columns) && Of(row, walk[i].column.value, tenant)
  }

  function Spare(rows: seq<Row>, walk: seq<WalkEntry>, k: nat, name: string, columns: set<string>,
                 tenant: string): seq<Row>
    requires k <= |walk|
  {
    if rows == [] then []
    else
      var rest := Spare(rows[..|rows| - 1], walk, k, name, columns, tenant);
      if Doomed(walk, k, name, columns, tenant, rows[|rows| - 1]) then rest else rest + [rows[|rows| - 1]]
  }

  function Spared(t: Table, walk: seq<WalkEntry>, k: nat, name: string, tenant: string): Table
    requires k <= |walk|
  {
    Table(t.columns, Spare(t.rows, walk, k, name, t.columns, tenant))
  }

  ghost predicate TornDown(before: Database, after: Database, walk: seq<WalkEntry>, k: nat, tenant: string)
    requires k <= |walk|
  {
    after.Keys == before.Keys && forall name :: name in before ==> after[name] == Spared(before[name], walk, k, name, tenant)
  }

  lemma {:induction false} SpareNone(rows: seq<Row>, walk: seq<WalkEntry>, name: string, columns: set<string>,
                                     tenant: string)
    ensures Spare(rows, walk, 0, name, columns, tenant) == rows
  {
    if rows != [] {
      SpareNone(rows[..|rows| - 1], walk, name, columns, tenant);
    }
  }

  lemma DoomedStep(walk: seq<WalkEntry>, k: nat, name: string, columns: set<string>, tenant: string, row: Row)
    requires k < |walk|
    ensures Doomed(walk, k + 1, name, columns, tenant, row) <==>
      Doomed(walk, k, name, columns, tenant, row) || (Deletes(walk[k], name, columns) && Of(row, walk[k].column.value, tenant))
  {
  }

  lemma {:induction false} SpareStep(rows: seq<Row>, walk: seq<WalkEntry>, k: nat, name: string,
                                     columns: set<string>, tenant: string)
    requires k < |walk|
    ensures Spare(rows, walk, k + 1, name, columns, tenant) ==
      if Deletes(walk[k], name, columns) then Keep(Spare(rows, walk, k, name, columns, tenant), walk[k].column.value, tenant)
      else Spare(rows, walk, k, name, columns, tenant)
  {
    if rows != [] {
      var last, rest := rows[|rows| - 1], Spare(rows[..|rows| - 1], walk, k, name, columns, tenant);
      SpareStep(rows[..|rows| - 1], walk, k, name, columns, tenant);
      DoomedStep(walk, k, name, columns, tenant, last);
      assert (rest + [last])[..|rest|] == rest;
    }
  }

  lemma {:induction false} SpareCount(rows: seq<Row>, walk: seq<WalkEntry>, k: nat, name: string,
                                      columns: set<string>, tenant: string, row: Row)
    requires k <= |walk|
    ensures multiset(Spare(rows, walk, k, name, columns, tenant))[row]
         == if Doomed(walk, k, name, columns, tenant, row) then 0 else multiset(rows)[row]
  {
    if rows != [] {
      SpareCount(rows[..|rows| - 1], walk, k, name, columns, tenant, row);
      assert rows == rows[..|rows| - 1] + [rows[|rows| - 1]];
    }
  }

  lemma KeepSpared(rows: seq<Row>, walk: seq<WalkEntry>, k: nat, name: string, columns: set<string>, tenant: string,
                   column: string)
    requires k <= |walk| && Count(rows, column, tenant) == 0
    ensures Keep(Spare(rows, walk, k, name, columns, tenant), column, tenant) == Spare(rows, walk, k, name, columns, tenant)
  {
    var spared := Spare(rows, walk, k, name, columns, tenant);
    CountZero(rows, column, tenant);
    forall r | r in spared
      ensures !Of(r, column, tenant)
    {
      SpareCount(rows, walk, k, name, columns, tenant, r);
      assert r in multiset(spared);
    }
    CountZero(spared, column, tenant);
  }

  predicate Deletable(e: PlanEntry) {
    e.tier in {CacheOps, RuntimeRole, Root} && e.status == Ok
  }

  ghost predicate ProperWalk(walk: seq<WalkEntry>) {
    forall e :: e in walk ==> e.tier != OrphanProbe
  }

  /** A walk entry's delete, or nothing if the entry is not deletable or was counted zero, is its step of the teardown. */
  lemma TeardownStep(before: Database, now: Database, next: Database, walk: seq<WalkEntry>, k: nat, tenant: string,
                     e: PlanEntry)
    requires k < |walk| && e == Scan(before, tenant, walk[k]) && TornDown(before, now, walk, k, tenant)
    requires Deletable(e) ==> e.column.Some? && e.table in now
    requires next == if Deletable(e) && e.count > 0
                     then now[e.table := Table(now[e.table].columns, Keep(now[e.table].rows, e.column.value, tenant))] else now
    ensures TornDown(before, next, walk, k + 1, tenant)
  {
    forall name | name in before
      ensures next[name] == Spared(before[name], walk, k + 1, name, tenant)
    {
      var t := before[name];
      SpareStep(t.rows, walk, k, name, t.columns, tenant);
      if Deletes(walk[k], name, t.columns) && e.count == 0 {
        KeepSpared(t.rows, walk, k, name, t.columns, tenant, walk[k].column.value);
      }
    }
  }

  /** The delete loop: entries in plan order, those counted zero skipped. */
  method DeleteAll(conn: Connection, tenant: string, walk: seq<WalkEntry>, plan: seq<PlanEntry>) returns (ok: bool)
    requires IsPlan(conn.working, tenant, walk, plan) && ProperWalk(walk)
    modifies conn`statements, conn`working
    ensures conn.failsAt.None? ==> ok
    ensures ok ==> TornDown(old(conn.working), conn.working, walk, |walk|, tenant)
  {
    ghost var before := conn.working;
    forall name | name in before
      ensures before[name] == Spared(before[name], walk, 0, name, tenant)
    {
      SpareNone(before[name].rows, walk, name, before[name].columns, tenant);
    }
    for i := 0 to |plan|
      invariant TornDown(before, conn.working, walk, if i < |walk| then i else |walk|, tenant)
    {
      ghost var now := conn.working;
      if Deletable(plan[i]) && plan[i].count > 0 {
        ok := conn.Delete(plan[i].table, plan[i].column.value, tenant);
        if !ok {
          return;
        }
      }
      if i < |walk| {
        TeardownStep(before, now, conn.working, walk, i, tenant, plan[i]);
      }
    }
    ok := true;
  }

  // ----- The gates -----

  predicate LedgerRows(db: Database, tenant: string, walk: seq<WalkEntry>) {
    exists e :: e in walk && e.tier == LedgerClass && Scan(db, tenant, e).count > 0
  }

  ghost predicate OrphanRows(db: Database, tenant: string, walk: seq<WalkEntry>) {
    exists name :: OrphanTable(db, walk, name) && Count(db[name].rows, "tenant_id", tenant) > 0
  }

  datatype Exit = Code(code: int) | Raised

  predicate TenantKnown(db: Database, tenant: string) {
    "tenants" in db && "id" in db["tenants"].columns && Count(db["tenants"].rows, "id", tenant) > 0
  }

  predicate TenantsTable(db: Database) { "tenants" in db && "id" in db["tenants"].columns }

  /** The verdict of the gates on a connection where nothing fails. */
  ghost function Gate(db: Database, tenant: string, live: bool, platform: set<string>, walk: seq<WalkEntry>): Exit {
    if platform == {} || tenant in platform then Code(2)
    else if !TenantsTable(db) then Raised
    else if !TenantKnown(db, tenant) then Code(2)
    else if LedgerRows(db, tenant, walk) then Code(3)
    else if !live then Code(0)
    else if OrphanRows(db, tenant, walk) then Code(4)
    else Code(0)
  }

  predicate LedgerFound(plan: seq<PlanEntry>) {
    exists e :: e in plan && e.tier == LedgerClass && e.status == Ok && e.count > 0
  }

  predicate OrphanFound(plan: seq<PlanEntry>) {
    exists e :: e in plan && e.tier == OrphanProbe && e.count > 0
  }

  lemma LedgerGate(db: Database, tenant: string, walk: seq<WalkEntry>, plan: seq<PlanEntry>)
    requires IsPlan(db, tenant, walk, plan)
    ensures LedgerRows(db, tenant, walk) <==> LedgerFound(plan)
  {
    if LedgerRows(db, tenant, walk) {
      var w :| w in walk && w.tier == LedgerClass && Scan(db, tenant, w).count > 0;
      var i :| 0 <= i < |walk| && walk[i] == w;
      assert plan[i] in plan;
    }
    if LedgerFound(plan) {
      var e :| e in plan && e.tier == LedgerClass && e.status == Ok && e.count > 0;
      var i :| 0 <= i < |plan| && plan[i] == e;
      assert i < |walk| && walk[i] in walk;
    }
  }

  lemma OrphanGate(db: Database, tenant: string, walk: seq<WalkEntry>, plan: seq<PlanEntry>)
    requires IsPlan(db, tenant, walk, plan) && ProperWalk(walk)
    ensures OrphanRows(db, tenant, walk) <==> OrphanFound(plan)
  {
    if OrphanRows(db, tenant, walk) {
      var name :| OrphanTable(db, walk, name) && Count(db[name].rows, "tenant_id", tenant) > 0;
      var i :| |walk| <= i < |plan| && plan[i].table == name;
      assert plan[i] in plan;
    }
    assert forall w :: w in walk ==> Scan(db, tenant, w).tier != OrphanProbe;
    if OrphanFound(plan) {
      var e :| e in plan && e.tier == OrphanProbe && e.count > 0;
      var i :| 0 <= i < |plan| && plan[i] == e;
      assert OrphanTable(db, walk, e.table);
    }
  }

  /**
   The script. All or nothing: only a live run that exits 0 changes the database, and then by the whole
   teardown; every refusal, every failing statement and every dry run leaves it as it was.
   */
  method TearDown(conn: Connection, tenant: string, live: bool, platform: set<string>, walk: seq<WalkEntry>)
    returns (exit: Exit)
    requires conn.working == conn.committed && ProperWalk(walk)
    modifies conn
    ensures conn.working == conn.committed
    ensures exit == Code(0) && live ==> TornDown(old(conn.committed), conn.committed, walk, |walk|, tenant)
    ensures !(exit == Code(0) && live) ==> conn.committed == old(conn.committed)
    ensures exit in {Gate(old(conn.committed), tenant, live, platform, walk), Raised, Code(1)}
    ensures conn.failsAt.None? ==> exit == Gate(old(conn.committed), tenant, live, platform, walk)
    ensures platform == {} || tenant in platform ==> exit == Code(2) && conn.committed == old(conn.committed)
  {
    if platform == {} {
      return Code(2);
    }
    if tenant in platform {
      return Code(2);
    }
    var ok := conn.Execute();
    if !ok || !TenantsTable(conn.working) {
      return Raised;
    }
    if !TenantKnown(conn.working, tenant) {
      return Code(2);
    }
    var plan := BuildPlan(conn, tenant, walk);
    if plan.None? {
      return Raised;
    }
    LedgerGate(conn.working, tenant, walk, plan.value);
    OrphanGate(conn.working, tenant, walk, plan.value);
    if LedgerFound(plan.value) {
      return Code(3);
    }
    if !live {
      conn.Rollback();
      return Code(0);
    }
    if OrphanFound(plan.value) {
      conn.Rollback();
      return Code(4);
    }
    ok := DeleteAll(conn, tenant, walk, plan.value);
    if ok {
      ok := conn.Commit();
    }
    if !ok {
      conn.Rollback();
      return Code(1);
    }
    return Code(0);
  }

  // ----- What is left -----

  lemma DoomedIff(t: Table, walk: seq<WalkEntry>, name: string, tenant: string, row: Row)
    ensures row in Spared(t, walk, |walk|, name, tenant).rows <==>
      row in t.rows && !Doomed(walk, |walk|, name, t.columns, tenant, row)
  {
    SpareCount(t.rows, walk, |walk|, name, t.columns, tenant, row);
    assert row in multiset(t.rows) <==> row in t.rows;
    var spared := Spared(t, walk, |walk|, name, tenant).rows;
    assert row in multiset(spared) <==> row in spared;
  }

  /** Rows of other tenants keep their number in every table; a row belongs to the tenant by the walk's scope column. */
  lemma OthersUntouched(before: Database, after: Database, walk: seq<WalkEntry>, tenant: string, name: string, row: Row)
    requires TornDown(before, after, walk, |walk|, tenant) && name in before
    requires forall e :: e in walk && e.table == name && e.column.Some? ==> !Of(row, e.column.value, tenant)
    ensures multiset(after[name].rows)[row] == multiset(before[name].rows)[row]
  {
    var t := before[name];
    assert forall i :: 0 <= i < |walk| ==> walk[i] in walk;
    SpareCount(t.rows, walk, |walk|, name, t.columns, tenant, row);
  }

  /** The tables whose tenant_id rows the walk itself deals with, by deleting them or by refusing. */
  predicate Scoped(walk: seq<WalkEntry>, name: string) {
    exists e :: e in walk && e.table == name && e.column == Some("tenant_id")
  }

  /** A live teardown leaves no row of the tenant in a table the walk scopes by tenant_id or does not know. */
  lemma NothingLeft(before: Database, after: Database, walk: seq<WalkEntry>, tenant: string, name: string)
    requires ProperWalk(walk) && TornDown(before, after, walk, |walk|, tenant)
    requires !LedgerRows(before, tenant, walk) && !OrphanRows(before, tenant, walk)
    requires name in before && "tenant_id" in before[name].columns && (Scoped(walk, name) || !Walked(walk, name))
    ensures forall row :: row in after[name].rows ==> !Of(row, "tenant_id", tenant)
  {
    var t := before[name];
    forall row | row in after[name].rows
      ensures !Of(row, "tenant_id", tenant)
    {
      DoomedIff(t, walk, name, tenant, row);
      CountZero(t.rows, "tenant_id", tenant);
      if Scoped(walk, name) {
        var e :| e in walk && e.table == name && e.column == Some("tenant_id");
        var i :| 0 <= i < |walk| && walk[i] == e;
        if e.tier == LedgerClass {
          assert Scan(before, tenant, e).count == 0;
        } else {
          assert Deletes(walk[i], name, t.columns);
        }
      } else {
        assert OrphanTable(before, walk, name);
      }
    }
  }

  /** A table no entry deletes from keeps exactly its rows. */
  lemma NotDeletedKept(before: Database, after: Database, walk: seq<WalkEntry>, tenant: string, name: string, row: Row)
    requires TornDown(before, after, walk, |walk|, tenant) && name in before
    requires forall e :: e in walk && e.table == name && e.column.Some? ==> !Of(row, e.column.value, tenant)
    ensures row in after[name].rows <==> row in before[name].rows
  {
    assert forall i :: 0 <= i < |walk| ==> walk[i] in walk;
    DoomedIff(before[name], walk, name, tenant, row);
  }

  const CURSORS := "siem_export_cursors"

  const TENANTS := "tenants"

  /** The walk of the script, spelled out: which entries concern which table. */
  lemma WalkEntries(name: string)
    ensures ProperWalk(WALK)
    ensures name != CURSORS && name != TENANTS ==> (Scoped(WALK, name) || !Walked(WALK, name))
    ensures forall e :: e in WALK && e.table == CURSORS ==> e.column == None
    ensures forall e :: e in WALK && e.table == TENANTS ==> e == WalkEntry(Root, TENANTS, Some("id"))
    ensures WalkEntry(Root, TENANTS, Some("id")) in WALK
  {
    assert WALK[12] == WalkEntry(Root, TENANTS, Some("id"));
    forall e | e in WALK
      ensures e.tier != OrphanProbe
      ensures (e.column == Some("tenant_id") && e.table != CURSORS && e.table != TENANTS)
           || e == WalkEntry(RuntimeRole, CURSORS, None) || e == WalkEntry(Root, TENANTS, Some("id"))
    {
      WalkShape(e);
    }
  }

  lemma WalkShape(e: WalkEntry)
    requires e in WALK
    ensures e.tier != OrphanProbe
    ensures (e.column == Some("tenant_id") && |e.table| != 7 && (|e.table| == 19 ==> e.table[0] == 'c'))
         || e == WalkEntry(RuntimeRole, CURSORS, None) || e == WalkEntry(Root, TENANTS, Some("id"))
  {
    var i :| 0 <= i < |WALK| && WALK[i] == e;
  }

  /**
   What a live teardown leaves behind, exactly: rows that name the tenant in the export cursors, which are
   declared global, and rows of the tenants table that name it in a column other than their id.
   */
  lemma LeftoverIff(before: Database, after: Database, tenant: string, platform: set<string>, name: string, row: Row)
    requires TenantsTable(before) && name in before && "tenant_id" in before[name].columns && Of(row, "tenant_id", tenant)
    ensures TornDown(before, after, WALK, |WALK|, tenant) && Gate(before, tenant, true, platform, WALK) == Code(0) ==>
      (row in after[name].rows <==>
        row in before[name].rows && (name == CURSORS || (name == TENANTS && !Of(row, "id", tenant))))
  {
    if TornDown(before, after, WALK, |WALK|, tenant) && Gate(before, tenant, true, platform, WALK) == Code(0) {
      WalkEntries(name);
      if name == CURSORS {
        NotDeletedKept(before, after, WALK, tenant, name, row);
      } else if name != TENANTS {
        NothingLeft(before, after, WALK, tenant, name);
      } else if !Of(row, "id", tenant) {
        NotDeletedKept(before, after, WALK, tenant, name, row);
      } else {
        TenantRowGone(before, after, tenant, row);
      }
    }
  }

  lemma TenantRowGone(before: Database, after: Database, tenant: string, row: Row)
    requires TornDown(before, after, WALK, |WALK|, tenant) && TenantsTable(before) && Of(row, "id", tenant)
    ensures row !in after[TENANTS].rows
  {
    var t := before[TENANTS];
    DoomedIff(t, WALK, TENANTS, tenant, row);
    assert Deletes(WALK[12], TENANTS, t.columns);
  }

  // ----- The same in terms of tables and rows -----

  /** Some row of the table, if it has the column at all, names the tenant there. */
  ghost predicate Names(db: Database, table: string, column: string, tenant: string) {
    table in db && column in db[table].columns
    && exists r :: r in db[table].rows && column in r && r[column] == tenant
  }

  /** A delete and the count that was taken before it make up all rows. */
  lemma {:induction false} CountAndKeep(rows: seq<Row>, column: string, tenant: string)
    ensures Count(rows, column, tenant) + |Keep(rows, column, tenant)| == |rows|
    ensures forall r :: r in Keep(rows, column, tenant) <==> r in rows && !(column in r && r[column] == tenant)
  {
    if rows != [] {
      CountAndKeep(rows[..|rows| - 1], column, tenant);
      assert rows == rows[..|rows| - 1] + [rows[|rows| - 1]];
    }
  }

  lemma NamesIff(db: Database, table: string, column: string, tenant: string)
    ensures Names(db, table, column, tenant) <==>
      table in db && column in db[table].columns && Count(db[table].rows, column, tenant) > 0
  {
    if table in db {
      CountZero(db[table].rows, column, tenant);
    }
  }

  const LEDGERS: set<string> := {"cosign_dispositions", "erasure_certificates", "erasure_ledger"}

  const DELETABLE: set<string> := {"free_usage_cache", "approver_push_tokens", "tenant_api_keys", "tenant_members", "memories",
                                   "memory_embeddings", "hitl_approvers", "hitl_approval_requests"}

  /** The thirteen entries, by what becomes of their tables. */
  ghost predicate Listed(e: WalkEntry) {
    || (e.table in LEDGERS && e.tier == LedgerClass && e.column == Some("tenant_id"))
    || (e.table in DELETABLE && e.tier == DeletableTier(e.table) && e.column == Some("tenant_id"))
    || e == WalkEntry(Root, "tenants", Some("id"))
    || e == WalkEntry(RuntimeRole, "siem_export_cursors", None)
  }

  function DeletableTier(name: string): Tier {
    if name == "free_usage_cache" || name == "approver_push_tokens" then CacheOps else RuntimeRole
  }

  lemma WalkListsAt(i: nat)
    requires i < 8
    ensures Listed(WALK[i])
  {
  }

  lemma WalkListsFrom(i: nat)
    requires 8 <= i < |WALK|
    ensures Listed(WALK[i])
  {
  }

  lemma WalkLists(e: WalkEntry)
    requires e in WALK
    ensures Listed(e)
  {
    var i :| 0 <= i < |WALK| && WALK[i] == e;
    if i < 8 {
      WalkListsAt(i);
    } else {
      WalkListsFrom(i);
    }
  }

  lemma InWalk(i: nat)
    requires i < |WALK|
    ensures WALK[i] in WALK
  {
  }

  lemma LedgersWalked(name: string)
    requires name in LEDGERS
    ensures WalkEntry(LedgerClass, name, Some("tenant_id")) in WALK
  {
    InWalk(9);
    InWalk(10);
    InWalk(11);
  }

  lemma DeletablesWalked(name: string)
    requires name in DELETABLE
    ensures WalkEntry(DeletableTier(name), name, Some("tenant_id")) in WALK
  {
    var i: nat := if name == "free_usage_cache" then 0 else if name == "approver_push_tokens" then 1
    else if name == "tenant_api_keys" then 2 else if name == "tenant_members" then 3 else if name == "memories" then 4
    else if name == "memory_embeddings" then 5 else if name == "hitl_approvers" then 6 else 7;
    InWalk(i);
  }

  /** The walk of the script is this list. */
  lemma WalkIs(e: WalkEntry)
    ensures e in WALK <==> Listed(e)
  {
    if e in WALK {
      WalkLists(e);
    }
    if e.table in LEDGERS {
      LedgersWalked(e.table);
    }
    if e.table in DELETABLE {
      DeletablesWalked(e.table);
    }
    InWalk(8);
    InWalk(12);
  }

  lemma WalkedIff(name: string)
    ensures Walked(WALK, name) <==> name in DELETABLE || name in LEDGERS || name == "siem_export_cursors" || name == "tenants"
  {
    if Walked(WALK, name) {
      var e :| e in WALK && e.table == name;
      WalkLists(e);
    }
    if name in DELETABLE {
      DeletablesWalked(name);
    } else if name in LEDGERS {
      LedgersWalked(name);
    } else if name == "tenants" {
      WalkIs(WalkEntry(Root, name, Some("id")));
    } else if name == "siem_export_cursors" {
      WalkIs(WalkEntry(RuntimeRole, name, None));
    }
  }

  lemma LedgerRowsIff(db: Database, tenant: string)
    ensures LedgerRows(db, tenant, WALK) <==> exists table :: table in LEDGERS && Names(db, table, "tenant_id", tenant)
  {
    forall table | table in LEDGERS
      ensures Names(db, table, "tenant_id", tenant)
         <==> Scan(db, tenant, WalkEntry(LedgerClass, table, Some("tenant_id"))).count > 0
      ensures WalkEntry(LedgerClass, table, Some("tenant_id")) in WALK
    {
      NamesIff(db, table, "tenant_id", tenant);
      WalkIs(WalkEntry(LedgerClass, table, Some("tenant_id")));
    }
    forall e | e in WALK && e.tier == LedgerClass
      ensures e.table in LEDGERS && e == WalkEntry(LedgerClass, e.table, Some("tenant_id"))
    {
      WalkLists(e);
    }
  }

  /** A table the walk knows nothing of has rows of the tenant. */
  ghost predicate Orphaned(db: Database, table: string, tenant: string) {
    table !in DELETABLE && table !in LEDGERS && table != "siem_export_cursors" && table != "tenants"
    && Names(db, table, "tenant_id", tenant)
  }

  lemma OrphanRowsIff(db: Database, tenant: string)
    ensures OrphanRows(db, tenant, WALK) <==> exists table :: Orphaned(db, table, tenant)
  {
    forall table
      ensures Orphaned(db, table, tenant)
         <==> OrphanTable(db, WALK, table) && Count(db[table].rows, "tenant_id", tenant) > 0
    {
      NamesIff(db, table, "tenant_id", tenant);
      WalkedIff(table);
    }
  }

  /** Nothing may be torn down without a list of platform tenants, or for a tenant on it. */
  ghost predicate Protected(tenant: string, platform: set<string>) { platform == {} || tenant in platform }

  /** Every exit code of the script, when no statement fails, by what the tables hold. */
  lemma GateExact(db: Database, tenant: string, live: bool, platform: set<string>)
    ensures var known, ledger, orphaned := Names(db, "tenants", "id", tenant),
                (exists table :: table in LEDGERS && Names(db, table, "tenant_id", tenant)),
                (exists table :: Orphaned(db, table, tenant));
            var readable := "tenants" in db && "id" in db["tenants"].columns;
            var exit := Gate(db, tenant, live, platform, WALK);
      && (exit == Raised <==> !Protected(tenant, platform) && !readable)
      && (exit == Code(2) <==> Protected(tenant, platform) || (readable && !known))
      && (exit == Code(3) <==> !Protected(tenant, platform) && known && ledger)
      && (exit == Code(4) <==> !Protected(tenant, platform) && known && !ledger && live && orphaned)
      && (exit == Code(0) <==> !Protected(tenant, platform) && known && !ledger && !(live && orphaned))
  {
    NamesIff(db, "tenants", "id", tenant);
    LedgerRowsIff(db, tenant);
    OrphanRowsIff(db, tenant);
  }

  /** The rows a live teardown removes: those of the tenant in the eight tables, and the tenant's own. */
  ghost predicate Removed(t: Table, name: string, tenant: string, row: Row) {
    || (name in DELETABLE && "tenant_id" in t.columns && "tenant_id" in row && row["tenant_id"] == tenant)
    || (name == "tenants" && "id" in t.columns && "id" in row && row["id"] == tenant)
  }

  lemma DoomedExact(t: Table, name: string, tenant: string, row: Row)
    ensures Doomed(WALK, |WALK|, name, t.columns, tenant, row) <==> Removed(t, name, tenant, row)
  {
    forall i: nat | i < |WALK|
      ensures Deletes(WALK[i], name, t.columns) && Of(row, WALK[i].column.value, tenant) ==> Removed(t, name, tenant, row)
    {
      assert WALK[i] in WALK;
      WalkIs(WALK[i]);
    }
    if Removed(t, name, tenant, row) {
      var e := if name == "tenants" then WalkEntry(Root, "tenants", Some("id"))
      else WalkEntry(DeletableTier(name), name, Some("tenant_id"));
      WalkIs(e);
      var i :| 0 <= i < |WALK| && WALK[i] == e;
      assert Deletes(WALK[i], name, t.columns) && Of(row, WALK[i].column.value, tenant);
    }
  }

  /** After a live exit 0 exactly these rows are gone, in every table, and every other row is there as often as before. */
  lemma TeardownExact(before: Database, after: Database, tenant: string, name: string, row: Row)
    requires TornDown(before, after, WALK, |WALK|, tenant) && name in before
    ensures after.Keys == before.Keys && after[name].columns == before[name].columns
    ensures multiset(after[name].rows)[row] == if Removed(before[name], name, tenant, row) then 0 else multiset(before[name].rows)[row]
  {
    var t := before[name];
    DoomedExact(t, name, tenant, row);
    SpareCount(t.rows, WALK, |WALK|, name, t.columns, tenant, row);
  }

  /** What the plan says of a walked table: counted only if it is there and has its scope column. */
  lemma ScanSays(db: Database, tenant: string, e: WalkEntry)
    ensures var p := Scan(db, tenant, e);
      && p.tier == e.tier && p.table == e.table && p.column == e.column
      && (p.status == Absent <==> e.table !in db)
      && (p.status == Global <==> e.table in db && e.column == None)
      && (p.status == NoScopeColumn <==> e.table in db && e.column != None && e.column.value !in db[e.table].columns)
      && (p.status == Ok ==> p.count + |Keep(db[e.table].rows, e.column.value, tenant)| == |db[e.table].rows|)
      && (p.status != Ok ==> p.count == 0)
  {
    if e.table in db && e.column != None {
      CountAndKeep(db[e.table].rows, e.column.value, tenant);
    }
  }

  /** And of a table the walk does not know: the rows whose tenant_id names the tenant. */
  lemma ProbeSays(db: Database, tenant: string, name: string)
    requires name in db
    ensures var p := Probe(db, tenant, name);
      && p == PlanEntry(OrphanProbe, name, Some("tenant_id"), p.count, Ok)
      && p.count + |Keep(db[name].rows, "tenant_id", tenant)| == |db[name].rows|
  {
    CountAndKeep(db[name].rows, "tenant_id", tenant);
  }
}
