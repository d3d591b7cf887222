/**
 The at-rest migration of decision records: plaintext `query` and `raw_output` columns become a sentinel and
 their ciphertext goes to the paired column, after the old values have been appended to a backup file.

 The encryptor draws a nonce per call and is only known to decrypt what it encrypted. The order of the scanned
 rows is left open. An UPDATE or the commit may fail, and then nothing is committed.
 */
module ContextReencryption {
  import opened Wrappers

  const SENTINEL := "[ENCRYPTED]"

  datatype Contents = Null | EmptyList | EmptyObject | Text(text: string) | Filled

  datatype Record = Record(tenant: string, query: Option<string>, queryEnc: Option<string>, rawOutput: Option<string>,
                           rawOutputEnc: Option<string>, contents: Contents, hasParsedOutput: bool)

  /** decision_records, by primary key. */
  type Records = map<string, Record>

  datatype Encryptor = Encryptor(encrypt: (string, nat) -> string, decrypt: string -> string)
  {
    ghost predicate Sound() { forall x, nonce :: decrypt(encrypt(x, nonce)) == x }
  }

  // ----- SQL's three-valued WHERE -----

  datatype Truth = True | False | Unknown

  function NotEqual(column: Option<string>, value: string): Truth {
    if column.None? then Unknown else if column.value != value then True else False
  }

  function Or(a: Truth, b: Truth): Truth {
    if a == True || b == True then True else if a == Unknown || b == Unknown then Unknown else False
  }

  function And(a: Truth, b: Truth): Truth {
    if a == False || b == False then False else if a == Unknown || b == Unknown then Unknown else True
  }

  predicate Selected(r: Record, tenant: string) {
    And(if r.tenant == tenant then True else False, Or(NotEqual(r.query, SENTINEL), NotEqual(r.rawOutput, SENTINEL))) == True
  }

  predicate Plain(column: Option<string>) { column.Some? && column.value != SENTINEL }

  /** A null never selects a row, and never hides the other column. */
  lemma SelectedIff(r: Record, tenant: string)
    ensures Selected(r, tenant) <==> r.tenant == tenant && (Plain(r.query) || Plain(r.rawOutput))
  {
  }

  function SelectedIds(db: Records, tenant: string): set<string> {
    set id | id in db && Selected(db[id], tenant)
  }

  function CountPlaintext(db: Records, tenant: string): nat { |SelectedIds(db, tenant)| }

  predicate ContentsIsEmpty(v: Contents) {
    v in {Null, EmptyList, EmptyObject, Text("[]"), Text("{}")}
  }

  predicate Conflicting(r: Record) { !ContentsIsEmpty(r.contents) || r.hasParsedOutput }

  /** Some row the migration would touch holds content it does not encrypt. */
  predicate Guarded(db: Records, tenant: string) {
    exists id :: id in SelectedIds(db, tenant) && Conflicting(db[id])
  }

  // ----- What an apply does to a row -----

  ghost predicate ColumnMigrated(e: Encryptor, plain: Option<string>, enc: Option<string>,
                                 plain': Option<string>, enc': Option<string>) {
    if Plain(plain) then plain' == Some(SENTINEL) && enc'.Some? && e.decrypt(enc'.value) == plain.value
    else plain' == plain && enc' == enc
  }

  ghost predicate Migrated(e: Encryptor, r: Record, r': Record) {
    && ColumnMigrated(e, r.query, r.queryEnc, r'.query, r'.queryEnc)
    && ColumnMigrated(e, r.rawOutput, r.rawOutputEnc, r'.rawOutput, r'.rawOutputEnc)
    && r'.tenant == r.tenant && r'.contents == r.contents && r'.hasParsedOutput == r.hasParsedOutput
  }

  ghost predicate Applied(db: Records, db': Records, tenant: string, e: Encryptor) {
    db'.Keys == db.Keys
    && forall id :: id in db ==> if db[id].tenant == tenant then Migrated(e, db[id], db'[id]) else db'[id] == db[id]
  }

  function Columns(r: Record): nat {
    (if Plain(r.query) then 1 else 0) + (if Plain(r.rawOutput) then 1 else 0)
  }

  datatype Line = Line(id: string, tenant: string, query: Option<string>, rawOutput: Option<string>)

  function LineOf(db: Records, id: string): Line
    requires id in db
  {
    Line(id, db[id].tenant, db[id].query, db[id].rawOutput)
  }

  /** How many columns the first k rows of a scan hold in plaintext. */
  function PlainColumns(db: Records, ids: seq<string>, k: nat): nat
    requires k <= |ids|
  {
    if k == 0 then 0 else PlainColumns(db, ids, k - 1) + (if ids[k - 1] in db then Columns(db[ids[k - 1]]) else 0)
  }

  ghost predicate PartlyApplied(db: Records, db': Records, done: seq<string>, e: Encryptor) {
    db'.Keys == db.Keys
    && forall id :: id in db ==> if id in done then Migrated(e, db[id], db'[id]) else db'[id] == db[id]
  }

  lemma AppliedIsClean(db: Records, db': Records, tenant: string, e: Encryptor)
    requires Applied(db, db', tenant, e)
    ensures SelectedIds(db', tenant) == {}
  {
  }

  /** How many columns these backup lines hold in plaintext. */
  function LineColumns(lines: seq<Line>): nat {
    if lines == [] then 0
    else
      var last := lines[|lines| - 1];
      LineColumns(lines[..|lines| - 1]) + (if Plain(last.query) then 1 else 0) + (if Plain(last.rawOutput) then 1 else 0)
  }

  /** The backup lines of a scan, in its order. */
  function LinesOf(db: Records, ids: seq<string>): (lines: seq<Line>)
    requires forall id :: id in ids ==> id in db
    ensures |lines| == |ids|
  {
    seq(|ids|, i requires 0 <= i < |ids| => assert ids[i] in ids; LineOf(db, ids[i]))
  }

  lemma {:induction false} BackupColumns(db: Records, ids: seq<string>, k: nat)
    requires k <= |ids| && forall id :: id in ids ==> id in db
    ensures PlainColumns(db, ids, k) == LineColumns(LinesOf(db, ids)[..k])
  {
    if k > 0 {
      var lines := LinesOf(db, ids);
      BackupColumns(db, ids, k - 1);
      assert lines[..k][..k - 1] == lines[..k - 1];
      assert ids[k - 1] in ids && lines[k - 1] == LineOf(db, ids[k - 1]);
    }
  }

  datatype Stats = Stats(scanned: nat, encryptedRows: nat, columnsWritten: nat)

  datatype MigrationError = ContentsParsedNotEmpty | BackupRequired | Fault

  /** What was appended to the backup are pre-images of rows the migration is about to touch. */
  ghost predicate LinesGenuine(db: Records, backup: seq<Line>, backup': seq<Line>, tenant: string) {
    && backup <= backup'
    && forall i :: |backup| <= i < |backup'| ==>
         backup'[i].id in SelectedIds(db, tenant) && backup'[i] == LineOf(db, backup'[i].id)
  }

  ghost predicate LinesComplete(db: Records, backup: seq<Line>, backup': seq<Line>, tenant: string) {
    forall id :: id in SelectedIds(db, tenant) ==> exists i :: |backup| <= i < |backup'| && backup'[i].id == id
  }

  /** What any run does to the table and to the backup file: nothing, or the whole migration with its pre-images. */
  ghost predicate RunStep(db: Records, backup: seq<Line>, db': Records, backup': seq<Line>, tenant: string,
                          e: Encryptor) {
    && LinesGenuine(db, backup, backup', tenant)
    && (db' == db || (Applied(db, db', tenant, e) && LinesComplete(db, backup, backup', tenant)))
  }

  class Database {
    const failsAt: Option<nat>
    var statements: nat
    var nonce: nat
    var committed: Records
    var working: Records
    var backup: seq<Line>

    constructor (db: Records, backup: seq<Line>, failsAt: Option<nat>)
      ensures committed == working == db && this.backup == backup && this.failsAt == failsAt
    {
      committed, working, statements, nonce := db, db, 0, 0;
      this.backup, this.failsAt := backup, failsAt;
    }

    method Execute() returns (ok: bool)
      modifies this`statements
      ensures failsAt.None? ==> ok
    {
      statements := statements + 1;
      ok := failsAt != Some(statements);
    }

    method EncryptColumn(e: Encryptor, plain: Option<string>, enc: Option<string>)
      returns (plain': Option<string>, enc': Option<string>, written: nat)
      requires e.Sound()
      modifies this`nonce
      ensures ColumnMigrated(e, plain, enc, plain', enc') && written == if Plain(plain) then 1 else 0
    {
      if plain.None? || plain.value == SENTINEL {
        return plain, enc, 0;
      }
      nonce := nonce + 1;
      return Some(SENTINEL), Some(e.encrypt(plain.value, nonce)), 1;
    }

    /** SELECT ... WHERE, in some order. */
    method Scan(tenant: string) returns (ids: seq<string>)
      ensures forall id :: id in ids <==> id in SelectedIds(working, tenant)
      ensures |ids| == CountPlaintext(working, tenant)
      ensures forall i, j :: 0 <= i < j < |ids| ==> ids[i] != ids[j]
    {
      ids := [];
      var todo := SelectedIds(working, tenant);
      while todo != {}
        invariant todo <= SelectedIds(working, tenant)
        invariant forall id :: id in ids <==> id in SelectedIds(working, tenant) - todo
        invariant |ids| + |todo| == CountPlaintext(working, tenant)
        invariant forall i, j :: 0 <= i < j < |ids| ==> ids[i] != ids[j]
        decreases |todo|
      {
        var id :| id in todo;
        assert id !in ids;
        todo := todo - {id};
        ids := ids + [id];
      }
    }

    method WriteBackup(ids: seq<string>)
      requires forall id :: id in ids ==> id in working
      modifies this`backup
      ensures backup == old(backup) + LinesOf(working, ids)
    {
      for k := 0 to |ids|
        invariant backup == old(backup) + LinesOf(working, ids)[..k]
      {
        assert ids[k] in ids;
        backup := backup + [LineOf(working, ids[k])];
      }
    }

    method UpdateRows(ids: seq<string>, e: Encryptor) returns (ok: bool, rows: nat, columns: nat)
      requires e.Sound() && forall id :: id in ids ==> id in working && Columns(working[id]) > 0
      requires forall i, j :: 0 <= i < j < |ids| ==> ids[i] != ids[j]
      modifies this`working, this`nonce, this`statements
      ensures failsAt.None? ==> ok
      ensures ok ==> PartlyApplied(old(working), working, ids, e)
      ensures ok ==> rows == |ids| && columns == PlainColumns(old(working), ids, |ids|)
    {
      ghost var db := working;
      rows, columns := 0, 0;
      for k := 0 to |ids|
        invariant PartlyApplied(db, working, ids[..k], e)
        invariant rows == k && columns == PlainColumns(db, ids, k)
      {
        assert ids[k] in ids && ids[k] !in ids[..k];
        var r := working[ids[k]];
        var query, queryEnc, n := EncryptColumn(e, r.query, r.queryEnc);
        var rawOutput, rawOutputEnc, m := EncryptColumn(e, r.rawOutput, r.rawOutputEnc);
        columns := columns + n + m;
        ok := Execute();
        if !ok {
          return;
        }
        working := working[ids[k] := r.(query := query, queryEnc := queryEnc, rawOutput := rawOutput, rawOutputEnc := rawOutputEnc)];
        rows := rows + 1;
        assert ids[..k + 1] == ids[..k] + [ids[k]];
      }
      assert ids[..|ids|] == ids;
      ok := true;
    }

    /** Updates, then the commit; any failure commits nothing. */
    method Commit(ids: seq<string>, tenant: string, e: Encryptor) returns (ok: bool, rows: nat, columns: nat)
      requires working == committed && e.Sound()
      requires forall id :: id in ids <==> id in SelectedIds(working, tenant)
      requires forall i, j :: 0 <= i < j < |ids| ==> ids[i] != ids[j]
      modifies this`working, this`committed, this`nonce, this`statements
      ensures working == committed
      ensures failsAt.None? ==> ok
      ensures ok ==> Applied(old(committed), committed, tenant, e) && SelectedIds(committed, tenant) == {}
      ensures ok ==> rows == |ids| && columns == PlainColumns(old(committed), ids, |ids|)
      ensures !ok ==> committed == old(committed)
    {
      ghost var db := working;
      ok, rows, columns := UpdateRows(ids, e);
      if ok {
        AppliedIsClean(db, working, tenant, e);
        ok := Execute();
      }
      if ok {
        committed := working;
      } else {
        working := committed;
      }
    }

    /** Backup, updates, commit. */
    method Apply(ids: seq<string>, tenant: string, e: Encryptor) returns (ok: bool, rows: nat, columns: nat)
      requires working == committed && e.Sound()
      requires forall id :: id in ids <==> id in SelectedIds(working, tenant)
      requires forall i, j :: 0 <= i < j < |ids| ==> ids[i] != ids[j]
      modifies this
      ensures working == committed && RunStep(old(committed), old(backup), committed, backup, tenant, e)
      ensures failsAt.None? ==> ok
      ensures ok ==> Applied(old(committed), committed, tenant, e) && SelectedIds(committed, tenant) == {}
      ensures ok ==> rows == |ids| == |backup| - |old(backup)| && columns == LineColumns(backup[|old(backup)|..])
      ensures !ok ==> committed == old(committed)
    {
      ghost var db, before := committed, backup;
      WriteBackup(ids);
      BackupStep(db, before, backup, ids, tenant);
      ok, rows, columns := Commit(ids, tenant, e);
    }

    /**
     The migration. It commits all of a tenant's plaintext or nothing, never without the pre-images in the
     backup first; the guard, a dry run, a missing backup path and a failing statement commit nothing.
     */
    method Reencrypt(tenant: string, e: Encryptor, dryRun: bool, hasBackupPath: bool)
      returns (r: Result<Stats, MigrationError>)
      requires working == committed && e.Sound()
      modifies this
      ensures working == committed && RunStep(old(committed), old(backup), committed, backup, tenant, e)
      ensures r.Success? && !dryRun ==>
        && Applied(old(committed), committed, tenant, e) && CountPlaintext(committed, tenant) == 0
        && r.value.encryptedRows == r.value.scanned == |backup| - |old(backup)|
        && r.value.columnsWritten == LineColumns(backup[|old(backup)|..])
      ensures r.Success? ==> r.value.scanned == CountPlaintext(old(committed), tenant)
      ensures r.Failure? || dryRun ==> committed == old(committed)
      ensures dryRun || !hasBackupPath ==> backup == old(backup)
      ensures r == Failure(ContentsParsedNotEmpty) <==> Guarded(old(committed), tenant)
      ensures r == Failure(BackupRequired) <==> !Guarded(old(committed), tenant) && !dryRun && !hasBackupPath
      ensures failsAt.None? ==> r != Failure(Fault)
    {
      var ids := Scan(tenant);
      if exists id :: id in ids && Conflicting(working[id]) {
        return Failure(ContentsParsedNotEmpty);
      }
      if dryRun {
        return Success(Stats(|ids|, 0, 0));
      }
      if !hasBackupPath {
        return Failure(BackupRequired);
      }
      var ok, rows, columns := Apply(ids, tenant, e);
      return if ok then Success(Stats(|ids|, rows, columns)) else Failure(Fault);
    }
  }

  lemma BackupStep(db: Records, backup: seq<Line>, backup': seq<Line>, ids: seq<string>, tenant: string)
    requires (forall id :: id in ids <==> id in SelectedIds(db, tenant)) && backup' == backup + LinesOf(db, ids)
    ensures LinesGenuine(db, backup, backup', tenant) && LinesComplete(db, backup, backup', tenant)
    ensures LineColumns(backup'[|backup|..]) == PlainColumns(db, ids, |ids|)
  {
    var lines := LinesOf(db, ids);
    forall i | |backup| <= i < |backup'|
      ensures backup'[i].id in SelectedIds(db, tenant) && backup'[i] == LineOf(db, backup'[i].id)
    {
      var k := i - |backup|;
      assert ids[k] in ids && lines[k] == LineOf(db, ids[k]);
    }
    forall id | id in SelectedIds(db, tenant)
      ensures exists i :: |backup| <= i < |backup'| && backup'[i].id == id
    {
      var k :| 0 <= k < |ids| && ids[k] == id;
      assert backup'[|backup| + k].id == id;
    }
    BackupColumns(db, ids, |ids|);
    assert backup'[|backup|..] == lines && lines[..|ids|] == lines;
  }

  // ----- Reading back and running again -----

  /** How the decision trail reads a content column. */
  function ReadColumn(e: Encryptor, plain: Option<string>, enc: Option<string>): Option<string> {
    if plain == Some(SENTINEL) && enc.Some? then Some(e.decrypt(enc.value)) else plain
  }

  /** Whoever reads through the encryptor sees the same context before and after. */
  lemma ReadsTheSame(db: Records, db': Records, tenant: string, e: Encryptor, id: string)
    requires Applied(db, db', tenant, e) && id in db
    ensures ReadColumn(e, db'[id].query, db'[id].queryEnc) == ReadColumn(e, db[id].query, db[id].queryEnc)
    ensures ReadColumn(e, db'[id].rawOutput, db'[id].rawOutputEnc) == ReadColumn(e, db[id].rawOutput, db[id].rawOutputEnc)
  {
  }

  lemma LinesNeedRows(db: Records, backup: seq<Line>, db': Records, backup': seq<Line>, tenant: string, e: Encryptor)
    requires RunStep(db, backup, db', backup', tenant, e)
    ensures backup' == backup || exists id :: id in SelectedIds(db, tenant)
  {
    if |backup| < |backup'| {
      assert backup'[|backup|].id in SelectedIds(db, tenant);
    }
  }

  /** A second apply, even with another encryptor, changes nothing and backs up nothing. */
  lemma SecondApplyIsNoop(db: Records, once: Records, twice: Records, tenant: string, e: Encryptor, e': Encryptor,
                          backup: seq<Line>, backup': seq<Line>)
    requires Applied(db, once, tenant, e) && RunStep(once, backup, twice, backup', tenant, e')
    ensures twice == once && backup' == backup
  {
    AppliedIsClean(db, once, tenant, e);
    forall id | id in once
      ensures twice[id] == once[id]
    {
      if once[id].tenant == tenant {
        assert id !in SelectedIds(once, tenant);
      }
    }
    LinesNeedRows(once, backup, twice, backup', tenant, e');
  }

  // ----- The backup over whole histories -----

  /** Writes every line's columns back, in file order. */
  function Replay(lines: seq<Line>, db: Records): Records {
    if lines == [] then db
    else
      var sofar, l := Replay(lines[..|lines| - 1], db), lines[|lines| - 1];
      if l.id in sofar then sofar[l.id := sofar[l.id].(query := l.query, rawOutput := l.rawOutput)] else sofar
  }

  datatype Attempt = Attempt(tenant: string, encryptor: Encryptor)

  datatype State = State(db: Records, backup: seq<Line>)

  /** A history of runs for any tenants, each of them committed, refused, dry or failed half-way. */
  ghost predicate History(states: seq<State>, attempts: seq<Attempt>) {
    |states| == |attempts| + 1
    && forall i :: 0 <= i < |attempts| ==>
         RunStep(states[i].db, states[i].backup, states[i + 1].db, states[i + 1].backup, attempts[i].tenant, attempts[i].encryptor)
  }

  predicate SameContext(r: Record, r': Record) { r'.query == r.query && r'.rawOutput == r.rawOutput }

  ghost predicate Listed(lines: seq<Line>, id: string) { exists i :: 0 <= i < |lines| && lines[i].id == id }

  /** Every line holds the original context, and a row that no longer does is listed and no longer plain. */
  ghost predicate Recoverable(origin: Records, db: Records, lines: seq<Line>) {
    && db.Keys == origin.Keys
    && (forall i :: 0 <= i < |lines| ==> lines[i].id in origin && lines[i] == LineOf(origin, lines[i].id))
    && (forall id :: id in db ==> db[id].tenant == origin[id].tenant)
    && (forall id :: id in db ==> SameContext(origin[id], db[id]) || (Listed(lines, id) && Columns(db[id]) == 0))
  }

  lemma {:induction false} ReplayAt(origin: Records, lines: seq<Line>, db: Records, id: string)
    requires forall i :: 0 <= i < |lines| ==> lines[i].id in origin && lines[i] == LineOf(origin, lines[i].id)
    requires id in db && id in origin
    ensures Replay(lines, db).Keys == db.Keys
    ensures SameContext(if Listed(lines, id) then origin[id] else db[id], Replay(lines, db)[id])
  {
    if lines != [] {
      var front, last := lines[..|lines| - 1], lines[|lines| - 1];
      ReplayAt(origin, front, db, id);
      assert lines == front + [last];
      assert Listed(lines, id) <==> Listed(front, id) || last.id == id;
    }
  }

  lemma RecoverableReplays(origin: Records, db: Records, lines: seq<Line>, id: string)
    requires Recoverable(origin, db, lines) && id in db
    ensures id in Replay(lines, db) && SameContext(origin[id], Replay(lines, db)[id])
  {
    ReplayAt(origin, lines, db, id);
  }

  lemma ListedGrows(lines: seq<Line>, lines': seq<Line>, id: string)
    requires lines <= lines' && Listed(lines, id)
    ensures Listed(lines', id)
  {
    var i :| 0 <= i < |lines| && lines[i].id == id;
    assert lines'[i].id == id;
  }

  lemma UnselectedUntouched(db: Records, db': Records, tenant: string, e: Encryptor, id: string)
    requires Applied(db, db', tenant, e) && id in db
    ensures id !in SelectedIds(db, tenant) ==> db'[id] == db[id]
    ensures id in SelectedIds(db, tenant) ==> Columns(db'[id]) == 0
    ensures db'[id].tenant == db[id].tenant
  {
  }

  lemma StepRecoverable(origin: Records, db: Records, lines: seq<Line>, db': Records, lines': seq<Line>,
                        tenant: string, e: Encryptor)
    requires Recoverable(origin, db, lines) && RunStep(db, lines, db', lines', tenant, e)
    ensures Recoverable(origin, db', lines')
  {
    forall i | 0 <= i < |lines'|
      ensures lines'[i].id in origin && lines'[i] == LineOf(origin, lines'[i].id)
    {
      if i < |lines| {
        assert lines'[i] == lines[i];
      } else {
        assert Columns(db[lines'[i].id]) > 0;
      }
    }
    forall id | id in db'
      ensures db'[id].tenant == origin[id].tenant
      ensures SameContext(origin[id], db'[id]) || (Listed(lines', id) && Columns(db'[id]) == 0)
    {
      if Listed(lines, id) {
        ListedGrows(lines, lines', id);
      }
      if db' != db {
        UnselectedUntouched(db, db', tenant, e, id);
      }
    }
  }

  /** Through any history, replaying what it appended to the backup brings back every original context. */
  lemma BackupRestores(states: seq<State>, attempts: seq<Attempt>, id: string)
    requires History(states, attempts) && states[0].backup == [] && id in states[0].db
    ensures var last := states[|attempts|];
      var restored := Replay(last.backup, last.db);
      id in restored && SameContext(states[0].db[id], restored[id])
  {
    HistoryRecoverable(states, attempts, |attempts|);
    RecoverableReplays(states[0].db, states[|attempts|].db, states[|attempts|].backup, id);
  }

  lemma {:induction false} HistoryRecoverable(states: seq<State>, attempts: seq<Attempt>, n: nat)
    requires History(states, attempts) && states[0].backup == [] && n <= |attempts|
    ensures Recoverable(states[0].db, states[n].db, states[n].backup)
  {
    if n > 0 {
      HistoryRecoverable(states, attempts, n - 1);
      StepRecoverable(states[0].db, states[n - 1].db, states[n - 1].backup, states[n].db, states[n].backup,
                      attempts[n - 1].tenant, attempts[n - 1].encryptor);
    }
  }

  // ----- What no apply touches -----

  /** SQL's table for OR: unknown only when no operand is true and one is unknown. */
  lemma KleeneOr(a: Truth, b: Truth)
    ensures Or(a, b) == True <==> a == True || b == True
    ensures Or(a, b) == False <==> a == False && b == False
    ensures And(a, b) == True <==> a == True && b == True
    ensures And(a, b) == False <==> a == False || b == False
  {
  }

  /** The row holds retrieved contents or parsed output that the migration would leave in the clear. */
  ghost predicate HoldsMore(r: Record) {
    r.hasParsedOutput
    || !(r.contents == Null || r.contents == EmptyList || r.contents == EmptyObject
         || r.contents == Text("[]") || r.contents == Text("{}"))
  }

  /** A content column that is neither null nor the sentinel text. */
  ghost predicate InTheClear(column: Option<string>) { column != None && column != Some("[ENCRYPTED]") }

  lemma SelectedExactly(db: Records, tenant: string, id: string)
    ensures id in SelectedIds(db, tenant) <==>
      id in db && db[id].tenant == tenant && (InTheClear(db[id].query) || InTheClear(db[id].rawOutput))
  {
    if id in db {
      SelectedIff(db[id], tenant);
    }
  }

  /** The guard closes exactly when some row of the tenant with plaintext to migrate holds more than that. */
  lemma GuardedIff(db: Records, tenant: string)
    ensures Guarded(db, tenant) <==> exists id :: id in db && db[id].tenant == tenant && HoldsMore(db[id])
                                                  && (InTheClear(db[id].query) || InTheClear(db[id].rawOutput))
  {
    forall id
      ensures id in SelectedIds(db, tenant) <==>
        id in db && db[id].tenant == tenant && (InTheClear(db[id].query) || InTheClear(db[id].rawOutput))
    {
      SelectedExactly(db, tenant, id);
    }
  }

  /** What an unguarded apply changes: rows of the tenant with plaintext and nothing more, and in them those columns only. */
  lemma TouchedRows(db: Records, db': Records, tenant: string, e: Encryptor, id: string)
    requires Applied(db, db', tenant, e) && !Guarded(db, tenant) && id in db
    ensures db'.Keys == db.Keys
    ensures db'[id] != db[id] ==> db[id].tenant == tenant && !HoldsMore(db[id])
    ensures db'[id] == db[id].(query := db'[id].query, queryEnc := db'[id].queryEnc,
                               rawOutput := db'[id].rawOutput, rawOutputEnc := db'[id].rawOutputEnc)
    ensures InTheClear(db[id].query) && db[id].tenant == tenant ==>
      db'[id].query == Some("[ENCRYPTED]") && db'[id].queryEnc.Some? && Some(e.decrypt(db'[id].queryEnc.value)) == db[id].query
    ensures InTheClear(db[id].rawOutput) && db[id].tenant == tenant ==>
      db'[id].rawOutput == Some("[ENCRYPTED]") && db'[id].rawOutputEnc.Some?
      && Some(e.decrypt(db'[id].rawOutputEnc.value)) == db[id].rawOutput
    ensures !InTheClear(db[id].query) ==> db'[id].query == db[id].query && db'[id].queryEnc == db[id].queryEnc
    ensures !InTheClear(db[id].rawOutput) ==> db'[id].rawOutput == db[id].rawOutput && db'[id].rawOutputEnc == db[id].rawOutputEnc
  {
    SelectedExactly(db, tenant, id);
    GuardedIff(db, tenant);
  }

  /** The columns reported are those in the clear, row by row of the scan. */
  lemma {:induction false} ColumnsCounted(db: Records, ids: seq<string>, k: nat)
    requires k < |ids| && ids[k] in db
    ensures PlainColumns(db, ids, 0) == 0
    ensures PlainColumns(db, ids, k + 1) == PlainColumns(db, ids, k)
      + (if InTheClear(db[ids[k]].query) then 1 else 0) + (if InTheClear(db[ids[k]].rawOutput) then 1 else 0)
  {
  }

  /** Through the sentinel a reader sees the decrypted text; anything else, and a sentinel without ciphertext, as it is. */
  lemma ReadColumnIs(e: Encryptor, plain: Option<string>, enc: Option<string>)
    ensures plain != Some("[ENCRYPTED]") || enc == None ==> ReadColumn(e, plain, enc) == plain
    ensures plain == Some("[ENCRYPTED]") && enc != None ==> ReadColumn(e, plain, enc) == Some(e.decrypt(enc.value))
  {
  }

  /** Every run that is made extends the history, so whatever sequence of runs there was is one. */
  lemma HistoryExtends(states: seq<State>, attempts: seq<Attempt>, next: State, a: Attempt)
    requires History(states, attempts)
    requires var last := states[|attempts|]; RunStep(last.db, last.backup, next.db, next.backup, a.tenant, a.encryptor)
    ensures History(states + [next], attempts + [a]) && History([next], [])
  {
    var more, runs := states + [next], attempts + [a];
    forall i | 0 <= i < |runs|
      ensures RunStep(more[i].db, more[i].backup, more[i + 1].db, more[i + 1].backup, runs[i].tenant, runs[i].encryptor)
    {
      if i < |attempts| {
        assert more[i] == states[i] && more[i + 1] == states[i + 1] && runs[i] == attempts[i];
      }
    }
  }
}
