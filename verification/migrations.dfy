/** Crash-safe migrations: what any number of interrupted start-ups leaves in the database. */
module Migrations {
  import opened Base

  /** A migration file: transactional SQL, a CREATE INDEX CONCURRENTLY (with or without IF NOT EXISTS), or another
      statement that refuses to run inside a transaction. */
  datatype Migration =
    | Plain(name: string)
    | Concurrent(name: string, index: string, ifNotExists: bool)
    | Bare(name: string)

  datatype Index = Valid | Invalid

  /** times counts how often a file's effect has been committed. */
  datatype Db = Db(ledger: set<string>, times: map<string, nat>, indexes: map<string, Index>, hasPackets: bool)

  const FRESH: Db := Db({}, map[], map[], false)
  const BASELINE: string := "001_baseline.sql"

  /** What happens to one database call: it works; it fails without effect; the process dies before or after its
      effect; or a concurrent index operation breaks off and leaves the index invalid, with an error or a dead
      process. */
  datatype Fate = Works | Fails | DiesBefore | DiesAfter | BreaksOff(dies: bool)

  datatype Reply = Done | Duplicate | Error | Dead

  function Times(db: Db, name: string): nat {
    if name in db.times then db.times[name] else 0
  }

  function Committed(db: Db, name: string): Db {
    db.(times := db.times[name := Times(db, name) + 1], hasPackets := db.hasPackets || name == BASELINE)
  }

  /** A call with one effect, all or nothing. */
  function Call(db: Db, effect: Db, fate: Fate): (Db, Reply) {
    match fate
    case Works => (effect, Done)
    case Fails => (db, Error)
    case DiesBefore => (db, Dead)
    case DiesAfter => (effect, Dead)
    case BreaksOff(dies) => (db, if dies then Dead else Error)
  }

  /** CREATE INDEX CONCURRENTLY: 42P07 on an existing index, unless IF NOT EXISTS accepts whatever is there. */
  function CreateIndex(db: Db, m: Migration, fate: Fate): (Db, Reply)
    requires m.Concurrent?
  {
    if m.index in db.indexes then
      if m.ifNotExists then Call(db, db, fate)
      else if fate == Works then (db, Duplicate) else Call(db, db, fate)
    else if fate.BreaksOff? then (db.(indexes := db.indexes[m.index := Invalid]), if fate.dies then Dead else Error)
    else Call(db, db.(indexes := db.indexes[m.index := Valid]), fate)
  }

  /** DROP INDEX CONCURRENTLY IF EXISTS: broken off, it leaves an invalid index behind. */
  function DropIndex(db: Db, index: string, fate: Fate): (Db, Reply) {
    if fate.BreaksOff? then
      (if index in db.indexes then db.(indexes := db.indexes[index := Invalid]) else db, if fate.dies then Dead
          else Error)
    else Call(db, db.(indexes := db.indexes - {index}), fate)
  }

  function Recorded(db: Db, name: string): Db {
    db.(ledger := db.ledger + {name})
  }

  // ---- the program, as a function of the fates its calls meet ----

  datatype Run = Run(db: Db, fates: seq<Fate>, reply: Reply)

  function Head(fates: seq<Fate>): Fate {
    if fates == [] then Works else fates[0]
  }

  function Tail(fates: seq<Fate>): seq<Fate> {
    if fates == [] then [] else fates[1..]
  }

  function Do(outcome: (Db, Reply), fates: seq<Fate>): Run {
    Run(outcome.0, Tail(fates), outcome.1)
  }

  /** applyMigration on a concurrent index: on 42P07 accept a valid index, drop and rebuild an invalid one. */
  function ApplyIndex(db: Db, m: Migration, fates: seq<Fate>): Run
    requires m.Concurrent?
  {
    var built := Do(CreateIndex(db, m, Head(fates)), fates);
    if built.reply != Duplicate then built
    else
      var checked := Do(Call(built.db, built.db, Head(built.fates)), built.fates);
      if checked.reply != Done then checked
      else if m.index in built.db.indexes && built.db.indexes[m.index] == Valid then checked
      else
        var dropped := Do(DropIndex(checked.db, m.index, Head(checked.fates)), checked.fates);
        if dropped.reply != Done then dropped
        else Do(CreateIndex(dropped.db, m, Head(dropped.fates)), dropped.fates)
  }

  /** applyAndRecord. */
  function Apply(db: Db, m: Migration, fates: seq<Fate>): Run {
    if m.Plain? then Do(Call(db, Recorded(Committed(db, m.name), m.name), Head(fates)), fates)
    else
      var applied := if m.Concurrent? then ApplyIndex(db, m, fates)
          else Do(Call(db, Committed(db, m.name), Head(fates)), fates);
      if applied.reply != Done then applied
      else Do(Call(applied.db, Recorded(applied.db, m.name), Head(applied.fates)), applied.fates)
  }

  predicate PreBaseline(db: Db) {
    (db.ledger != {} && BASELINE !in db.ledger) || (db.ledger == {} && db.hasPackets)
  }

  /** One file: skip it when it is recorded. */
  function ApplyOne(db: Db, m: Migration, fates: seq<Fate>): Run {
    var asked := Do(Call(db, db, Head(fates)), fates);
    if asked.reply != Done || m.name in db.ledger then asked else Apply(db, m, asked.fates)
  }

  /** The loop over the files in name order. */
  function ApplyAll(db: Db, files: seq<Migration>, fates: seq<Fate>): Run
    decreases |files|
  {
    if files == [] then Run(db, fates, Done)
    else
      var one := ApplyOne(db, files[0], fates);
      if one.reply != Done then one else ApplyAll(one.db, files[1..], one.fates)
  }

  /** runMigrations: create the ledger, check the baseline, apply what is missing. */
  function RunMigrations(db: Db, files: seq<Migration>, fates: seq<Fate>): Run {
    var created := Do(Call(db, db, Head(fates)), fates);
    if created.reply != Done then created
    else
      var checked := Do(Call(db, db, Head(created.fates)), created.fates);
      if checked.reply != Done then checked
      else if PreBaseline(db) then checked.(reply := Error)
      else ApplyAll(db, files, checked.fates)
  }

  /** Start-up after start-up, each with its own fates. */
  function Starts(db: Db, files: seq<Migration>, attempts: seq<seq<Fate>>): Db {
    if attempts == [] then db
    else RunMigrations(Starts(db, files, attempts[..|attempts| - 1]), files, attempts[|attempts| - 1]).db
  }

  // ---- what every call keeps ----

  /** A directory of migrations: the baseline first and transactional, names and index names all different. */
  ghost predicate Directory(files: seq<Migration>) {
    && files != [] && files[0] == Plain(BASELINE)
    && (forall i, j :: 0 <= i < j < |files| ==> files[i].name != files[j].name)
    && (forall i, j :: 0 <= i < j < |files| && files[i].Concurrent? && files[j].Concurrent?
                       ==> files[i].index != files[j].index)
  }

  ghost predicate Sound(db: Db, m: Migration) {
    match m
    case Plain(name) => Times(db, name) == if name in db.ledger then 1 else 0
    case Concurrent(name, index, ifNotExists) =>
      name in db.ledger ==> index in db.indexes && (!ifNotExists ==> db.indexes[index] == Valid)
    case Bare(name) => name in db.ledger ==> Times(db, name) >= 1
  }

  ghost predicate Inv(db: Db, files: seq<Migration>) {
    && (forall i :: 0 <= i < |files| ==> Sound(db, files[i]))
    && (db.hasPackets <==> BASELINE in db.ledger)
    && (db.ledger != {} ==> BASELINE in db.ledger)
  }

  lemma FreshInv(files: seq<Migration>)
    ensures Inv(FRESH, files)
  {
  }

  ghost predicate Untouched(db: Db, db': Db, m: Migration) {
    && (m.name in db.ledger <==> m.name in db'.ledger) && Times(db, m.name) == Times(db', m.name)
    && (m.Concurrent? ==> (m.index in db.indexes <==> m.index in db'.indexes)
                          && (m.index in db.indexes ==> db.indexes[m.index] == db'.indexes[m.index]))
  }

  /** Only this index may differ. */
  ghost predicate OnlyIndex(db: Db, db': Db, index: string) {
    && db'.ledger == db.ledger && db'.times == db.times && db'.hasPackets == db.hasPackets
    && (forall x :: x != index ==> (x in db.indexes <==> x in db'.indexes)
                                   && (x in db.indexes ==> db.indexes[x] == db'.indexes[x]))
  }

  lemma CreateTouchesIndex(db: Db, m: Migration, fate: Fate)
    requires m.Concurrent?
    ensures OnlyIndex(db, CreateIndex(db, m, fate).0, m.index)
    ensures var (db', reply) := CreateIndex(db, m, fate);
            && (reply == Done ==> m.index in db'.indexes
                                  && (!m.ifNotExists || m.index !in db.indexes ==> db'.indexes[m.index] == Valid))
            && (reply == Duplicate ==> db' == db && m.index in db.indexes && !m.ifNotExists && fate == Works)
  {
  }

  lemma DropTouchesIndex(db: Db, index: string, fate: Fate)
    ensures OnlyIndex(db, DropIndex(db, index, fate).0, index)
    ensures DropIndex(db, index, fate).1 == Done ==> index !in DropIndex(db, index, fate).0.indexes
  {
  }

  /** applyMigration changes its index only; when it succeeds the index exists, valid unless IF NOT EXISTS accepted
      it. */
  lemma ApplyIndexResult(db: Db, m: Migration, fates: seq<Fate>)
    requires m.Concurrent?
    ensures var r := ApplyIndex(db, m, fates);
            && OnlyIndex(db, r.db, m.index)
            && (r.reply == Done ==> m.index in r.db.indexes && (!m.ifNotExists ==> r.db.indexes[m.index] == Valid))
  {
    CreateTouchesIndex(db, m, Head(fates));
    var built := Do(CreateIndex(db, m, Head(fates)), fates);
    if built.reply == Duplicate {
      var checked := Do(Call(built.db, built.db, Head(built.fates)), built.fates);
      if checked.reply == Done && db.indexes[m.index] == Invalid {
        DropTouchesIndex(checked.db, m.index, Head(checked.fates));
        var dropped := Do(DropIndex(checked.db, m.index, Head(checked.fates)), checked.fates);
        CreateTouchesIndex(dropped.db, m, Head(dropped.fates));
      }
    }
  }

  lemma OtherUntouched(db: Db, db': Db, m: Migration, other: Migration)
    requires m.Concurrent? && OnlyIndex(db, db', m.index) && other.name != m.name
             && (other.Concurrent? ==> other.index != m.index)
    ensures Untouched(db, db', other) && Untouched(db, Recorded(db', m.name), other)
  {
  }

  lemma RecordCall(db: Db, name: string, fate: Fate)
    ensures Call(db, Recorded(db, name), fate).0 in {db, Recorded(db, name)}
  {
  }

  /** Applying a file leaves every other file's ledger row, effect count and index alone. */
  lemma ApplyTouchesOne(db: Db, m: Migration, fates: seq<Fate>, other: Migration)
    requires other.name != m.name && (m.Concurrent? && other.Concurrent? ==> other.index != m.index)
    ensures Untouched(db, Apply(db, m, fates).db, other)
  {
    if m.Concurrent? {
      ApplyIndexResult(db, m, fates);
      var applied := ApplyIndex(db, m, fates);
      OtherUntouched(db, applied.db, m, other);
      RecordCall(applied.db, m.name, Head(applied.fates));
      assert Apply(db, m, fates).db in {applied.db, Recorded(applied.db, m.name)};
    }
  }

  /** However the application of a file ends, the file stays sound; and when it succeeds the file is recorded. */
  lemma ApplySound(db: Db, m: Migration, fates: seq<Fate>)
    requires Sound(db, m) && m.name !in db.ledger
    ensures Sound(Apply(db, m, fates).db, m)
    ensures Apply(db, m, fates).reply == Done ==> m.name in Apply(db, m, fates).db.ledger
    ensures db.ledger <= Apply(db, m, fates).db.ledger <= db.ledger + {m.name}
  {
    if m.Concurrent? {
      ApplyIndexResult(db, m, fates);
      var applied := ApplyIndex(db, m, fates);
      RecordCall(applied.db, m.name, Head(applied.fates));
      RecordSound(db, applied, m, Do(Call(applied.db, Recorded(applied.db, m.name), Head(applied.fates)),
                                     applied.fates));
    }
  }

  lemma RecordSound(db: Db, applied: Run, m: Migration, recorded: Run)
    requires m.Concurrent? && Sound(db, m) && m.name !in db.ledger && applied.db.ledger == db.ledger
    requires applied.reply == Done ==> m.index in applied.db.indexes
                                       && (!m.ifNotExists ==> applied.db.indexes[m.index] == Valid)
    requires recorded.db in {applied.db, Recorded(applied.db, m.name)}
    ensures Sound(applied.db, m) && (applied.reply == Done ==> Sound(recorded.db, m))
  {
  }

  lemma ApplyPackets(db: Db, m: Migration, fates: seq<Fate>)
    requires m.name == BASELINE ==> m.Plain?
    requires (db.hasPackets <==> BASELINE in db.ledger) && (m.name != BASELINE ==> BASELINE in db.ledger)
             && m.name !in db.ledger
    ensures var db' := Apply(db, m, fates).db;
            (db'.hasPackets <==> BASELINE in db'.ledger) && (db'.ledger != db.ledger ==> BASELINE in db'.ledger)
  {
    if m.Concurrent? {
      ApplyIndexResult(db, m, fates);
      var applied := ApplyIndex(db, m, fates);
      RecordCall(applied.db, m.name, Head(applied.fates));
      assert Apply(db, m, fates).db in {applied.db, Recorded(applied.db, m.name)};
    }
  }

  lemma ApplyKeepsInv(db: Db, files: seq<Migration>, k: nat, fates: seq<Fate>)
    requires Directory(files) && Inv(db, files) && k < |files| && files[k].name !in db.ledger
             && (k > 0 ==> BASELINE in db.ledger)
    ensures Inv(Apply(db, files[k], fates).db, files)
  {
    var db' := Apply(db, files[k], fates).db;
    ApplySound(db, files[k], fates);
    assert k > 0 ==> files[k].name != files[0].name;
    ApplyPackets(db, files[k], fates);
    forall i | 0 <= i < |files| ensures Sound(db', files[i]) {
      if i != k {
        assert files[i].name != files[k].name;
        ApplyTouchesOne(db, files[k], fates, files[i]);
      }
    }
  }

  lemma ApplyOneKeepsInv(db: Db, files: seq<Migration>, k: nat, fates: seq<Fate>)
    requires Directory(files) && Inv(db, files) && k < |files| && (k > 0 ==> BASELINE in db.ledger)
    ensures var one := ApplyOne(db, files[k], fates);
            && Inv(one.db, files) && db.ledger <= one.db.ledger
            && (one.reply == Done ==> files[k].name in one.db.ledger)
  {
    var asked := Do(Call(db, db, Head(fates)), fates);
    if asked.reply == Done && files[k].name !in db.ledger {
      ApplyKeepsInv(db, files, k, asked.fates);
      ApplySound(db, files[k], asked.fates);
    }
  }

  /** From file k on, with everything before recorded. */
  lemma {:induction false} ApplyAllKeepsInv(db: Db, files: seq<Migration>, k: nat, fates: seq<Fate>)
    requires Directory(files) && Inv(db, files) && k <= |files|
    requires forall i :: 0 <= i < k ==> files[i].name in db.ledger
    ensures Inv(ApplyAll(db, files[k..], fates).db, files)
    ensures ApplyAll(db, files[k..], fates).reply == Done ==>
              forall i :: 0 <= i < |files| ==> files[i].name in ApplyAll(db, files[k..], fates).db.ledger
    decreases |files| - k
  {
    if k < |files| {
      assert files[k..][0] == files[k] && files[k..][1..] == files[k + 1..];
      var one := ApplyOne(db, files[k], fates);
      ApplyOneKeepsInv(db, files, k, fates);
      if one.reply == Done {
        ApplyAllKeepsInv(one.db, files, k + 1, one.fates);
      }
    }
  }

  /** Every start-up, however it ends, keeps the invariant; one that succeeds has recorded every file. */
  lemma StartKeepsInv(db: Db, files: seq<Migration>, fates: seq<Fate>)
    requires Directory(files) && Inv(db, files)
    ensures Inv(RunMigrations(db, files, fates).db, files)
    ensures RunMigrations(db, files, fates).reply == Done ==>
              forall i :: 0 <= i < |files| ==> files[i].name in RunMigrations(db, files, fates).db.ledger
  {
    assert files[0..] == files;
    var created := Do(Call(db, db, Head(fates)), fates);
    ApplyAllKeepsInv(db, files, 0, Do(Call(db, db, Head(created.fates)), created.fates).fates);
  }

  /** Over any number of start-ups with any crashes: a transactional file has been applied once if it is recorded and
      not at all otherwise; a recorded concurrent index exists, and is valid unless the file says IF NOT EXISTS; the
      baseline check never locks the database out. */
  lemma {:induction false} MigrationsSurviveCrashes(files: seq<Migration>, attempts: seq<seq<Fate>>)
    requires Directory(files)
    ensures var db := Starts(FRESH, files, attempts);
            Inv(db, files) && !PreBaseline(db)
  {
    FreshInv(files);
    if attempts != [] {
      MigrationsSurviveCrashes(files, attempts[..|attempts| - 1]);
      StartKeepsInv(Starts(FRESH, files, attempts[..|attempts| - 1]), files, attempts[|attempts| - 1]);
    }
  }

  // ---- recovery ----

  lemma {:induction false} UndisturbedAll(db: Db, files: seq<Migration>)
    ensures ApplyAll(db, files, []).reply == Done
    decreases |files|
  {
    if files != [] {
      UndisturbedApply(db, files[0]);
      UndisturbedAll(ApplyOne(db, files[0], []).db, files[1..]);
    }
  }

  lemma UndisturbedApply(db: Db, m: Migration)
    ensures Apply(db, m, []).reply == Done && Apply(db, m, []).fates == []
  {
  }

  /** Whatever crashes went before, one undisturbed start-up completes and records every file. */
  lemma UndisturbedStartCompletes(files: seq<Migration>, attempts: seq<seq<Fate>>)
    requires Directory(files)
    ensures var last := RunMigrations(Starts(FRESH, files, attempts), files, []);
            last.reply == Done && forall i :: 0 <= i < |files| ==> files[i].name in last.db.ledger
  {
    MigrationsSurviveCrashes(files, attempts);
    var db := Starts(FRESH, files, attempts);
    UndisturbedAll(db, files);
    StartKeepsInv(db, files, []);
  }

  // ---- which databases are refused, and what a start-up does to the others ----

  /** What one undisturbed application leaves of a file: a recorded one is left alone; a new one has taken effect once
      more, or its index is there and valid, unless IF NOT EXISTS accepted a broken one. */
  ghost predicate Finished(db: Db, db': Db, m: Migration) {
    && m.name in db'.ledger
    && (m.name in db.ledger ==> Untouched(db, db', m))
    && (m.name !in db.ledger && !m.Concurrent? ==> Times(db', m.name) == Times(db, m.name) + 1)
    && (m.name !in db.ledger && m.Concurrent? ==>
          && m.index in db'.indexes
          && (db'.indexes[m.index] == Invalid <==>
                m.ifNotExists && m.index in db.indexes && db.indexes[m.index] == Invalid))
  }

  lemma UndisturbedOne(db: Db, m: Migration)
    ensures var one := ApplyOne(db, m, []);
            && one.reply == Done && one.fates == [] && Finished(db, one.db, m)
            && one.db.ledger == db.ledger + {m.name}
  {
    UndisturbedApply(db, m);
  }

  lemma OthersUntouched(db: Db, m: Migration, other: Migration)
    requires other.name != m.name && (m.Concurrent? && other.Concurrent? ==> other.index != m.index)
    ensures Untouched(db, ApplyOne(db, m, []).db, other)
  {
    if m.name !in db.ledger { ApplyTouchesOne(db, m, [], other); }
  }

  lemma ThenUntouched(a: Db, b: Db, c: Db, m: Migration)
    ensures Untouched(a, b, m) && Untouched(b, c, m) ==> Untouched(a, c, m)
    ensures Untouched(a, b, m) && Finished(b, c, m) ==> Finished(a, c, m)
    ensures Finished(a, b, m) && Untouched(b, c, m) ==> Finished(a, c, m)
  {
  }

  function Names(files: seq<Migration>): set<string> {
    set i | 0 <= i < |files| :: files[i].name
  }

  lemma NamesFrom(files: seq<Migration>, k: nat)
    requires k < |files|
    ensures Names(files[k..]) == {files[k].name} + Names(files[k + 1..])
  {
    var from, rest := files[k..], files[k + 1..];
    forall name | name in Names(from) ensures name in {files[k].name} + Names(rest) {
      var i :| 0 <= i < |from| && from[i].name == name;
      if i > 0 { assert rest[i - 1].name == name; }
    }
    forall name | name in Names(rest) ensures name in Names(from) {
      var i :| 0 <= i < |rest| && rest[i].name == name;
      assert from[i + 1].name == name;
    }
    assert from[0].name in Names(from);
  }

  lemma {:induction false} UndisturbedFrom(db: Db, files: seq<Migration>, k: nat)
    requires Directory(files) && k <= |files|
    ensures var run := ApplyAll(db, files[k..], []);
            && run.reply == Done && run.db.ledger == db.ledger + Names(files[k..])
            && (forall i :: 0 <= i < k ==> Untouched(db, run.db, files[i]))
            && (forall i :: k <= i < |files| ==> Finished(db, run.db, files[i]))
    decreases |files| - k
  {
    if k < |files| {
      assert files[k..][0] == files[k] && files[k..][1..] == files[k + 1..];
      var one, run := ApplyOne(db, files[k], []), ApplyAll(db, files[k..], []);
      UndisturbedOne(db, files[k]);
      UndisturbedFrom(one.db, files, k + 1);
      NamesFrom(files, k);
      forall i | 0 <= i < |files|
        ensures if i < k then Untouched(db, run.db, files[i]) else Finished(db, run.db, files[i])
      {
        if i != k {
          assert files[i].name != files[k].name;
          OthersUntouched(db, files[k], files[i]);
        }
        ThenUntouched(db, one.db, run.db, files[i]);
      }
    } else {
      assert files[k..] == [];
    }
  }

  /** An undisturbed start-up on any database: it refuses, changing nothing, exactly a ledger that has rows but not the
      baseline's, and packets without a ledger row; otherwise it finishes every file and records no other. */
  lemma UndisturbedStart(db: Db, files: seq<Migration>)
    requires Directory(files)
    ensures var run := RunMigrations(db, files, []);
            if (|db.ledger| > 0 && "001_baseline.sql" !in db.ledger) || (|db.ledger| == 0 && db.hasPackets)
            then run.reply == Error && run.db == db
            else && run.reply == Done && run.db.ledger == db.ledger + Names(files)
                 && forall i :: 0 <= i < |files| ==> Finished(db, run.db, files[i])
  {
    assert files[0..] == files;
    UndisturbedFrom(db, files, 0);
  }

  // ---- IF NOT EXISTS ----

  /** An invalid index left by a broken build: an undisturbed retry always records the file, and repairs the index
      exactly when the file does not say IF NOT EXISTS. */
  lemma RetryRepairs(db: Db, m: Migration)
    requires m.Concurrent? && m.index in db.indexes && db.indexes[m.index] == Invalid
    ensures var db' := Apply(db, m, []).db;
            && m.name in db'.ledger && m.index in db'.indexes
            && (db'.indexes[m.index] == Valid <==> !m.ifNotExists)
  {
  }

  const LENIENT: seq<Migration> := [Plain(BASELINE), IDX]

  const IDX: Migration := Concurrent("002_idx.sql", "idx", true)
  const BASED: Db := Recorded(Committed(FRESH, BASELINE), BASELINE)
  const BROKEN: Db := BASED.(indexes := map["idx" := Invalid])

  /** The index build breaks off and takes the process with it. */
  const CRASH: seq<Fate> := [Works, Works, Works, Works, Works, BreaksOff(true)]

  lemma NamesDiffer()
    ensures BASELINE != IDX.name
  {
    assert BASELINE[1] != IDX.name[1] || BASELINE[2] != IDX.name[2];
  }

  lemma BrokenStart()
    ensures RunMigrations(FRESH, LENIENT, CRASH).db == BROKEN
  {
    NamesDiffer();
    assert LENIENT[1..] == [IDX] && [IDX][1..] == [];
    assert CRASH[1..] == [Works, Works, Works, Works, BreaksOff(true)];
    assert CRASH[1..][1..] == [Works, Works, Works, BreaksOff(true)];
    assert CRASH[1..][1..][1..] == [Works, Works, BreaksOff(true)];
    assert CRASH[1..][1..][1..][1..] == [Works, BreaksOff(true)];
    assert CRASH[1..][1..][1..][1..][1..] == [BreaksOff(true)];
    assert ApplyAll(BASED, [IDX], [Works, BreaksOff(true)]).db == BROKEN;
    assert ApplyAll(FRESH, LENIENT, CRASH[1..][1..]).db == BROKEN;
  }

  lemma CleanRestart()
    ensures RunMigrations(BROKEN, LENIENT, []).db == Apply(BROKEN, IDX, []).db
  {
    NamesDiffer();
    assert LENIENT[1..] == [IDX] && [IDX][1..] == [];
    assert ApplyAll(BROKEN, [IDX], []).db == Apply(BROKEN, IDX, []).db;
  }

  /** So over whole start-ups such a file can end up recorded with an invalid index: one broken build, one clean
      restart. */
  lemma LenientIndexStaysInvalid()
    ensures Directory(LENIENT)
    ensures var db := Starts(FRESH, LENIENT, [CRASH, []]);
            "002_idx.sql" in db.ledger && "idx" in db.indexes && db.indexes["idx"] == Invalid
  {
    NamesDiffer();
    BrokenStart();
    CleanRestart();
    RetryRepairs(BROKEN, IDX);
    assert [CRASH, []][..1] == [CRASH] && [CRASH][..0] == [];
    assert Starts(FRESH, LENIENT, [CRASH]) == BROKEN;
  }
}
