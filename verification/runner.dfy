/** The migration runner as written: calls on a connection, one after another, stopping at the first that does not
    work. */
module MigrationRunner {
  import opened Base
  import opened Migrations

  class Connection {
    var ledger: set<string>
    var times: map<string, nat>
    var indexes: map<string, Index>
    var hasPackets: bool
    var fates: seq<Fate>

    function View(): Db
      reads this
    {
      Db(ledger, times, indexes, hasPackets)
    }

    constructor (db: Db, fates: seq<Fate>)
      ensures View() == db && this.fates == fates
    {
      ledger, times, indexes, hasPackets := db.ledger, db.times, db.indexes, db.hasPackets;
      this.fates := fates;
    }

    /** The environment: one call takes the next fate and leaves the database it decides. */
    method Settle(outcome: (Db, Reply)) returns (reply: Reply)
      modifies this
      ensures Run(View(), fates, reply) == Do(outcome, old(fates))
    {
      ledger, times, indexes, hasPackets := outcome.0.ledger, outcome.0.times, outcome.0.indexes, outcome.0.hasPackets;
      fates := Tail(fates);
      reply := outcome.1;
    }

    method ApplyMigration(m: Migration) returns (reply: Reply)
      requires !m.Plain?
      modifies this
      ensures Run(View(), fates, reply)
           == if m.Concurrent? then ApplyIndex(old(View()), m, old(fates))
              else Do(Call(old(View()), Committed(old(View()), m.name), Head(old(fates))), old(fates))
    {
      if m.Bare? {
        reply := Settle(Call(View(), Committed(View(), m.name), Head(fates)));
        return;
      }
      reply := Settle(CreateIndex(View(), m, Head(fates)));
      if reply != Duplicate {
        return;
      }
      var valid := m.index in indexes && indexes[m.index] == Valid;
      reply := Settle(Call(View(), View(), Head(fates)));
      if reply != Done || valid {
        return;
      }
      reply := Settle(DropIndex(View(), m.index, Head(fates)));
      if reply != Done {
        return;
      }
      reply := Settle(CreateIndex(View(), m, Head(fates)));
    }

    /** Transactional SQL and its ledger row go in one call; anything else is recorded by a second one. */
    method ApplyAndRecord(m: Migration) returns (reply: Reply)
      modifies this
      ensures Run(View(), fates, reply) == Apply(old(View()), m, old(fates))
    {
      if m.Plain? {
        reply := Settle(Call(View(), Recorded(Committed(View(), m.name), m.name), Head(fates)));
        return;
      }
      reply := ApplyMigration(m);
      if reply != Done {
        return;
      }
      reply := Settle(Call(View(), Recorded(View(), m.name), Head(fates)));
    }

    method CheckBaseline() returns (reply: Reply)
      modifies this
      ensures View() == old(View()) && fates == Tail(old(fates))
      ensures reply == if Call(old(View()), old(View()), Head(old(fates))).1 == Done
              && PreBaseline(old(View())) then Error
                       else Call(old(View()), old(View()), Head(old(fates))).1
    {
      var pre := PreBaseline(View());
      reply := Settle(Call(View(), View(), Head(fates)));
      if reply == Done && pre {
        reply := Error;
      }
    }

    method ApplyUnlessRecorded(m: Migration) returns (reply: Reply)
      modifies this
      ensures Run(View(), fates, reply) == ApplyOne(old(View()), m, old(fates))
    {
      var already := m.name in ledger;
      reply := Settle(Call(View(), View(), Head(fates)));
      if reply != Done || already {
        return;
      }
      reply := ApplyAndRecord(m);
    }

    /** Files arrive sorted by name. */
    method RunAll(files: seq<Migration>) returns (reply: Reply)
      modifies this
      ensures Run(View(), fates, reply) == RunMigrations(old(View()), files, old(fates))
    {
      reply := Settle(Call(View(), View(), Head(fates)));
      if reply != Done {
        return;
      }
      reply := CheckBaseline();
      if reply != Done {
        return;
      }
      ghost var begun, left := View(), fates;
      var i := 0;
      assert files[0..] == files;
      while i < |files|
        invariant 0 <= i <= |files| && reply == Done
        invariant ApplyAll(View(), files[i..], fates) == ApplyAll(begun, files, left)
      {
        assert files[i..][0] == files[i] && files[i..][1..] == files[i + 1..];
        reply := ApplyUnlessRecorded(files[i]);
        if reply != Done {
          return;
        }
        i := i + 1;
      }
      assert files[i..] == [];
    }
  }
}
