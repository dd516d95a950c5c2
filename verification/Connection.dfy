/** The store's one database connection and its transactions. */
module Connection {
  import opened Wrappers
  import opened Tree
  import opened StoreModel

  // The connection: `db` holds the open transaction, `committed` what a rollback returns to.
  class Store {
    var db: Db
    var committed: Db

    constructor (initial: Db)
      ensures db == committed == initial
    {
      db, committed := initial, initial;
    }

    method Commit()
      modifies this`committed
      ensures committed == db
    {
      committed := db;
    }

    method Rollback()
      modifies this`db
      ensures db == committed
    {
      db := committed;
    }

    method CapturePath(op: Op, p: Path)
      modifies this`db
      ensures db == Capture(old(db), op, p)
    {
      db := Capture(db, op, p);
    }

    method Stage(op: Op, p: Path, row: Option<Node>) returns (ok: bool)
      modifies this`db
      ensures ok == !StageRefused(old(db), op, p, row)
      ensures db == if ok then StageRow(old(db), op, p, row) else old(db)
    {
      ok := !StageRefused(db, op, p, row);
      if ok { db := StageRow(db, op, p, row); }
    }
  }
}
