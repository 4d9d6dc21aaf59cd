/** The table behind the cache, reached through one connection. */
module Database {
  import opened Wrappers
  import opened Messages
  import opened Columns
  import opened CacheModel

  class Connection {
    const sc: Schema
    var table: Table

    constructor (sc: Schema, table: Table)
      ensures this.sc == sc && this.table == table
    {
      this.sc := sc;
      this.table := table;
    }

    /** The select handler's answer: an empty message when there is no row, nothing when a column of the row
        cannot be read. */
    method Select(k: Key) returns (m: Option<Message>)
      ensures m == DbSelect(sc, table, k)
    {
      m := DbSelect(sc, table, k);
    }

    /** The query handler's answer. */
    method Query(name: string, p: Line -> bool) returns (rows: Option<map<Key, Message>>)
      ensures rows == DbQuery(sc, table, name, p)
    {
      rows := DbQuery(sc, table, name, p);
    }

    /** The update handler's insert-or-update statement. A row that it finds counts as affected. */
    method Update(m: Message) returns (code: nat)
      requires PrimaryId(sc, m).Some?
      modifies this
      ensures code == UpdateCode(sc, m)
      ensures table == DbUpdate(sc, old(table), RowKey(sc, m), m)
    {
      code := UpdateCode(sc, m);
      table := DbUpdate(sc, table, RowKey(sc, m), m);
    }

    method Insert(m: Message) returns (code: nat)
      requires PrimaryId(sc, m).Some?
      modifies this
      ensures code == InsertCode(sc, old(table), m)
      ensures table == DbInsert(sc, old(table), RowKey(sc, m), m)
    {
      code := InsertCode(sc, table, m);
      table := DbInsert(sc, table, RowKey(sc, m), m);
    }

    method Delete(k: Key)
      modifies this
      ensures table == old(table) - {k}
    {
      table := table - {k};
    }
  }

  const RC_OK: nat := 0
  const RC_PROTO_ERROR: nat := 2
  const RC_MYSQL_ERROR: nat := 3

  function UpdateCode(sc: Schema, m: Message): nat {
    if !Storable(sc, m) then RC_PROTO_ERROR else if m.fields == map[] then RC_MYSQL_ERROR else RC_OK
  }

  function InsertCode(sc: Schema, table: Table, m: Message): nat
    requires PrimaryId(sc, m).Some?
  {
    if !Storable(sc, m) then RC_PROTO_ERROR else if RowKey(sc, m) in table then RC_MYSQL_ERROR else RC_OK
  }
}
