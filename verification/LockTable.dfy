/** The process-wide table of per-vault thread locks: a reference count per key,
    so that an entry lives exactly as long as somebody uses it. */
module LockTable {

  type LockId = nat

  datatype Entry = Entry(lock: LockId, users: nat)

  /** The table after one borrow of `key`; `newLock` names the lock object a first borrower creates. */
  function Borrowed<K>(table: map<K, Entry>, key: K, newLock: LockId): map<K, Entry> {
    if key in table
    then table[key := Entry(table[key].lock, table[key].users + 1)]
    else table[key := Entry(newLock, 1)]
  }

  /** The table after `lock` is handed back for `key`. A lock that is not the current one is ignored. */
  function Returned<K>(table: map<K, Entry>, key: K, lock: LockId): map<K, Entry> {
    if key !in table || table[key].lock != lock then table
    else if table[key].users <= 1 then table - {key}
    else table[key := Entry(lock, table[key].users - 1)]
  }

  /** Handing back what was just borrowed leaves the table as it was, unless a zero count was parked there. */
  lemma BorrowThenReturn<K>(table: map<K, Entry>, key: K, newLock: LockId)
    requires key in table ==> table[key].users > 0
    ensures Returned(Borrowed(table, key, newLock), key, Borrowed(table, key, newLock)[key].lock) == table
  {
    var borrowed := Borrowed(table, key, newLock);
    if key !in table {
      assert borrowed - {key} == table;
    } else {
      assert Returned(borrowed, key, table[key].lock) == borrowed[key := table[key]];
    }
  }

  class ThreadLocks {
    var table: map<string, Entry>
    var created: nat

    ghost predicate Valid()
      reads this
    {
      && (forall key | key in table :: table[key].users > 0 && table[key].lock < created)
      && (forall a, b | a in table && b in table && table[a].lock == table[b].lock :: a == b)
    }

    constructor ()
      ensures Valid() && table == map[] && created == 0
    {
      table, created := map[], 0;
    }

    /** Take one share in the lock of `key`, creating the lock for the first user. */
    method Borrow(key: string) returns (lock: LockId)
      requires Valid()
      modifies this
      ensures Valid()
      ensures table == Borrowed(old(table), key, old(created))
      ensures lock == table[key].lock
      ensures key in old(table) ==> lock == old(table)[key].lock && created == old(created)
      ensures key !in old(table) ==> lock == old(created) && created == old(created) + 1
    {
      if key !in table {
        lock := created;
        created := created + 1;
        table := table[key := Entry(lock, 1)];
        return;
      }
      var existing := table[key];
      lock := existing.lock;
      table := table[key := Entry(lock, existing.users + 1)];
    }

    /** Give one share back; the last user removes the entry. */
    method Return(key: string, lock: LockId)
      requires Valid()
      modifies this`table
      ensures Valid()
      ensures table == Returned(old(table), key, lock)
    {
      if key !in table || table[key].lock != lock {
        return;
      }
      if table[key].users <= 1 {
        table := table - {key};
      } else {
        table := table[key := Entry(lock, table[key].users - 1)];
      }
    }
  }
}
