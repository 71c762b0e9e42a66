/**
 * A table keyed by a text id, filled by "insert if absent": the semantics of
 * `INSERT OR IGNORE` into a table whose primary key is the id. A batch is a
 * sequence of input records applied in order; `key` gives a record's id and
 * `row` the row stored for it. When an id repeats inside one batch, the row
 * of its first record is the one kept.
 */
module KeyedTable {

  /** The ids a batch mentions. */
  function Keys<E>(batch: seq<E>, key: E -> string): (ks: set<string>)
    ensures forall i :: 0 <= i < |batch| ==> key(batch[i]) in ks
  {
    set i | 0 <= i < |batch| :: key(batch[i])
  }

  lemma KeysOfPrefix<E>(batch: seq<E>, key: E -> string)
    requires batch != []
    ensures Keys(batch, key) == Keys(batch[..|batch| - 1], key) + {key(batch[|batch| - 1])}
  {
    var p := batch[..|batch| - 1];
    forall k | k in Keys(batch, key) ensures k in Keys(p, key) || k == key(batch[|batch| - 1]) {
      var i :| 0 <= i < |batch| && key(batch[i]) == k;
      if i < |batch| - 1 { assert p[i] == batch[i]; }
    }
    forall k | k in Keys(p, key) ensures k in Keys(batch, key) {
      var i :| 0 <= i < |p| && key(p[i]) == k;
      assert batch[i] == p[i];
    }
  }

  /** One `INSERT OR IGNORE`: the row is stored only when its id is absent. */
  function InsertIfAbsent<R>(table: map<string, R>, id: string, row: R): (r: map<string, R>)
    ensures r.Keys == table.Keys + {id}
    ensures forall k :: k in table ==> r[k] == table[k]
    ensures id !in table ==> r[id] == row
  {
    if id in table then table else table[id := row]
  }

  /** A whole batch of `INSERT OR IGNORE`s, in order. Existing rows are never
      overwritten and every id of the batch is present afterwards. */
  function InsertAll<E, R>(table: map<string, R>, batch: seq<E>, key: E -> string, row: E -> R): (r: map<string, R>)
    ensures r.Keys == table.Keys + Keys(batch, key)
    ensures forall k :: k in table ==> r[k] == table[k]
    decreases |batch|
  {
    if batch == [] then table
    else
      var last := batch[|batch| - 1];
      KeysOfPrefix(batch, key);
      InsertIfAbsent(InsertAll(table, batch[..|batch| - 1], key, row), key(last), row(last))
  }

  /** The number of records whose id is not in `snapshot`; an id repeated in
      the batch is counted once per occurrence. */
  function CountAbsent<E>(snapshot: set<string>, batch: seq<E>, key: E -> string): (n: nat)
    ensures n <= |batch|
    ensures n == 0 <==> Keys(batch, key) <= snapshot
    decreases |batch|
  {
    if batch == [] then 0
    else
      var last := batch[|batch| - 1];
      KeysOfPrefix(batch, key);
      CountAbsent(snapshot, batch[..|batch| - 1], key) + if key(last) in snapshot then 0 else 1
  }

  /** The position of the first record with id `k`. */
  function FirstIndex<E>(batch: seq<E>, key: E -> string, k: string): (j: nat)
    requires k in Keys(batch, key)
    ensures j < |batch| && key(batch[j]) == k
    ensures forall i :: 0 <= i < j ==> key(batch[i]) != k
  {
    if key(batch[0]) == k then 0
    else
      assert k in Keys(batch[1..], key) by {
        var i :| 0 <= i < |batch| && key(batch[i]) == k;
        assert batch[1..][i - 1] == batch[i];
      }
      1 + FirstIndex(batch[1..], key, k)
  }

  /** A new id takes the row of its FIRST record in the batch, the record `j`
      that no earlier record shares its id with. */
  lemma {:induction false} InsertAllFirstWins<E, R>(table: map<string, R>, batch: seq<E>, key: E -> string,
                                                   row: E -> R, k: string, j: nat)
    requires k !in table && j < |batch| && key(batch[j]) == k
    requires forall i :: 0 <= i < j ==> key(batch[i]) != k
    ensures k in InsertAll(table, batch, key, row) && InsertAll(table, batch, key, row)[k] == row(batch[j])
    decreases |batch|
  {
    var n := |batch|;
    var p := batch[..n - 1];
    var last := batch[n - 1];
    assert InsertAll(table, batch, key, row) == InsertIfAbsent(InsertAll(table, p, key, row), key(last), row(last));
    if j == n - 1 {
      assert k !in Keys(p, key) by {
        forall i | 0 <= i < |p| ensures key(p[i]) != k {
          assert p[i] == batch[i];
        }
      }
    } else {
      forall i | 0 <= i < j ensures key(p[i]) != k {
        assert p[i] == batch[i];
      }
      assert p[j] == batch[j];
      InsertAllFirstWins(table, p, key, row, k, j);
    }
  }

  /** Extending a batch by its next record is one more `INSERT OR IGNORE`,
      counted when that record's id is absent from the snapshot. */
  lemma InsertAllStep<E, R>(table: map<string, R>, snapshot: set<string>, batch: seq<E>,
                            key: E -> string, row: E -> R, i: nat)
    requires i < |batch|
    ensures InsertAll(table, batch[..i + 1], key, row)
         == InsertIfAbsent(InsertAll(table, batch[..i], key, row), key(batch[i]), row(batch[i]))
    ensures CountAbsent(snapshot, batch[..i + 1], key)
         == CountAbsent(snapshot, batch[..i], key) + if key(batch[i]) in snapshot then 0 else 1
  {
    var q := batch[..i + 1];
    assert q[..i] == batch[..i];
    assert q[i] == batch[i];
  }

  /** A batch whose ids are all present already changes nothing. */
  lemma {:induction false} InsertAllPresent<E, R>(table: map<string, R>, batch: seq<E>, key: E -> string, row: E -> R)
    requires Keys(batch, key) <= table.Keys
    ensures InsertAll(table, batch, key, row) == table
    decreases |batch|
  {
    if batch != [] {
      KeysOfPrefix(batch, key);
      InsertAllPresent(table, batch[..|batch| - 1], key, row);
    }
  }

  /** Running the same batch twice is running it once, and the second run
      counts no new record. */
  lemma InsertAllIdempotent<E, R>(table: map<string, R>, batch: seq<E>, key: E -> string, row: E -> R)
    ensures InsertAll(InsertAll(table, batch, key, row), batch, key, row) == InsertAll(table, batch, key, row)
    ensures CountAbsent(InsertAll(table, batch, key, row).Keys, batch, key) == 0
  {
    InsertAllPresent(InsertAll(table, batch, key, row), batch, key, row);
  }

  /** Ids that are distinct within the batch. */
  predicate DistinctKeys<E>(batch: seq<E>, key: E -> string) {
    forall i, j :: 0 <= i < j < |batch| ==> key(batch[i]) != key(batch[j])
  }

  /** Dropping the last record keeps the ids distinct, and the last id is not
      among the others. */
  lemma DistinctPrefix<E>(batch: seq<E>, key: E -> string)
    requires batch != [] && DistinctKeys(batch, key)
    ensures DistinctKeys(batch[..|batch| - 1], key)
    ensures key(batch[|batch| - 1]) !in Keys(batch[..|batch| - 1], key)
  {
    var p := batch[..|batch| - 1];
    forall i, j | 0 <= i < j < |p| ensures key(p[i]) != key(p[j]) {
      assert p[i] == batch[i] && p[j] == batch[j];
    }
    forall i | 0 <= i < |p| ensures key(p[i]) != key(batch[|batch| - 1]) {
      assert p[i] == batch[i];
    }
  }

  /** With distinct ids, the count is exactly the number of rows added. */
  lemma {:induction false} InsertAllSize<E, R>(table: map<string, R>, batch: seq<E>, key: E -> string, row: E -> R)
    requires DistinctKeys(batch, key)
    ensures |InsertAll(table, batch, key, row)| == |table| + CountAbsent(table.Keys, batch, key)
    decreases |batch|
  {
    if batch != [] {
      var p := batch[..|batch| - 1];
      var last := batch[|batch| - 1];
      DistinctPrefix(batch, key);
      InsertAllSize(table, p, key, row);
      var prev := InsertAll(table, p, key, row);
      if key(last) !in table {
        assert key(last) !in prev;
        assert |prev[key(last) := row(last)]| == |prev| + 1;
      }
    }
  }
}
