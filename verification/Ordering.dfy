/** Sorting rows by a total order, as `list.sort` does. */
module Ordering {
  ghost predicate Total<T(!new)>(le: (T, T) -> bool) {
    && (forall x, y :: le(x, y) || le(y, x))
    && (forall x, y, z :: le(x, y) && le(y, z) ==> le(x, z))
  }

  ghost predicate Sorted<T>(rows: seq<T>, le: (T, T) -> bool) {
    forall i, j | 0 <= i < j < |rows| :: le(rows[i], rows[j])
  }

  function Insert<T>(x: T, rows: seq<T>, le: (T, T) -> bool): seq<T> {
    if rows == [] || le(x, rows[0]) then [x] + rows else [rows[0]] + Insert(x, rows[1..], le)
  }

  function Sort<T>(rows: seq<T>, le: (T, T) -> bool): seq<T> {
    if rows == [] then [] else Insert(rows[0], Sort(rows[1..], le), le)
  }

  lemma {:induction false} InsertKeeps<T(!new)>(x: T, rows: seq<T>, le: (T, T) -> bool)
    requires Total(le) && Sorted(rows, le)
    ensures Sorted(Insert(x, rows, le), le)
    ensures multiset(Insert(x, rows, le)) == multiset(rows) + multiset{x}
  {
    if rows == [] || le(x, rows[0]) {
      forall j | 0 <= j < |rows| ensures le(x, rows[j]) {
        if j > 0 {
          assert le(rows[0], rows[j]);
        }
      }
    } else {
      InsertKeeps(x, rows[1..], le);
      var rest := Insert(x, rows[1..], le);
      assert rows == [rows[0]] + rows[1..];
      forall j | 0 <= j < |rest| ensures le(rows[0], rest[j]) {
        FromEither(rest, rows[1..], x, j);
        if rest[j] != x {
          var k :| 0 <= k < |rows[1..]| && rows[1..][k] == rest[j];
          assert le(rows[0], rows[k + 1]);
        }
      }
    }
  }

  lemma FromEither<T>(all: seq<T>, rows: seq<T>, x: T, j: nat)
    requires multiset(all) == multiset(rows) + multiset{x} && j < |all|
    ensures all[j] == x || all[j] in rows
  {
    assert all[j] in multiset(all);
  }

  lemma {:induction false} SortSorts<T(!new)>(rows: seq<T>, le: (T, T) -> bool)
    requires Total(le)
    ensures Sorted(Sort(rows, le), le)
    ensures multiset(Sort(rows, le)) == multiset(rows)
  {
    if rows != [] {
      SortSorts(rows[1..], le);
      InsertKeeps(rows[0], Sort(rows[1..], le), le);
      assert rows == [rows[0]] + rows[1..];
    }
  }

  /** Code-point order on strings. */
  predicate TextLe(a: string, b: string) {
    a == "" || (b != "" && (a[0] < b[0] || (a[0] == b[0] && TextLe(a[1..], b[1..]))))
  }

  lemma {:induction false} TextLeTotal(a: string, b: string)
    ensures TextLe(a, b) || TextLe(b, a)
  {
    if a != "" && b != "" && a[0] == b[0] {
      TextLeTotal(a[1..], b[1..]);
    }
  }

  lemma {:induction false} TextLeTransitive(a: string, b: string, c: string)
    requires TextLe(a, b) && TextLe(b, c)
    ensures TextLe(a, c)
  {
    if a != "" && a[0] == b[0] && b[0] == c[0] {
      TextLeTransitive(a[1..], b[1..], c[1..]);
    }
  }

  lemma {:induction false} TextLeAntisymmetric(a: string, b: string)
    requires TextLe(a, b) && TextLe(b, a)
    ensures a == b
  {
    if a != "" {
      TextLeAntisymmetric(a[1..], b[1..]);
      assert a == [a[0]] + a[1..] && b == [b[0]] + b[1..];
    }
  }
}

/** Loops that append one row for each key that has one. */
module Collecting {
  import opened Options
  import opened Json

  function Collect<K, R>(keys: seq<K>, row: K -> Option<R>): seq<R> {
    if keys == [] then []
    else
      var last := row(keys[|keys| - 1]);
      Collect(keys[..|keys| - 1], row) + if last.Some? then [last.value] else []
  }

  ghost function CollectSet<K, R>(keys: seq<K>, row: K -> Option<R>): set<R> {
    if keys == [] then {}
    else
      var last := row(keys[|keys| - 1]);
      CollectSet(keys[..|keys| - 1], row) + if last.Some? then {last.value} else {}
  }

  lemma CollectNext<K, R>(keys: seq<K>, i: nat, row: K -> Option<R>)
    requires i < |keys|
    ensures Collect(keys[..i + 1], row) == Collect(keys[..i], row) + if row(keys[i]).Some? then [row(keys[i]).value]
            else []
  {
    assert keys[..i + 1][..i] == keys[..i];
  }

  lemma {:induction false} CollectSetHas<K, R>(keys: seq<K>, row: K -> Option<R>, r: R) returns (key: K)
    requires r in CollectSet(keys, row)
    ensures key in keys && row(key) == Some(r)
  {
    var front := keys[..|keys| - 1];
    key := keys[|keys| - 1];
    if row(key) != Some(r) {
      key := CollectSetHas(front, row, r);
    }
  }

  lemma {:induction false} CollectSetGets<K, R>(keys: seq<K>, row: K -> Option<R>, key: K)
    requires key in keys && row(key).Some?
    ensures row(key).value in CollectSet(keys, row)
  {
    if key != keys[|keys| - 1] {
      assert key in keys[..|keys| - 1];
      CollectSetGets(keys[..|keys| - 1], row, key);
    }
  }

  /** With distinct keys and a row per key of its own, every row appears once. */
  lemma {:induction false} CollectOnce<K(!new), R(!new)>(keys: seq<K>, row: K -> Option<R>)
    requires forall i, j | 0 <= i < j < |keys| :: keys[i] != keys[j]
    requires forall a, b :: row(a).Some? && row(a) == row(b) ==> a == b
    ensures multiset(Collect(keys, row)) == multiset(CollectSet(keys, row))
  {
    if keys != [] {
      var front, key := keys[..|keys| - 1], keys[|keys| - 1];
      CollectOnce(front, row);
      if row(key).Some? {
        var r := row(key).value;
        if r in CollectSet(front, row) {
          var other := CollectSetHas(front, row, r);
          assert false;
        }
      }
    }
  }
}
