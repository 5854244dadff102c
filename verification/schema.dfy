/** The rows shared by several controllers and the soft-delete discipline
    that every table with an `is_deleted` column follows. */
module Schema {
  import opened Common

  /** A row of `damteul_users` (the columns the modelled handlers touch). */
  datatype User = User(
    name: string,
    nickname: string,
    phone: string,
    address: string,
    status: int,
    levelCode: int,
    reportedCount: Option<int>)

  /** A row of a table that is soft-deleted: its own columns and the
      `is_deleted` flag. */
  datatype Row<T> = Row(data: T, isDeleted: int)

  /** A table keyed by its primary key. */
  type Table<T> = map<int, Row<T>>

  /** The rows a list query shows: those with `is_deleted = 0`. */
  function LiveIds<T>(t: Table<T>): (r: set<int>)
    ensures forall id :: id in r <==> id in t && t[id].isDeleted == 0
  {
    set id | id in t && t[id].isDeleted == 0
  }

  /** The keys of `s` in `[0, n)`, largest first: `ORDER BY pk DESC` over
      the rows of an AUTO_INCREMENT table whose counter is at `n`. */
  function KeysDescBelow(s: set<int>, n: int): (r: seq<int>)
    ensures forall x :: x in r <==> x in s && 0 <= x < n
    ensures forall i, j :: 0 <= i < j < |r| ==> r[i] > r[j]
    decreases n
  {
    if n <= 0 then []
    else
      var rest := KeysDescBelow(s, n - 1);
      forall j | 0 <= j < |rest| ensures rest[j] < n - 1 {
        assert rest[j] in rest;
      }
      (if n - 1 in s then [n - 1] else []) + rest
  }

  /** `UPDATE t SET is_deleted = 1 WHERE pk = ? AND is_deleted = 0 [AND extra]`
      followed by `affectedRows === 0 ? 404 : 200`.  Only a live row that
      satisfies `extra` is flagged; no other column and no other row
      changes. */
  function GuardedSoftDelete<T>(t: Table<T>, id: int, extra: T -> bool): (r: (Table<T>, int))
    ensures var hit := id in t && t[id].isDeleted == 0 && extra(t[id].data);
            && (r.1 == OK <==> hit)
            && (r.1 == NOT_FOUND <==> !hit)
            && (hit ==> r.0 == t[id := Row(t[id].data, 1)])
            && (!hit ==> r.0 == t)
    ensures r.0.Keys == t.Keys
    ensures forall k :: k in t ==> r.0[k].data == t[k].data
    ensures forall k :: k in t && k != id ==> r.0[k] == t[k]
  {
    if id in t && t[id].isDeleted == 0 && extra(t[id].data) then
      (t[id := Row(t[id].data, 1)], OK)
    else
      (t, NOT_FOUND)
  }

  /** `UPDATE t SET is_deleted = 1 WHERE pk = ?` followed by
      `affectedRows > 0 ? 200 : 404`: the flag is set whether or not the row
      was already deleted, and the answer is 404 only when no row has that
      key. */
  function UnguardedSoftDelete<T>(t: Table<T>, id: int): (r: (Table<T>, int))
    ensures r.1 == (if id in t then OK else NOT_FOUND)
    ensures id in t ==> r.0 == t[id := Row(t[id].data, 1)]
    ensures id !in t ==> r.0 == t
    ensures r.0.Keys == t.Keys
    ensures forall k :: k in t ==> r.0[k].data == t[k].data
  {
    if id in t then (t[id := Row(t[id].data, 1)], OK) else (t, NOT_FOUND)
  }

  function Always<T>(): T -> bool
  {
    (x: T) => true
  }

  /** A guarded soft delete that succeeded answers 404 when repeated and
      leaves the table as the first call left it; the row then no longer
      shows in list queries. */
  lemma SecondDeleteIsNotFound<T>(t: Table<T>, id: int, extra: T -> bool)
    requires GuardedSoftDelete(t, id, extra).1 == OK
    ensures var t1 := GuardedSoftDelete(t, id, extra).0;
            && GuardedSoftDelete(t1, id, extra) == (t1, NOT_FOUND)
            && id !in LiveIds(t1)
            && LiveIds(t1) == LiveIds(t) - {id}
  {
  }

  /** The unguarded soft delete answers 200 every time for an existing row:
      repeating it is not reported. */
  lemma UnguardedRepeatSucceeds<T>(t: Table<T>, id: int)
    requires id in t
    ensures var t1 := UnguardedSoftDelete(t, id).0;
            UnguardedSoftDelete(t1, id) == (t1, OK)
  {
    var t1 := UnguardedSoftDelete(t, id).0;
    assert t1[id := Row(t1[id].data, 1)] == t1;
  }
}
