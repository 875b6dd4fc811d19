/** The persistence engine's side of a table: rows keyed by their generated id.
    A query such as `findAll` or `findByAvailability` hands back the matching
    rows as a list in an order the database chooses; the model lists them in an
    arbitrary order, each exactly once. */
module Repository {

  /** The rows of `rows` that satisfy `keep`. */
  ghost function Where<T>(rows: map<int, T>, keep: T -> bool): set<T>
  {
    set id | id in rows && keep(rows[id]) :: rows[id]
  }

  /** `list` holds every element of `s` exactly once, and nothing else. */
  ghost predicate Lists<T>(list: seq<T>, s: set<T>)
  {
    && (forall i, j :: 0 <= i < j < |list| ==> list[i] != list[j])
    && (forall i :: 0 <= i < |list| ==> list[i] in s)
    && (forall x :: x in s ==> x in list)
  }

  /** Nothing matches exactly when no row satisfies the condition. */
  lemma WhereEmpty<T>(rows: map<int, T>, keep: T -> bool)
    ensures Where(rows, keep) == {} <==> forall id :: id in rows ==> !keep(rows[id])
  {
    if exists id :: id in rows && keep(rows[id]) {
      var id :| id in rows && keep(rows[id]);
      assert rows[id] in Where(rows, keep);
    }
  }

  /** Every row of the table. */
  ghost function Stored<T>(rows: map<int, T>): set<T>
  {
    set id | id in rows :: rows[id]
  }

  /** A condition every row meets selects the whole table. */
  lemma WhereAll<T>(rows: map<int, T>, keep: T -> bool)
    requires forall x :: keep(x)
    ensures Where(rows, keep) == Stored(rows)
  {
  }

  /** The table is empty exactly when it holds no row. */
  lemma StoredEmpty<T>(rows: map<int, T>)
    ensures Stored(rows) == {} <==> rows == map[]
  {
    if rows != map[] {
      var id := PickKey(rows);
      assert rows[id] in Stored(rows);
    }
  }

  /** Some key of a non-empty table. */
  lemma PickKey<T>(rows: map<int, T>) returns (id: int)
    requires rows != map[]
    ensures id in rows
  {
    EmptyOrHasMember(rows.Keys);
    assert rows.Keys != {};
    id :| id in rows.Keys;
  }

  /** A listing is empty exactly when there is nothing to list. */
  lemma ListsEmpty<T>(list: seq<T>, s: set<T>)
    requires Lists(list, s)
    ensures list == [] <==> s == {}
  {
    if list != [] {
      assert list[0] in s;
    }
    if s != {} {
      var x :| x in s;
      assert x in list;
    }
  }

  /** No two ids hold the same row; true of a table whose rows carry their own id. */
  ghost predicate Distinct<T>(rows: map<int, T>)
  {
    forall a, b :: a in rows && b in rows && rows[a] == rows[b] ==> a == b
  }

  /** A set of ids is either empty or has a member one can pick. */
  lemma EmptyOrHasMember(s: set<int>)
    ensures s == {} || exists x :: x in s
  {
    if forall x :: x !in s {
      assert s == {};
    }
  }

  /** The query: every row satisfying `keep`, each once, in some order. */
  method Select<T>(rows: map<int, T>, keep: T -> bool) returns (list: seq<T>)
    requires Distinct(rows)
    ensures Lists(list, Where(rows, keep))
  {
    var remaining := rows.Keys;
    ghost var ids: seq<int> := [];
    list := [];
    while remaining != {}
      invariant remaining <= rows.Keys
      invariant |ids| == |list|
      invariant forall i :: 0 <= i < |ids| ==> ids[i] in rows && ids[i] !in remaining && list[i] == rows[ids[i]]
      invariant forall i, j :: 0 <= i < j < |ids| ==> ids[i] != ids[j]
      invariant forall i :: 0 <= i < |list| ==> keep(list[i])
      invariant forall id :: id in rows.Keys - remaining && keep(rows[id]) ==> id in ids
      decreases remaining
    {
      EmptyOrHasMember(remaining);
      var id :| id in remaining;
      var row := rows[id];
      remaining := remaining - {id};
      if keep(row) {
        list := list + [row];
        ids := ids + [id];
      }
    }
    forall x | x in Where(rows, keep) ensures x in list {
      var id :| id in rows && keep(rows[id]) && rows[id] == x;
      var i :| 0 <= i < |ids| && ids[i] == id;
      assert list[i] == x;
    }
  }
}
