/** The row-level meaning of the peewee query expressions the application uses:
    `select().where(cond)`, `.limit(n)` and `.get()`, over a table held as the
    sequence of its rows in insertion order. `.exists()` is `Where(..) != []`
    and `.count()` is `|Where(..)|`. */
module Query {

  datatype Option<T> = None | Some(value: T)

  /** No row occurs twice. */
  predicate Distinct<T(==)>(rows: seq<T>) {
    forall i, j :: 0 <= i < j < |rows| ==> rows[i] != rows[j]
  }

  /** `select().where(cond)`: the rows that satisfy `cond`, in table order. */
  function Where<T>(rows: seq<T>, cond: T -> bool): (r: seq<T>)
    ensures |r| <= |rows|
    ensures forall x :: x in r ==> x in rows && cond(x)
    ensures forall x :: x in rows && cond(x) ==> x in r
    ensures Distinct(rows) ==> Distinct(r)
  {
    if rows == [] then []
    else
      var rest := Where(rows[1..], cond);
      if cond(rows[0]) then
        assert Distinct(rows) ==> rows[0] !in rows[1..];
        [rows[0]] + rest
      else rest
  }

  /** `.limit(n)`: at most `n` of the selected rows, all of them when they fit.
      Which rows survive the cut is not promised; the model keeps a prefix. */
  function Limit<T>(rows: seq<T>, n: nat): (r: seq<T>)
    ensures |r| <= n
    ensures forall x :: x in r ==> x in rows
    ensures |rows| <= n ==> r == rows
    ensures |rows| > n ==> |r| == n
    ensures Distinct(rows) ==> Distinct(r)
  {
    if |rows| <= n then rows else rows[..n]
  }

  /** `.get()`: one row of the selection, or `None` where peewee raises
      `DoesNotExist` because the selection is empty. */
  function Get<T>(rows: seq<T>): (r: Option<T>)
    ensures r.None? <==> rows == []
    ensures r.Some? ==> r.value in rows
  {
    if rows == [] then None else Some(rows[0])
  }

  /** A selection that no row satisfies is empty. */
  lemma {:induction false} WhereNone<T>(rows: seq<T>, cond: T -> bool)
    requires forall i :: 0 <= i < |rows| ==> !cond(rows[i])
    ensures Where(rows, cond) == []
  {
    if rows != [] {
      WhereNone(rows[1..], cond);
    }
  }

  /** A selection that exactly one row satisfies is that row alone. */
  lemma {:induction false} WhereSingle<T>(rows: seq<T>, cond: T -> bool, k: nat)
    requires k < |rows| && cond(rows[k])
    requires forall i :: 0 <= i < |rows| && i != k ==> !cond(rows[i])
    ensures Where(rows, cond) == [rows[k]]
  {
    if k == 0 {
      WhereNone(rows[1..], cond);
    } else {
      WhereSingle(rows[1..], cond, k - 1);
    }
  }
}
