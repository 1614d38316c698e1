/** A dimension table with a natural-key unique constraint, in memory: each
    natural key maps to its row, made of a surrogate key and the descriptive
    attributes. New rows take their surrogate key from a counter, standing
    for the table's serial column. `Upsert` is one
    `INSERT ... ON CONFLICT (natural key) DO UPDATE SET <attributes>`. */
module Tables {

  datatype Row<A> = Row(sk: nat, attrs: A)

  datatype Table<K, A> = Table(rows: map<K, Row<A>>, nextSk: nat)

  /** Surrogate keys are issued below the counter and never shared. */
  ghost predicate Valid<K, A>(t: Table<K, A>) {
    && (forall k :: k in t.rows ==> t.rows[k].sk < t.nextSk)
    && (forall k, j :: k in t.rows && j in t.rows && k != j ==> t.rows[k].sk != t.rows[j].sk)
  }

  function Empty<K, A>(): (t: Table<K, A>)
    ensures Valid(t) && t.rows == map[]
  {
    Table(map[], 0)
  }

  /** Insert a new row for `k`, or overwrite the attributes of its existing
      row and keep that row's surrogate key. */
  function Upsert<K, A>(t: Table<K, A>, k: K, a: A): (r: Table<K, A>)
    ensures r.rows.Keys == t.rows.Keys + {k}
    ensures r.rows[k].attrs == a
    ensures k in t.rows ==> r.rows[k].sk == t.rows[k].sk && r.nextSk == t.nextSk
    ensures forall j :: j in t.rows && j != k ==> r.rows[j] == t.rows[j]
    ensures Valid(t) ==> Valid(r)
  {
    if k in t.rows then Table(t.rows[k := Row(t.rows[k].sk, a)], t.nextSk)
    else Table(t.rows[k := Row(t.nextSk, a)], t.nextSk + 1)
  }

  /** The natural keys of a list of source rows. */
  function KeysOf<K, A>(src: seq<(K, A)>): set<K> {
    set i | 0 <= i < |src| :: src[i].0
  }

  lemma KeysOfSnoc<K, A>(src: seq<(K, A)>)
    requires |src| > 0
    ensures KeysOf(src) == KeysOf(src[..|src| - 1]) + {src[|src| - 1].0}
  {
    var p := src[..|src| - 1];
    forall k | k in KeysOf(src)
      ensures k in KeysOf(p) + {src[|src| - 1].0}
    {
      var i :| 0 <= i < |src| && src[i].0 == k;
      if i < |src| - 1 {
        assert p[i].0 == k;
      }
    }
    forall k | k in KeysOf(p)
      ensures k in KeysOf(src)
    {
      var i :| 0 <= i < |p| && p[i].0 == k;
      assert src[i].0 == k;
    }
  }

  /** The attributes of the last source row for `k`. */
  function LastFor<K(==), A(==)>(src: seq<(K, A)>, k: K): (a: A)
    requires k in KeysOf(src)
    ensures exists i :: 0 <= i < |src| && src[i] == (k, a) && forall j :: i < j < |src| ==> src[j].0 != k
  {
    KeysOfSnoc(src);
    var p := src[..|src| - 1];
    if src[|src| - 1].0 == k then src[|src| - 1].1
    else
      assert forall i :: 0 <= i < |p| ==> src[i] == p[i];
      LastFor(p, k)
  }

  /** The loop `for row in rows: cursor.execute(upsert, row)`. */
  function UpsertAll<K(==), A(==)>(t: Table<K, A>, src: seq<(K, A)>): (r: Table<K, A>)
    ensures r.rows.Keys == t.rows.Keys + KeysOf(src)
    ensures forall k :: k in KeysOf(src) ==> r.rows[k].attrs == LastFor(src, k)
    ensures forall k :: k in t.rows && k !in KeysOf(src) ==> r.rows[k] == t.rows[k]
    ensures forall k :: k in t.rows ==> r.rows[k].sk == t.rows[k].sk
    ensures KeysOf(src) <= t.rows.Keys ==> r.nextSk == t.nextSk
    ensures Valid(t) ==> Valid(r)
  {
    if |src| == 0 then t
    else
      KeysOfSnoc(src);
      var last := src[|src| - 1];
      Upsert(UpsertAll(t, src[..|src| - 1]), last.0, last.1)
  }

  /** Re-running a load on unchanged source leaves the table unchanged. */
  lemma UpsertAllIdempotent<K, A>(t: Table<K, A>, src: seq<(K, A)>)
    ensures UpsertAll(UpsertAll(t, src), src) == UpsertAll(t, src)
  {
    var u := UpsertAll(t, src);
    var v := UpsertAll(u, src);
    forall k | k in v.rows
      ensures v.rows[k] == u.rows[k]
    {
      if k in KeysOf(src) {
        assert v.rows[k].attrs == u.rows[k].attrs;
        assert v.rows[k].sk == u.rows[k].sk;
      }
    }
    assert v.rows == u.rows;
  }

  /** When all source rows for a key agree on its attributes, the table holds
      exactly those attributes, whatever order the rows came in. */
  lemma AgreeingRowsDecide<K, A>(t: Table<K, A>, src: seq<(K, A)>, k: K, a: A)
    requires k in KeysOf(src)
    requires forall i :: 0 <= i < |src| && src[i].0 == k ==> src[i].1 == a
    ensures UpsertAll(t, src).rows[k].attrs == a
  {
    var b := LastFor(src, k);
    var i :| 0 <= i < |src| && src[i] == (k, b) && forall j :: i < j < |src| ==> src[j].0 != k;
  }
}
