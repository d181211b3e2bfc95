/** The in-memory stand-in for a Spring Data JPA repository: a table of rows in
    store order together with the next id its generator hands out, the derived
    queries (findByName, findByEmail, ...) as "first row whose key is k", and
    `save` as an update-or-insert keyed by id. */
module Tables {
  import opened Common

  /** A repository's table: the rows findAll returns, in store order, and the
      id the store generates for the next inserted row. */
  datatype Table<T> = Table(rows: seq<T>, nextId: int)

  /** Position of the first row whose key is k. */
  function FirstIndex<T, K(==)>(rows: seq<T>, key: T -> K, k: K): (r: Option<nat>)
    ensures r.Some? ==> r.value < |rows| && key(rows[r.value]) == k
    ensures r.Some? ==> forall j :: 0 <= j < r.value ==> key(rows[j]) != k
    ensures r.None? ==> forall j :: 0 <= j < |rows| ==> key(rows[j]) != k
    decreases |rows|
  {
    if rows == [] then None
    else if key(rows[0]) == k then Some(0)
    else match FirstIndex(rows[1..], key, k)
      case None => None
      case Some(i) => Some(i + 1)
  }

  /** A derived query such as findByName or findById: the first stored row whose
      key is k, deleted or not, or null when there is none. */
  function FindFirst<T, K(==)>(rows: seq<T>, key: T -> K, k: K): (r: Option<T>)
    ensures r.Some? <==> exists j :: 0 <= j < |rows| && key(rows[j]) == k
    ensures r.Some? ==> r.value in rows && key(r.value) == k
  {
    match FirstIndex(rows, key, k)
    case None => None
    case Some(i) => Some(rows[i])
  }

  /** The rows that `keep` accepts, in their original order. Defined from the
      back, as a loop that appends to an ArrayList builds it. */
  function Filter<T>(rows: seq<T>, keep: T -> bool): (r: seq<T>)
    ensures |r| <= |rows|
    decreases |rows|
  {
    if rows == [] then []
    else Filter(rows[..|rows| - 1], keep) + (if keep(rows[|rows| - 1]) then [rows[|rows| - 1]] else [])
  }

  /** Filtering distributes over concatenation; with the one-row case of the
      definition this pins Filter down as "the accepted rows in store order". */
  lemma {:induction false} FilterAppend<T>(a: seq<T>, b: seq<T>, keep: T -> bool)
    ensures Filter(a + b, keep) == Filter(a, keep) + Filter(b, keep)
    decreases |b|
  {
    if b == [] {
      assert a + b == a;
    } else {
      var b' := b[..|b| - 1];
      assert (a + b)[..|a + b| - 1] == a + b';
      assert (a + b)[|a + b| - 1] == b[|b| - 1];
      FilterAppend(a, b', keep);
    }
  }

  /** A row is kept exactly when it is stored and accepted. */
  lemma {:induction false} FilterMembership<T>(rows: seq<T>, keep: T -> bool, x: T)
    ensures x in Filter(rows, keep) <==> x in rows && keep(x)
    decreases |rows|
  {
    if rows != [] {
      var init := rows[..|rows| - 1];
      FilterMembership(init, keep, x);
      assert rows == init + [rows[|rows| - 1]];
    }
  }

  /** `f` applied to every row, in order. Defined from the back, as a loop that
      appends to an ArrayList builds it. */
  function MapSeq<T, U>(rows: seq<T>, f: T -> U): (r: seq<U>)
    ensures |r| == |rows|
    ensures forall i :: 0 <= i < |rows| ==> r[i] == f(rows[i])
    decreases |rows|
  {
    if rows == [] then [] else MapSeq(rows[..|rows| - 1], f) + [f(rows[|rows| - 1])]
  }

  /** Appending a row appends its image. */
  lemma MapSeqSnoc<T, U>(rows: seq<T>, x: T, f: T -> U)
    ensures MapSeq(rows + [x], f) == MapSeq(rows, f) + [f(x)]
  {
    assert (rows + [x])[..|rows|] == rows;
  }

  /** Mapping distributes over concatenation. */
  lemma {:induction false} MapSeqAppend<T, U>(a: seq<T>, b: seq<T>, f: T -> U)
    ensures MapSeq(a + b, f) == MapSeq(a, f) + MapSeq(b, f)
    decreases |b|
  {
    if b == [] {
      assert a + b == a;
    } else {
      var b' := b[..|b| - 1];
      assert (a + b)[..|a + b| - 1] == a + b';
      MapSeqAppend(a, b', f);
    }
  }

  /** A filtering, converting loop that meets one more row appends that
      row's image exactly when the row is kept. */
  lemma FilterMapSnoc<T, U>(rows: seq<T>, x: T, keep: T -> bool, f: T -> U)
    ensures MapSeq(Filter(rows + [x], keep), f)
            == MapSeq(Filter(rows, keep), f) + (if keep(x) then [f(x)] else [])
  {
    assert (rows + [x])[..|rows|] == rows;
    if keep(x) {
      MapSeqSnoc(Filter(rows, keep), x, f);
    }
  }

  /** Spring Data's save. A row whose id is already stored replaces that row in
      place; any other row (a null id, or an id the table does not hold) is
      appended under the next generated id. Yields the new table and the row as
      stored. */
  function Save<T>(t: Table<T>, row: T, idOf: T -> Option<int>, withId: (T, int) -> T): (r: (Table<T>, T))
    ensures |t.rows| <= |r.0.rows| <= |t.rows| + 1
    ensures |r.0.rows| == |t.rows| ==> r.1 == row && r.0.nextId == t.nextId
    ensures |r.0.rows| == |t.rows| + 1 ==>
      r.0.rows == t.rows + [r.1] && r.1 == withId(row, t.nextId) && r.0.nextId == t.nextId + 1
  {
    var found := if idOf(row).Some? then FirstIndex(t.rows, idOf, idOf(row)) else None;
    match found
    case Some(i) => (Table(t.rows[i := row], t.nextId), row)
    case None =>
      var stored := withId(row, t.nextId);
      (Table(t.rows + [stored], t.nextId + 1), stored)
  }

  /** Every stored row has an id below the generator's next value, and no two
      rows share an id. */
  ghost predicate WellKeyed<T>(t: Table<T>, idOf: T -> Option<int>)
  {
    && (forall i :: 0 <= i < |t.rows| ==> idOf(t.rows[i]).Some? && idOf(t.rows[i]).value < t.nextId)
    && (forall i, j :: 0 <= i < j < |t.rows| ==> idOf(t.rows[i]) != idOf(t.rows[j]))
  }

  /** Saving keeps the ids unique, the saved row is the one findById then
      returns, and every row with another id stays where it was, unchanged. */
  lemma SaveKeepsKeys<T>(t: Table<T>, row: T, idOf: T -> Option<int>, withId: (T, int) -> T)
    requires WellKeyed(t, idOf)
    requires idOf(withId(row, t.nextId)) == Some(t.nextId)
    ensures WellKeyed(Save(t, row, idOf, withId).0, idOf)
    ensures idOf(Save(t, row, idOf, withId).1).Some?
    ensures FindFirst(Save(t, row, idOf, withId).0.rows, idOf, idOf(Save(t, row, idOf, withId).1))
            == Some(Save(t, row, idOf, withId).1)
    ensures forall j :: 0 <= j < |t.rows| && idOf(t.rows[j]) != idOf(Save(t, row, idOf, withId).1) ==>
              Save(t, row, idOf, withId).0.rows[j] == t.rows[j]
  {
    var (t', saved) := Save(t, row, idOf, withId);
    var found := if idOf(row).Some? then FirstIndex(t.rows, idOf, idOf(row)) else None;
    match found
    case Some(i) =>
      assert t'.rows == t.rows[i := row];
      assert FirstIndex(t'.rows, idOf, idOf(saved)) == Some(i) by {
        FirstIndexAt(t'.rows, idOf, idOf(saved), i);
      }
    case None =>
      assert t'.rows == t.rows + [saved];
      assert FirstIndex(t'.rows, idOf, idOf(saved)) == Some(|t.rows|) by {
        FirstIndexAt(t'.rows, idOf, idOf(saved), |t.rows|);
      }
  }

  /** Saving a row whose id is stored at position i replaces that row. */
  lemma SaveReplaces<T>(t: Table<T>, row: T, idOf: T -> Option<int>, withId: (T, int) -> T, i: nat)
    requires WellKeyed(t, idOf) && i < |t.rows| && idOf(t.rows[i]) == idOf(row)
    ensures Save(t, row, idOf, withId) == (Table(t.rows[i := row], t.nextId), row)
  {
    FirstIndexAt(t.rows, idOf, idOf(row), i);
  }

  /** Saving a row whose id is null or not stored appends it under the next id. */
  lemma SaveAppends<T>(t: Table<T>, row: T, idOf: T -> Option<int>, withId: (T, int) -> T)
    requires forall j :: 0 <= j < |t.rows| ==> idOf(t.rows[j]) != idOf(row) || idOf(row).None?
    ensures Save(t, row, idOf, withId)
            == (Table(t.rows + [withId(row, t.nextId)], t.nextId + 1), withId(row, t.nextId))
  {
  }

  /** FirstIndex finds position i when the key is there and nowhere before. */
  lemma FirstIndexAt<T, K>(rows: seq<T>, key: T -> K, k: K, i: nat)
    requires i < |rows| && key(rows[i]) == k
    requires forall j :: 0 <= j < i ==> key(rows[j]) != k
    ensures FirstIndex(rows, key, k) == Some(i)
  {
  }
}
