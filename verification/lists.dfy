/** The two stream collectors the service applies to store results:
    `distinct()` and `Collectors.toMap(row -> row.get("id"), row -> row)`. */
module Lists {
  import opened Wrappers
  import opened Json
  import Keys

  /** `distinct()`: the elements of `xs` once each, first occurrences first. */
  function Distinct(xs: seq<Value>): (r: seq<Value>)
    ensures forall x :: x in r <==> x in xs
    ensures forall i, j :: 0 <= i < j < |r| ==> r[i] != r[j]
    ensures |r| <= |xs|
    ensures |xs| > 0 ==> |r| > 0
  {
    if |xs| == 0 then []
    else
      var d := Distinct(xs[..|xs| - 1]);
      assert forall x :: x in xs <==> x in xs[..|xs| - 1] || x == xs[|xs| - 1];
      if xs[|xs| - 1] in d then d else d + [xs[|xs| - 1]]
  }

  /** The `id` of a row as the collector reads it. */
  function IdOf(v: Value): Value {
    Get(RecOf(v), Keys.Id)
  }

  /** No two rows carry the same id. */
  predicate DistinctIds(rows: seq<Value>) {
    forall i, j :: 0 <= i < j < |rows| ==> IdOf(rows[i]) != IdOf(rows[j])
  }

  predicate AllObjects(rows: seq<Value>) {
    forall i :: 0 <= i < |rows| ==> rows[i].Object?
  }

  /** `toMap` keyed by id, or None when the collector throws (a null row or a
      repeated id). */
  function IndexById(rows: seq<Value>): (r: Option<map<Value, Record>>)
    ensures r.Some? ==> forall k :: k in r.value ==> Get(r.value[k], Keys.Id) == k
  {
    if |rows| == 0 then Some(map[])
    else
      var last := rows[|rows| - 1];
      match IndexById(rows[..|rows| - 1])
      case None => None
      case Some(m) =>
        if !last.Object? || IdOf(last) in m then None
        else Some(m[IdOf(last) := last.fields])
  }

  /** The inductive step of `IndexByIdSpec` when the last row is a map whose
      id is new: the ids stay distinct, every row is found under its id and
      every key still names a row. */
  lemma IndexExtendFresh(rows: seq<Value>, m: map<Value, Record>)
    requires |rows| > 0 && rows[|rows| - 1].Object?
    requires IndexById(rows[..|rows| - 1]) == Some(m) && IdOf(rows[|rows| - 1]) !in m
    requires DistinctIds(rows[..|rows| - 1])
    requires forall i :: 0 <= i < |rows| - 1 ==> rows[i].Object? && IdOf(rows[i]) in m && m[IdOf(rows[i])] == rows[i].fields
    requires forall k :: k in m ==> exists i :: 0 <= i < |rows| - 1 && IdOf(rows[i]) == k
    ensures IndexById(rows) == Some(m[IdOf(rows[|rows| - 1]) := rows[|rows| - 1].fields])
    ensures AllObjects(rows) && DistinctIds(rows)
    ensures forall i :: 0 <= i < |rows| ==>
      rows[i].Object? && IdOf(rows[i]) in IndexById(rows).value && IndexById(rows).value[IdOf(rows[i])] == rows[i].fields
    ensures forall k :: k in IndexById(rows).value ==> exists i :: 0 <= i < |rows| && IdOf(rows[i]) == k
  {
    ExtendKeepsShape(rows, m);
    ExtendFindsRows(rows, m);
    ExtendNamesRows(rows, m);
  }

  /** A fresh last map keeps every row a map and the ids distinct. */
  lemma ExtendKeepsShape(rows: seq<Value>, m: map<Value, Record>)
    requires |rows| > 0 && rows[|rows| - 1].Object?
    requires IdOf(rows[|rows| - 1]) !in m
    requires DistinctIds(rows[..|rows| - 1])
    requires forall i :: 0 <= i < |rows| - 1 ==> rows[i].Object? && IdOf(rows[i]) in m
    ensures AllObjects(rows) && DistinctIds(rows)
  {
    var init := rows[..|rows| - 1];
    assert forall i :: 0 <= i < |init| ==> rows[i] == init[i];
    forall i, j | 0 <= i < j < |rows| ensures IdOf(rows[i]) != IdOf(rows[j]) {
      if j < |rows| - 1 {
        assert IdOf(init[i]) != IdOf(init[j]);
      }
    }
  }

  /** After a fresh last map, every row is found under its own id. */
  lemma ExtendFindsRows(rows: seq<Value>, m: map<Value, Record>)
    requires |rows| > 0 && rows[|rows| - 1].Object?
    requires IdOf(rows[|rows| - 1]) !in m
    requires forall i :: 0 <= i < |rows| - 1 ==> rows[i].Object? && IdOf(rows[i]) in m && m[IdOf(rows[i])] == rows[i].fields
    ensures var m' := m[IdOf(rows[|rows| - 1]) := rows[|rows| - 1].fields];
      forall i :: 0 <= i < |rows| ==> rows[i].Object? && IdOf(rows[i]) in m' && m'[IdOf(rows[i])] == rows[i].fields
  {
  }

  /** After a fresh last map, every key is the id of some row. */
  lemma ExtendNamesRows(rows: seq<Value>, m: map<Value, Record>)
    requires |rows| > 0 && rows[|rows| - 1].Object?
    requires forall k :: k in m ==> exists i :: 0 <= i < |rows| - 1 && IdOf(rows[i]) == k
    ensures var m' := m[IdOf(rows[|rows| - 1]) := rows[|rows| - 1].fields];
      forall k :: k in m' ==> exists i :: 0 <= i < |rows| && IdOf(rows[i]) == k
  {
    var last := rows[|rows| - 1];
    var m' := m[IdOf(last) := last.fields];
    forall k | k in m' ensures exists i :: 0 <= i < |rows| && IdOf(rows[i]) == k {
      if k != IdOf(last) {
        var i :| 0 <= i < |rows| - 1 && IdOf(rows[i]) == k;
      } else {
        assert IdOf(rows[|rows| - 1]) == k;
      }
    }
  }

  /** Dropping the last row keeps every row a map and the ids distinct. */
  lemma InitKeepsShape(rows: seq<Value>)
    requires |rows| > 0
    ensures AllObjects(rows) ==> AllObjects(rows[..|rows| - 1])
    ensures DistinctIds(rows) ==> DistinctIds(rows[..|rows| - 1])
  {
    assert forall i :: 0 <= i < |rows| - 1 ==> rows[..|rows| - 1][i] == rows[i];
  }

  /** A last row repeating an earlier row's id breaks distinctness. */
  lemma LastRepeatsId(rows: seq<Value>, i: nat)
    requires i < |rows| - 1
    requires IdOf(rows[..|rows| - 1][i]) == IdOf(rows[|rows| - 1])
    ensures !DistinctIds(rows)
  {
    assert rows[..|rows| - 1][i] == rows[i];
  }

  /** `toMap` succeeds exactly when every row is a map and no id repeats; then
      every row is found under its own id and every key is the id of a row. */
  lemma {:induction false} IndexByIdSpec(rows: seq<Value>)
    ensures IndexById(rows).Some? <==> AllObjects(rows) && DistinctIds(rows)
    ensures IndexById(rows).Some? ==>
      forall i :: 0 <= i < |rows| ==> IdOf(rows[i]) in IndexById(rows).value && IndexById(rows).value[IdOf(rows[i])] == rows[i].fields
    ensures IndexById(rows).Some? ==>
      forall k :: k in IndexById(rows).value ==> exists i :: 0 <= i < |rows| && IdOf(rows[i]) == k
  {
    if |rows| > 0 {
      var init := rows[..|rows| - 1];
      var last := rows[|rows| - 1];
      IndexByIdSpec(init);
      match IndexById(init)
      case None =>
        InitKeepsShape(rows);
      case Some(m) =>
        if !last.Object? {
          assert !AllObjects(rows);
        } else if IdOf(last) in m {
          var i :| 0 <= i < |init| && IdOf(init[i]) == IdOf(last);
          LastRepeatsId(rows, i);
        } else {
          assert forall i :: 0 <= i < |init| ==> init[i] == rows[i];
          IndexExtendFresh(rows, m);
        }
    }
  }
}
