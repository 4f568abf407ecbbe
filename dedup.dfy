/**
 * `drop_duplicates(subset=[key], keep='first')`: keeps the first row for each
 * distinct value of the key column, in the original row order.
 */
module Dedup {

  type Row = seq<string>

  /** Every row has a cell in column `c`. */
  predicate HasColumn(rows: seq<Row>, c: nat) {
    forall i :: 0 <= i < |rows| ==> c < |rows[i]|
  }

  /** Row `i` is the first row carrying its key. */
  predicate IsFirst(rows: seq<Row>, c: nat, i: nat)
    requires HasColumn(rows, c) && i < |rows|
  {
    forall j :: 0 <= j < i ==> rows[j][c] != rows[i][c]
  }

  /** The rows `drop_duplicates` keeps, in order. */
  function Deduplicated(rows: seq<Row>, c: nat): (out: seq<Row>)
    requires HasColumn(rows, c)
    ensures |out| <= |rows|
    ensures HasColumn(out, c)
    decreases |rows|
  {
    if rows == [] then []
    else
      var n := |rows|;
      Deduplicated(rows[..n - 1], c) + (if IsFirst(rows, c, n - 1) then [rows[n - 1]] else [])
  }

  /** The positions of the rows `drop_duplicates` keeps, in order. */
  function KeptIndices(rows: seq<Row>, c: nat): (idx: seq<nat>)
    requires HasColumn(rows, c)
    decreases |rows|
  {
    if rows == [] then []
    else
      var n := |rows|;
      KeptIndices(rows[..n - 1], c) + (if IsFirst(rows, c, n - 1) then [n - 1] else [])
  }

  /** The set of key values in column `c`. */
  function KeySet(rows: seq<Row>, c: nat): set<string>
    requires HasColumn(rows, c)
  {
    set i | 0 <= i < |rows| :: rows[i][c]
  }

  /** The deduplication loop, with the set of keys seen so far. */
  method DropDuplicates(rows: seq<Row>, c: nat) returns (out: seq<Row>)
    requires HasColumn(rows, c)
    ensures out == Deduplicated(rows, c)
  {
    out := [];
    var seen: set<string> := {};
    for i := 0 to |rows|
      invariant out == Deduplicated(rows[..i], c)
      invariant seen == KeySet(rows[..i], c)
    {
      var prefix := rows[..i + 1];
      assert prefix[..i] == rows[..i];
      var key := rows[i][c];
      assert IsFirst(prefix, c, i) <==> key !in seen by {
        if key in seen {
          var j :| 0 <= j < i && rows[..i][j][c] == key;
          assert prefix[j][c] == prefix[i][c];
        }
      }
      if key !in seen {
        out := out + [rows[i]];
        seen := seen + {key};
      }
      assert KeySet(prefix, c) == KeySet(rows[..i], c) + {key} by {
        assert prefix[i][c] == key;
        forall x | x in KeySet(prefix, c) ensures x in KeySet(rows[..i], c) + {key} {
          var j :| 0 <= j < i + 1 && prefix[j][c] == x;
          if j < i { assert rows[..i][j][c] == x; }
        }
        forall x | x in KeySet(rows[..i], c) ensures x in KeySet(prefix, c) {
          var j :| 0 <= j < i && rows[..i][j][c] == x;
          assert prefix[j][c] == x;
        }
      }
    }
    assert rows[..|rows|] == rows;
  }

  /**
   * The kept rows are exactly the first occurrences, in increasing position:
   * `KeptIndices` lists them and `Deduplicated` picks those rows.
   */
  lemma DeduplicatedKeepsFirstOccurrences(rows: seq<Row>, c: nat)
    requires HasColumn(rows, c)
    ensures var out, idx := Deduplicated(rows, c), KeptIndices(rows, c);
      && |idx| == |out|
      && (forall k :: 0 <= k < |idx| ==> idx[k] < |rows| && out[k] == rows[idx[k]] && IsFirst(rows, c, idx[k]))
      && (forall k1, k2 :: 0 <= k1 < k2 < |idx| ==> idx[k1] < idx[k2])
      && (forall i :: 0 <= i < |rows| && IsFirst(rows, c, i) ==> i in idx)
  {
    KeptIndicesPick(rows, c);
    KeptIndicesIncreasing(rows, c);
    KeptIndicesFirst(rows, c);
    KeptIndicesComplete(rows, c);
  }

  /** Dropping the last row changes no earlier row's first-occurrence status. */
  lemma IsFirstOfPrefix(rows: seq<Row>, c: nat)
    requires HasColumn(rows, c) && rows != []
    ensures forall i :: 0 <= i < |rows| - 1 ==> (IsFirst(rows, c, i) <==> IsFirst(rows[..|rows| - 1], c, i))
  {
    var init := rows[..|rows| - 1];
    forall i | 0 <= i < |rows| - 1 ensures IsFirst(rows, c, i) <==> IsFirst(init, c, i) {
      assert forall j :: 0 <= j <= i ==> init[j] == rows[j];
    }
  }

  /** `Deduplicated` picks the rows `KeptIndices` lists. */
  lemma {:induction false} KeptIndicesPick(rows: seq<Row>, c: nat)
    requires HasColumn(rows, c)
    ensures |KeptIndices(rows, c)| == |Deduplicated(rows, c)|
    ensures forall k :: 0 <= k < |KeptIndices(rows, c)| ==>
      KeptIndices(rows, c)[k] < |rows| && Deduplicated(rows, c)[k] == rows[KeptIndices(rows, c)[k]]
    decreases |rows|
  {
    if rows != [] {
      var n := |rows|;
      var init := rows[..n - 1];
      KeptIndicesPick(init, c);
      var out0, idx0 := Deduplicated(init, c), KeptIndices(init, c);
      forall k | 0 <= k < |idx0| ensures init[idx0[k]] == rows[idx0[k]] {
      }
      if IsFirst(rows, c, n - 1) {
        assert Deduplicated(rows, c) == out0 + [rows[n - 1]];
        assert KeptIndices(rows, c) == idx0 + [n - 1];
      }
    }
  }

  /** `KeptIndices` lists positions of the table in strictly increasing order. */
  lemma {:induction false} KeptIndicesIncreasing(rows: seq<Row>, c: nat)
    requires HasColumn(rows, c)
    ensures forall k :: 0 <= k < |KeptIndices(rows, c)| ==> KeptIndices(rows, c)[k] < |rows|
    ensures forall k1, k2 :: 0 <= k1 < k2 < |KeptIndices(rows, c)| ==>
      KeptIndices(rows, c)[k1] < KeptIndices(rows, c)[k2]
    decreases |rows|
  {
    if rows != [] {
      var n := |rows|;
      var init := rows[..n - 1];
      KeptIndicesIncreasing(init, c);
      var idx0 := KeptIndices(init, c);
      assert |init| == n - 1;
      if IsFirst(rows, c, n - 1) {
        var next := idx0 + [n - 1];
        assert KeptIndices(rows, c) == next;
        forall k | 0 <= k < |next| ensures next[k] < n {
          if k < |idx0| { assert next[k] == idx0[k]; }
        }
        forall k1, k2 | 0 <= k1 < k2 < |next| ensures next[k1] < next[k2] {
          assert next[k1] == idx0[k1];
          if k2 < |idx0| { assert next[k2] == idx0[k2]; }
        }
      } else {
        assert KeptIndices(rows, c) == idx0;
      }
    }
  }

  /** Every position `KeptIndices` lists holds the first row with its key. */
  lemma {:induction false} KeptIndicesFirst(rows: seq<Row>, c: nat)
    requires HasColumn(rows, c)
    ensures forall k :: 0 <= k < |KeptIndices(rows, c)| ==>
      KeptIndices(rows, c)[k] < |rows| && IsFirst(rows, c, KeptIndices(rows, c)[k])
    decreases |rows|
  {
    if rows != [] {
      var n := |rows|;
      var init := rows[..n - 1];
      KeptIndicesFirst(init, c);
      IsFirstOfPrefix(rows, c);
      var idx0 := KeptIndices(init, c);
      assert |init| == n - 1;
      if IsFirst(rows, c, n - 1) {
        var next := idx0 + [n - 1];
        assert KeptIndices(rows, c) == next;
        forall k | 0 <= k < |next| ensures next[k] < n && IsFirst(rows, c, next[k]) {
          if k < |idx0| { assert next[k] == idx0[k]; }
        }
      } else {
        assert KeptIndices(rows, c) == idx0;
      }
    }
  }

  /** Every first occurrence is listed by `KeptIndices`. */
  lemma {:induction false} KeptIndicesComplete(rows: seq<Row>, c: nat)
    requires HasColumn(rows, c)
    ensures forall i :: 0 <= i < |rows| && IsFirst(rows, c, i) ==> i in KeptIndices(rows, c)
    decreases |rows|
  {
    if rows != [] {
      var n := |rows|;
      var init := rows[..n - 1];
      KeptIndicesComplete(init, c);
      IsFirstOfPrefix(rows, c);
      var idx0 := KeptIndices(init, c);
      assert |init| == n - 1;
      if IsFirst(rows, c, n - 1) {
        assert KeptIndices(rows, c) == idx0 + [n - 1];
      } else {
        assert KeptIndices(rows, c) == idx0;
      }
    }
  }

  /** No two kept rows share a key. */
  lemma DeduplicatedKeysDistinct(rows: seq<Row>, c: nat)
    requires HasColumn(rows, c)
    ensures var out := Deduplicated(rows, c);
      forall k1, k2 :: 0 <= k1 < k2 < |out| ==> out[k1][c] != out[k2][c]
  {
    KeptIndicesPick(rows, c);
    KeptIndicesIncreasing(rows, c);
    KeptIndicesFirst(rows, c);
    var out, idx := Deduplicated(rows, c), KeptIndices(rows, c);
    forall k1, k2 | 0 <= k1 < k2 < |out| ensures out[k1][c] != out[k2][c] {
      assert idx[k1] < idx[k2] && IsFirst(rows, c, idx[k2]);
    }
  }

  /** Every key of the input, the empty one included, survives. */
  lemma DeduplicatedKeepsEveryKey(rows: seq<Row>, c: nat)
    requires HasColumn(rows, c)
    ensures KeySet(Deduplicated(rows, c), c) == KeySet(rows, c)
  {
    KeptIndicesPick(rows, c);
    KeptIndicesComplete(rows, c);
    var out, idx := Deduplicated(rows, c), KeptIndices(rows, c);
    forall x | x in KeySet(rows, c) ensures x in KeySet(out, c) {
      var i :| 0 <= i < |rows| && rows[i][c] == x;
      var f := FirstWithKey(rows, c, i);
      assert f in idx;
      var k :| 0 <= k < |idx| && idx[k] == f;
      assert out[k][c] == x;
    }
    forall x | x in KeySet(out, c) ensures x in KeySet(rows, c) {
      var k :| 0 <= k < |out| && out[k][c] == x;
      assert rows[idx[k]][c] == x;
    }
  }

  /** The position of the first row that has the same key as row `i`. */
  ghost function FirstWithKey(rows: seq<Row>, c: nat, i: nat): (f: nat)
    requires HasColumn(rows, c) && i < |rows|
    ensures f <= i && rows[f][c] == rows[i][c] && IsFirst(rows, c, f)
    decreases i
  {
    if IsFirst(rows, c, i) then i
    else
      var j :| 0 <= j < i && rows[j][c] == rows[i][c];
      FirstWithKey(rows, c, j)
  }
}
