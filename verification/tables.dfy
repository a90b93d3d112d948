/**
 * A database table as a finite map from primary key to row, and the order in which
 * a scan returns its rows (ascending primary key).
 */
module Tables {
  import opened Seqs

  predicate Increasing(ks: seq<int>) {
    forall i, j | 0 <= i < j < |ks| :: ks[i] < ks[j]
  }

  lemma Pick(ks: set<int>) returns (x: int)
    requires ks != {}
    ensures x in ks
  {
    if forall y :: y !in ks {
      assert false;
    }
    x :| x in ks;
  }

  lemma {:induction false} LeastExists(ks: set<int>)
    requires ks != {}
    ensures exists k :: k in ks && forall j | j in ks :: k <= j
    decreases |ks|
  {
    var x := Pick(ks);
    var others := ks - {x};
    var least := x;
    if others != {} {
      LeastExists(others);
      var m :| m in others && forall j | j in others :: m <= j;
      if m < x {
        least := m;
      }
    }
    forall j | j in ks
      ensures least <= j
    {
      assert j == x || j in others;
    }
  }

  /** The smallest key of a non-empty key set. */
  function Least(ks: set<int>): (k: int)
    requires ks != {}
    ensures k in ks && forall j | j in ks :: k <= j
  {
    LeastExists(ks);
    var k :| k in ks && forall j | j in ks :: k <= j;
    k
  }

  /** The keys of a table in ascending order, each exactly once. */
  function SortedKeys(ks: set<int>): (r: seq<int>)
    ensures Increasing(r)
    ensures |r| == |ks|
    ensures forall k :: k in r <==> k in ks
    decreases |ks|
  {
    if ks == {} then []
    else
      var k := Least(ks);
      var rest := SortedKeys(ks - {k});
      assert forall j | j in rest :: k < j;
      [k] + rest
  }

  /** The rows stored under the keys `ks`, in that order. */
  function RowsAt<T(!new)>(m: map<int, T>, ks: seq<int>): (r: seq<T>)
    requires forall i | 0 <= i < |ks| :: ks[i] in m
    ensures |r| == |ks|
    ensures forall i | 0 <= i < |ks| :: r[i] == m[ks[i]]
  {
    if ks == [] then [] else [m[ks[0]]] + RowsAt(m, ks[1..])
  }

  /** The rows of a table in ascending key order (a table scan). */
  function Rows<T(!new)>(m: map<int, T>): (r: seq<T>)
    ensures |r| == |m|
  {
    RowsAt(m, SortedKeys(m.Keys))
  }

  /** The scan returns exactly the table's rows. */
  lemma RowsMembers<T(!new)>(m: map<int, T>)
    ensures forall x :: x in Rows(m) <==> x in m.Values
  {
    var ks := SortedKeys(m.Keys);
    var r := Rows(m);
    forall x | x in m.Values
      ensures x in r
    {
      var k :| k in m && m[k] == x;
      var i :| 0 <= i < |ks| && ks[i] == k;
      assert r[i] == x;
    }
  }

  lemma KeyIndex(ks: seq<int>, k: int) returns (i: int)
    requires k in ks
    ensures 0 <= i < |ks| && ks[i] == k
  {
    i :| 0 <= i < |ks| && ks[i] == k;
  }

  /** One value is in the scan exactly when it is a row of the table. */
  lemma RowsMember<T(!new)>(m: map<int, T>, x: T)
    ensures x in Rows(m) <==> x in m.Values
  {
    RowsMembers(m);
  }

  /** Position `i` of the scan holds the row under the `i`-th smallest key. */
  lemma RowsAtKey<T(!new)>(m: map<int, T>, i: int)
    requires 0 <= i < |m|
    ensures SortedKeys(m.Keys)[i] in m && Rows(m)[i] == m[SortedKeys(m.Keys)[i]]
  {
  }

  /** Overwriting the row under key `ks[i]` overwrites exactly position `i` of the scan. */
  lemma RowsAtUpdate<T(!new)>(m: map<int, T>, ks: seq<int>, i: int, v: T)
    requires Increasing(ks)
    requires forall j | 0 <= j < |ks| :: ks[j] in m
    requires 0 <= i < |ks|
    ensures RowsAt(m[ks[i] := v], ks) == RowsAt(m, ks)[i := v]
  {
    var after, before := RowsAt(m[ks[i] := v], ks), RowsAt(m, ks)[i := v];
    forall j | 0 <= j < |ks|
      ensures after[j] == before[j]
    {
      if j < i {
        assert ks[j] < ks[i];
      } else if j > i {
        assert ks[i] < ks[j];
      }
    }
  }

  /** Overwriting an existing row overwrites exactly one position of the scan. */
  lemma RowsUpdate<T(!new)>(m: map<int, T>, k: int, v: T) returns (i: int)
    requires k in m
    ensures 0 <= i < |Rows(m)| && Rows(m)[i] == m[k]
    ensures Rows(m[k := v]) == Rows(m)[i := v]
  {
    var ks := SortedKeys(m.Keys);
    SameScanKeys(m, k, v);
    i := KeyIndex(ks, k);
    RowsAtUpdate(m, ks, i, v);
  }

  lemma SameScanKeys<T>(m: map<int, T>, k: int, v: T)
    requires k in m
    ensures SortedKeys(m[k := v].Keys) == SortedKeys(m.Keys)
  {
    assert m[k := v].Keys == m.Keys;
  }

  /**
   * Overwriting one existing row changes a sum over the table scan by the
   * difference between the old and the new row's summand.
   */
  lemma SumRowsUpdate<T(!new)>(m: map<int, T>, k: int, v: T, f: T -> int)
    requires k in m
    ensures Sum(Rows(m[k := v]), f) == Sum(Rows(m), f) - f(m[k]) + f(v)
  {
    var i := RowsUpdate(m, k, v);
    SumUpdate(Rows(m), i, v, f);
  }
}
