/** Operations on a table held as a sequence of rows in insertion order,
    shared by both registry implementations: the rows a DELETE leaves, and
    `ORDER BY created_at ASC` as a stable insertion sort on a real-valued
    key. SQLite leaves the order of rows with equal keys unspecified; this
    model keeps them in table order, which is one of the orders SQLite may
    return. */
module Tables {

  /** The rows that satisfy `keep`, in table order (what a DELETE leaves is
      the rows that do not match its WHERE clause). */
  function Where<T(==, !new)>(rows: seq<T>, keep: T -> bool): (r: seq<T>)
    ensures |r| <= |rows|
    ensures forall n :: n in r <==> n in rows && keep(n)
  {
    if |rows| == 0 then []
    else (if keep(rows[0]) then [rows[0]] else []) + Where(rows[1..], keep)
  }

  /** Filtering removes nothing exactly when every row is kept, and then it
      returns the table as it was. */
  lemma WhereKeepsAll<T(!new)>(rows: seq<T>, keep: T -> bool)
    ensures |Where(rows, keep)| == |rows| <==> forall i :: 0 <= i < |rows| ==> keep(rows[i])
    ensures (forall i :: 0 <= i < |rows| ==> keep(rows[i])) ==> Where(rows, keep) == rows
  {
    if forall i :: 0 <= i < |rows| ==> keep(rows[i]) {
      WhereAllKept(rows, keep);
    } else {
      var k :| 0 <= k < |rows| && !keep(rows[k]);
      WhereDropsOne(rows, keep, k);
    }
  }

  lemma {:induction false} WhereAllKept<T(!new)>(rows: seq<T>, keep: T -> bool)
    requires forall i :: 0 <= i < |rows| ==> keep(rows[i])
    ensures Where(rows, keep) == rows
  {
    if |rows| > 0 {
      var tail := rows[1..];
      assert forall i :: 0 <= i < |tail| ==> keep(tail[i]) by {
        forall i | 0 <= i < |tail| ensures keep(tail[i]) {
          assert tail[i] == rows[i + 1];
        }
      }
      WhereAllKept(tail, keep);
      assert rows == [rows[0]] + tail;
    }
  }

  lemma {:induction false} WhereDropsOne<T(!new)>(rows: seq<T>, keep: T -> bool, k: nat)
    requires k < |rows| && !keep(rows[k])
    ensures |Where(rows, keep)| < |rows|
  {
    var tail := rows[1..];
    if k > 0 {
      assert tail[k - 1] == rows[k];
      WhereDropsOne(tail, keep, k - 1);
    }
  }

  /** A relation that holds between every two kept rows (in table order)
      holds between every two rows of the filtered table. */
  lemma {:induction false} WhereIsPairwise<T(!new)>(rows: seq<T>, keep: T -> bool, rel: (T, T) -> bool)
    requires forall i, j :: 0 <= i < j < |rows| && keep(rows[i]) && keep(rows[j]) ==> rel(rows[i], rows[j])
    ensures forall i, j :: 0 <= i < j < |Where(rows, keep)| ==> rel(Where(rows, keep)[i], Where(rows, keep)[j])
  {
    if |rows| > 0 {
      var tail := rows[1..];
      forall i, j | 0 <= i < j < |tail| && keep(tail[i]) && keep(tail[j]) ensures rel(tail[i], tail[j]) {
        assert tail[i] == rows[i + 1] && tail[j] == rows[j + 1];
      }
      WhereIsPairwise(tail, keep, rel);
      var wt := Where(tail, keep);
      if keep(rows[0]) {
        forall k | 0 <= k < |wt| ensures rel(rows[0], wt[k]) {
          assert wt[k] in tail;
          var m :| 0 <= m < |tail| && tail[m] == wt[k];
          assert rows[m + 1] == wt[k];
        }
        ConsPairwise(rows[0], wt, rel);
        assert Where(rows, keep) == [rows[0]] + wt;
      } else {
        assert Where(rows, keep) == wt;
      }
    }
  }

  lemma ConsPairwise<T>(h: T, t: seq<T>, rel: (T, T) -> bool)
    requires forall i, j :: 0 <= i < j < |t| ==> rel(t[i], t[j])
    requires forall k :: 0 <= k < |t| ==> rel(h, t[k])
    ensures forall i, j :: 0 <= i < j < |[h] + t| ==> rel(([h] + t)[i], ([h] + t)[j])
  {
    var r := [h] + t;
    forall i, j | 0 <= i < j < |r| ensures rel(r[i], r[j]) {
      assert r[j] == t[j - 1];
      if i > 0 {
        assert r[i] == t[i - 1];
      }
    }
  }

  ghost predicate SortedBy<T>(s: seq<T>, key: T -> real) {
    forall i, j :: 0 <= i < j < |s| ==> key(s[i]) <= key(s[j])
  }

  /** Places `x` after the leading elements whose keys are at most its own,
      so before the first element with a larger key. */
  function Insert<T(==)>(x: T, s: seq<T>, key: T -> real): (r: seq<T>)
    ensures multiset(r) == multiset(s) + multiset{x}
  {
    if |s| == 0 then [x]
    else if key(x) < key(s[0]) then [x] + s
    else
      assert s == [s[0]] + s[1..];
      [s[0]] + Insert(x, s[1..], key)
  }

  /** Inserting into a sorted sequence keeps it sorted. */
  lemma {:induction false} InsertSorted<T>(x: T, s: seq<T>, key: T -> real)
    requires SortedBy(s, key)
    ensures SortedBy(Insert(x, s, key), key)
    decreases |s|
  {
    if |s| == 0 {
    } else if key(x) < key(s[0]) {
      forall k | 0 <= k < |s| ensures key(x) <= key(s[k]) {
        if k > 0 {
          assert key(s[0]) <= key(s[k]);
        }
      }
      ConsSorted(x, s, key);
    } else {
      var rest := s[1..];
      SortedTail(s, key);
      InsertSorted(x, rest, key);
      var tail := Insert(x, rest, key);
      forall k | 0 <= k < |tail| ensures key(s[0]) <= key(tail[k]) {
        var y := tail[k];
        assert y in multiset(tail);
        if y != x {
          assert y in multiset(rest);
          var m :| 0 <= m < |rest| && rest[m] == y;
          assert key(s[0]) <= key(s[m + 1]);
        }
      }
      ConsSorted(s[0], tail, key);
    }
  }

  lemma ConsSorted<T>(h: T, t: seq<T>, key: T -> real)
    requires SortedBy(t, key)
    requires forall k :: 0 <= k < |t| ==> key(h) <= key(t[k])
    ensures SortedBy([h] + t, key)
  {
    var r := [h] + t;
    forall i, j | 0 <= i < j < |r| ensures key(r[i]) <= key(r[j]) {
      assert r[j] == t[j - 1];
      if i > 0 {
        assert r[i] == t[i - 1];
      }
    }
  }

  lemma SortedTail<T>(s: seq<T>, key: T -> real)
    requires SortedBy(s, key) && |s| > 0
    ensures SortedBy(s[1..], key)
  {
    var rest := s[1..];
    forall i, j | 0 <= i < j < |rest| ensures key(rest[i]) <= key(rest[j]) {
      assert rest[i] == s[i + 1] && rest[j] == s[j + 1];
    }
  }

  /** The rows in ascending key order: a permutation of the input that is sorted. */
  function SortBy<T(==)>(s: seq<T>, key: T -> real): (r: seq<T>)
    ensures |r| == |s|
    ensures multiset(r) == multiset(s)
    ensures SortedBy(r, key)
  {
    if |s| == 0 then []
    else
      assert s == s[..|s| - 1] + [s[|s| - 1]];
      var sorted := SortBy(s[..|s| - 1], key);
      InsertSorted(s[|s| - 1], sorted, key);
      var r := Insert(s[|s| - 1], sorted, key);
      assert |r| == |multiset(r)|;
      r
  }

  /** `keep` selects exactly the rows whose key is `k`. */
  ghost predicate SelectsKey<T(!new)>(keep: T -> bool, key: T -> real, k: real) {
    forall r :: keep(r) <==> key(r) == k
  }

  lemma {:induction false} WhereAppend<T(!new)>(a: seq<T>, b: seq<T>, keep: T -> bool)
    ensures Where(a + b, keep) == Where(a, keep) + Where(b, keep)
    decreases |a|
  {
    if |a| == 0 {
      assert a + b == b;
    } else {
      assert (a + b)[1..] == a[1..] + b;
      WhereAppend(a[1..], b, keep);
    }
  }

  /** One step of the filter: the head, if kept, then the filtered tail. */
  lemma WhereCons<T(!new)>(h: T, t: seq<T>, keep: T -> bool)
    ensures Where([h] + t, keep) == (if keep(h) then [h] else []) + Where(t, keep)
  {
    assert ([h] + t)[1..] == t;
  }

  lemma {:induction false} WhereNone<T(!new)>(rows: seq<T>, keep: T -> bool)
    requires forall i :: 0 <= i < |rows| ==> !keep(rows[i])
    ensures Where(rows, keep) == []
  {
    if |rows| > 0 {
      var tail := rows[1..];
      assert forall i :: 0 <= i < |tail| ==> tail[i] == rows[i + 1];
      WhereNone(tail, keep);
    }
  }

  /** An element with a smaller key than every row goes first, and no row
      shares its key. */
  lemma InsertInFront<T(!new)>(x: T, s: seq<T>, key: T -> real, keep: T -> bool, k: real)
    requires SortedBy(s, key) && SelectsKey(keep, key, k)
    requires |s| > 0 && key(x) < key(s[0])
    ensures Where([x] + s, keep) == Where(s, keep) + (if keep(x) then [x] else [])
  {
    WhereCons(x, s, keep);
    if keep(x) {
      forall i | 0 <= i < |s| ensures !keep(s[i]) {
        assert key(s[0]) <= key(s[i]);
      }
      WhereNone(s, keep);
    }
  }

  /** Inserting `x` into a sorted sequence places it after every element
      with the same key: among the rows of its key it comes last. */
  lemma {:induction false} InsertStable<T(!new)>(x: T, s: seq<T>, key: T -> real, keep: T -> bool, k: real)
    requires SortedBy(s, key) && SelectsKey(keep, key, k)
    ensures Where(Insert(x, s, key), keep) == Where(s, keep) + (if keep(x) then [x] else [])
    decreases |s|
  {
    if |s| == 0 {
      WhereCons(x, [], keep);
      assert [x] + [] == [x];
    } else if key(x) < key(s[0]) {
      InsertInFront(x, s, key, keep, k);
    } else {
      SortedTail(s, key);
      InsertStable(x, s[1..], key, keep, k);
      InsertStableStep(x, s, key, keep);
    }
  }

  /** The step of `InsertStable` past a head whose key is at most `x`'s. */
  lemma InsertStableStep<T(!new)>(x: T, s: seq<T>, key: T -> real, keep: T -> bool)
    requires |s| > 0 && key(s[0]) <= key(x)
    requires Where(Insert(x, s[1..], key), keep) == Where(s[1..], keep) + (if keep(x) then [x] else [])
    ensures Where(Insert(x, s, key), keep) == Where(s, keep) + (if keep(x) then [x] else [])
  {
    var rest := s[1..];
    var xKept := if keep(x) then [x] else [];
    var headKept := if keep(s[0]) then [s[0]] else [];
    calc {
      Where(Insert(x, s, key), keep);
      { InsertAfterHead(x, s, key); }
      Where([s[0]] + Insert(x, rest, key), keep);
      { WhereCons(s[0], Insert(x, rest, key), keep); }
      headKept + Where(Insert(x, rest, key), keep);
      headKept + (Where(rest, keep) + xKept);
      { AppendAssoc(headKept, Where(rest, keep), xKept); }
      (headKept + Where(rest, keep)) + xKept;
      Where(s, keep) + xKept;
    }
  }

  lemma AppendAssoc<T>(a: seq<T>, b: seq<T>, c: seq<T>)
    ensures a + (b + c) == (a + b) + c
  {
  }

  lemma InsertAfterHead<T>(x: T, s: seq<T>, key: T -> real)
    requires |s| > 0 && key(s[0]) <= key(x)
    ensures Insert(x, s, key) == [s[0]] + Insert(x, s[1..], key)
  {
  }

  /** `SortBy` is stable: for every key value, the rows with that key come
      out in the order they have in the table. */
  lemma {:induction false} SortByStable<T(!new)>(s: seq<T>, key: T -> real, keep: T -> bool, k: real)
    requires SelectsKey(keep, key, k)
    ensures Where(SortBy(s, key), keep) == Where(s, keep)
    decreases |s|
  {
    if |s| > 0 {
      var init, last := s[..|s| - 1], s[|s| - 1];
      var sorted := SortBy(init, key);
      var lastKept := if keep(last) then [last] else [];
      calc {
        Where(SortBy(s, key), keep);
        { SortByStep(s, key); }
        Where(Insert(last, sorted, key), keep);
        { InsertStable(last, sorted, key, keep, k); }
        Where(sorted, keep) + lastKept;
        { SortByStable(init, key, keep, k); }
        Where(init, keep) + lastKept;
        { WhereCons(last, [], keep); assert [last] + [] == [last]; }
        Where(init, keep) + Where([last], keep);
        { WhereAppend(init, [last], keep); }
        Where(init + [last], keep);
        { assert init + [last] == s; }
        Where(s, keep);
      }
    }
  }

  lemma SortByStep<T>(s: seq<T>, key: T -> real)
    requires |s| > 0
    ensures SortBy(s, key) == Insert(s[|s| - 1], SortBy(s[..|s| - 1], key), key)
  {
  }
}
