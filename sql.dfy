/** Relational building blocks shared by the three stores: the values a query
    hands back (a row or nothing, a result or a database error), the WHERE
    filter, and the ordering facts behind `ORDER BY created_at DESC`. */
module Sql {

  /** `result.rows[0]`: a row, or `undefined` when the query matched nothing. */
  datatype Option<+T> = None | Some(value: T)

  /** The errors a statement can raise inside the modelled store. */
  datatype DbError =
    | ForeignKeyViolation   // a reference to a missing row, or a delete of a referenced row
    | UniqueViolation       // a second row with the same unique column
    | ConnectionLost        // any failure outside the model (network, server)

  /** A statement or transaction either yields a value or throws. */
  datatype Result<+T> = Ok(value: T) | Err(error: DbError)

  /** `WHERE p`: the rows of `s` that satisfy `p`, in table order. */
  function Where<T>(s: seq<T>, p: T -> bool): (r: seq<T>)
    ensures |r| <= |s|
    ensures forall i :: 0 <= i < |r| ==> r[i] in s && p(r[i])
    ensures forall i :: 0 <= i < |s| && p(s[i]) ==> s[i] in r
  {
    if s == [] then [] else (if p(s[0]) then [s[0]] else []) + Where(s[1..], p)
  }

  /** Rows listed back to front. */
  function Reverse<T>(s: seq<T>): (r: seq<T>)
    ensures |r| == |s|
    ensures forall i :: 0 <= i < |s| ==> r[i] == s[|s| - 1 - i]
  {
    if s == [] then [] else Reverse(s[1..]) + [s[0]]
  }

  /** Strictly increasing in `key` (rows of a table in insertion order). */
  predicate Ascending<T>(s: seq<T>, key: T -> int) {
    forall i, j :: 0 <= i < j < |s| ==> key(s[i]) < key(s[j])
  }

  /** Strictly decreasing in `key` (`ORDER BY key DESC` without ties). */
  predicate Descending<T>(s: seq<T>, key: T -> int) {
    forall i, j :: 0 <= i < j < |s| ==> key(s[i]) > key(s[j])
  }

  lemma ReverseMembers<T>(s: seq<T>)
    ensures forall x :: x in Reverse(s) <==> x in s
  {
    var r := Reverse(s);
    forall x | x in s ensures x in r {
      var i :| 0 <= i < |s| && s[i] == x;
      assert r[|s| - 1 - i] == x;
    }
  }

  /** A table kept in ascending `key` order, read back to front, is in
      descending `key` order and holds the same rows. */
  lemma ReverseOfAscending<T>(s: seq<T>, key: T -> int)
    requires Ascending(s, key)
    ensures Descending(Reverse(s), key)
    ensures forall x :: x in Reverse(s) <==> x in s
  {
    ReverseMembers(s);
  }

  /** Filtering keeps the order of what survives. */
  lemma {:induction false} WhereAscending<T>(s: seq<T>, p: T -> bool, key: T -> int)
    requires Ascending(s, key)
    ensures Ascending(Where(s, p), key)
  {
    if s != [] {
      assert Ascending(s[1..], key);
      WhereAscending(s[1..], p, key);
      var tail := Where(s[1..], p);
      forall x | x in tail ensures key(s[0]) < key(x) {
        var j :| 0 <= j < |s[1..]| && s[1..][j] == x;
        assert s[j + 1] == x;
      }
    }
  }

  /** `ORDER BY key DESC` has exactly one answer when keys are distinct:
      two descending listings of the same rows are the same listing. */
  lemma {:induction false} DescendingUnique<T>(a: seq<T>, b: seq<T>, key: T -> int)
    requires Descending(a, key) && Descending(b, key)
    requires forall x :: x in a <==> x in b
    ensures a == b
  {
    if a != [] || b != [] {
      HeadIsMember(a);
      HeadIsMember(b);
      assert a != [] && b != [];
      var j :| 0 <= j < |b| && b[j] == a[0];
      var i :| 0 <= i < |a| && a[i] == b[0];
      assert key(a[0]) >= key(a[i]);
      assert key(b[0]) >= key(b[j]);
      assert i == 0;
      forall x ensures x in a[1..] <==> x in b[1..] {
        if x in a[1..] {
          var k :| 0 <= k < |a[1..]| && a[1..][k] == x;
          assert key(a[0]) > key(a[k + 1]);
          assert x in b && x != b[0];
        }
        if x in b[1..] {
          var k :| 0 <= k < |b[1..]| && b[1..][k] == x;
          assert key(b[0]) > key(b[k + 1]);
          assert x in a && x != a[0];
        }
      }
      DescendingUnique(a[1..], b[1..], key);
      assert a == [a[0]] + a[1..];
      assert b == [b[0]] + b[1..];
    }
  }

  lemma HeadIsMember<T>(s: seq<T>)
    ensures s != [] ==> s[0] in s
  {
  }

  /** Filtering distributes over appending rows to a table. */
  lemma {:induction false} WhereAppend<T>(s: seq<T>, t: seq<T>, p: T -> bool)
    ensures Where(s + t, p) == Where(s, p) + Where(t, p)
  {
    if s == [] {
      assert s + t == t;
    } else {
      assert (s + t)[1..] == s[1..] + t;
      WhereAppend(s[1..], t, p);
    }
  }

  /** A filter that rejects every row yields nothing. */
  lemma {:induction false} WhereNone<T>(s: seq<T>, p: T -> bool)
    requires forall x :: x in s ==> !p(x)
    ensures Where(s, p) == []
  {
    if s != [] {
      assert forall x :: x in s[1..] ==> x in s;
      WhereNone(s[1..], p);
    }
  }

  /** A filter that accepts every row yields the table unchanged. */
  lemma {:induction false} WhereAll<T>(s: seq<T>, p: T -> bool)
    requires forall x :: x in s ==> p(x)
    ensures Where(s, p) == s
  {
    if s != [] {
      assert forall x :: x in s[1..] ==> x in s;
      WhereAll(s[1..], p);
      assert s == [s[0]] + s[1..];
    }
  }

  /** Filtering twice with a weaker then a stronger condition is filtering
      once with the stronger. */
  lemma {:induction false} WhereWhere<T>(s: seq<T>, p: T -> bool, q: T -> bool)
    requires forall x :: q(x) ==> p(x)
    ensures Where(Where(s, p), q) == Where(s, q)
  {
    if s != [] {
      WhereWhere(s[1..], p, q);
      if p(s[0]) {
        var w := Where(s, p);
        assert w == [s[0]] + Where(s[1..], p);
        assert w[1..] == Where(s[1..], p);
        assert w[0] == s[0];
        assert Where(w, q) == (if q(w[0]) then [w[0]] else []) + Where(w[1..], q);
        assert Where(s, q) == (if q(s[0]) then [s[0]] else []) + Where(s[1..], q);
      } else {
        assert !q(s[0]);
        assert Where(s, p) == Where(s[1..], p);
        assert Where(s, q) == Where(s[1..], q);
      }
    }
  }
}
