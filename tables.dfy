/**
 * The few table queries the handlers make, over a table held as the sequence
 * of its rows in insertion order: `findOne({ where })` is the first row the
 * condition accepts, `findAll({ where })` the rows it accepts, `findByPk` the
 * row with that key. Keys are the rows' auto-incremented ids.
 */
module Tables {
  import opened Common

  /** Index of the first row `p` accepts, or `|rows|` when none does. */
  function FirstWhere<R>(rows: seq<R>, p: R -> bool): (i: nat)
    ensures i <= |rows|
    ensures i < |rows| ==> p(rows[i])
    ensures forall j :: 0 <= j < i ==> !p(rows[j])
  {
    if rows == [] then 0 else if p(rows[0]) then 0 else 1 + FirstWhere(rows[1..], p)
  }

  /** `findOne({ where: p })`: the first row `p` accepts, if any. */
  function FindOne<R>(rows: seq<R>, p: R -> bool): (r: Option<R>)
    ensures r.Some? <==> exists j :: 0 <= j < |rows| && p(rows[j])
    ensures r.Some? ==> p(r.value) && r.value in rows
  {
    var i := FirstWhere(rows, p);
    if i < |rows| then Some(rows[i]) else None
  }

  /** `findAll({ where: p })`: the rows `p` accepts, in table order, each as often as it occurs. */
  function Where<R(==, !new)>(rows: seq<R>, p: R -> bool): (r: seq<R>)
    ensures forall x :: multiset(r)[x] == if p(x) then multiset(rows)[x] else 0
  {
    if rows == [] then []
    else
      assert rows == [rows[0]] + rows[1..];
      (if p(rows[0]) then [rows[0]] else []) + Where(rows[1..], p)
  }

  /** The table without its row at `i`: what `destroy` leaves. */
  function RemoveAt<R>(rows: seq<R>, i: nat): (r: seq<R>)
    requires i < |rows|
    ensures |r| == |rows| - 1
    ensures forall j :: 0 <= j < i ==> r[j] == rows[j]
    ensures forall j :: i < j < |rows| ==> r[j - 1] == rows[j]
  {
    rows[..i] + rows[i + 1..]
  }

  /** Every key is below the next value of the auto-increment counter. */
  ghost predicate KeysBelow<R>(rows: seq<R>, key: R -> nat, next: nat) {
    forall j :: 0 <= j < |rows| ==> key(rows[j]) < next
  }

  /** No two rows share a key. */
  ghost predicate DistinctKeys<R>(rows: seq<R>, key: R -> nat) {
    forall j, k :: 0 <= j < k < |rows| ==> key(rows[j]) != key(rows[k])
  }

  /** A row whose key is the counter's value keeps the keys distinct and below the bumped counter. */
  lemma AppendFresh<R>(rows: seq<R>, key: R -> nat, next: nat, x: R)
    requires KeysBelow(rows, key, next) && DistinctKeys(rows, key)
    requires key(x) == next
    ensures KeysBelow(rows + [x], key, next + 1) && DistinctKeys(rows + [x], key)
  {
  }

  /** Removing a row keeps the keys distinct and below the counter, and its key is gone. */
  lemma {:induction false} RemoveKeepsKeys<R>(rows: seq<R>, key: R -> nat, next: nat, i: nat)
    requires i < |rows|
    requires KeysBelow(rows, key, next) && DistinctKeys(rows, key)
    ensures KeysBelow(RemoveAt(rows, i), key, next) && DistinctKeys(RemoveAt(rows, i), key)
    ensures forall j :: 0 <= j < |rows| - 1 ==> key(RemoveAt(rows, i)[j]) != key(rows[i])
  {
    var r := RemoveAt(rows, i);
    forall j | 0 <= j < |r|
      ensures r[j] == rows[if j < i then j else j + 1]
    {
    }
  }

  /** Removing a row keeps every other row. */
  lemma RemoveKeepsOthers<R>(rows: seq<R>, i: nat)
    requires i < |rows|
    ensures forall x :: x in rows && x != rows[i] ==> x in RemoveAt(rows, i)
  {
    var r := RemoveAt(rows, i);
    forall x | x in rows && x != rows[i]
      ensures x in r
    {
      var j :| 0 <= j < |rows| && rows[j] == x;
      if j < i {
        assert r[j] == x;
      } else {
        assert r[j - 1] == x;
      }
    }
  }

  /** Replacing a row by one with the same key keeps the keys distinct and below the counter. */
  lemma ReplaceKeepsKeys<R>(rows: seq<R>, key: R -> nat, next: nat, i: nat, x: R)
    requires i < |rows| && key(x) == key(rows[i])
    requires KeysBelow(rows, key, next) && DistinctKeys(rows, key)
    ensures KeysBelow(rows[i := x], key, next) && DistinctKeys(rows[i := x], key)
  {
  }

  /** With distinct keys, a row matching a condition that only looks at the key is the first match. */
  lemma FirstIsOnly<R>(rows: seq<R>, key: R -> nat, p: R -> bool, k: nat, j: nat)
    requires DistinctKeys(rows, key)
    requires forall x :: p(x) <==> key(x) == k
    requires j < |rows| && p(rows[j])
    ensures FirstWhere(rows, p) == j
  {
  }

  /** The first match in a table grown by one row: an earlier match wins, else the new row if it matches. */
  lemma {:induction false} FirstWhereAppend<R>(rows: seq<R>, p: R -> bool, x: R)
    ensures FirstWhere(rows + [x], p) ==
      if FirstWhere(rows, p) < |rows| then FirstWhere(rows, p)
      else if p(x) then |rows| else |rows| + 1
  {
    if rows != [] {
      assert (rows + [x])[1..] == rows[1..] + [x];
      FirstWhereAppend(rows[1..], p, x);
    }
  }

  /** Two tables the condition reads the same way, row by row, have their first match at the same place. */
  lemma {:induction false} FirstWhereAgrees<R>(a: seq<R>, b: seq<R>, p: R -> bool)
    requires |a| == |b|
    requires forall i :: 0 <= i < |a| ==> p(a[i]) == p(b[i])
    ensures FirstWhere(a, p) == FirstWhere(b, p)
  {
    if a != [] {
      FirstWhereAgrees(a[1..], b[1..], p);
    }
  }
}
