/** `SELECT ... WHERE ... ORDER BY`: the rows that pass a test, by a pair of keys; ties stay in table order. */
module Ordering {
  type Key = (int, int)

  predicate Leq(a: Key, b: Key) { a.0 < b.0 || (a.0 == b.0 && a.1 <= b.1) }

  predicate InOrder<T>(s: seq<T>, key: T -> Key) {
    forall i, j :: 0 <= i < j < |s| ==> Leq(key(s[i]), key(s[j]))
  }

  /** Before the elements with a greater key at the end. */
  function Insert<T>(s: seq<T>, x: T, key: T -> Key): seq<T> {
    if s == [] || Leq(key(s[|s| - 1]), key(x)) then s + [x]
    else Insert(s[..|s| - 1], x, key) + [s[|s| - 1]]
  }

  function Pick<T>(rows: seq<T>, test: T -> bool, key: T -> Key): seq<T> {
    if rows == [] then []
    else
      var n := |rows| - 1;
      var rest := Pick(rows[..n], test, key);
      if test(rows[n]) then Insert(rest, rows[n], key) else rest
  }

  lemma {:induction false} InsertKeeps<T>(s: seq<T>, x: T, key: T -> Key)
    ensures multiset(Insert(s, x, key)) == multiset(s) + multiset{x}
    ensures InOrder(s, key) ==> InOrder(Insert(s, x, key), key)
  {
    if s != [] && !Leq(key(s[|s| - 1]), key(x)) {
      var init, last := s[..|s| - 1], s[|s| - 1];
      InsertKeeps(init, x, key);
      assert s == init + [last];
      var front := Insert(init, x, key);
      if InOrder(s, key) {
        forall i | 0 <= i < |front| ensures Leq(key(front[i]), key(last)) {
          assert front[i] in multiset(front);
          assert front[i] == x || front[i] in init;
        }
      }
    }
  }

  /** The rows picked are in order, and each row that passes the test is there as often as in the table. */
  lemma {:induction false} PickMeans<T>(rows: seq<T>, test: T -> bool, key: T -> Key)
    ensures InOrder(Pick(rows, test, key), key)
    ensures forall x :: multiset(Pick(rows, test, key))[x] == if test(x) then multiset(rows)[x] else 0
  {
    if rows != [] {
      var n := |rows| - 1;
      PickMeans(rows[..n], test, key);
      InsertKeeps(Pick(rows[..n], test, key), rows[n], key);
      assert rows == rows[..n] + [rows[n]];
    }
  }

  lemma PickedIff<T>(rows: seq<T>, test: T -> bool, key: T -> Key, x: T)
    ensures x in Pick(rows, test, key) <==> x in rows && test(x)
  {
    PickMeans(rows, test, key);
    assert x in Pick(rows, test, key) <==> multiset(Pick(rows, test, key))[x] > 0;
    assert x in rows <==> multiset(rows)[x] > 0;
  }
}
