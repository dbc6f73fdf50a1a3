/** Generic operations on a table held as a sequence of rows in storage order. */
module Tables {
  import opened Outcomes

  /** The position of the first row whose key is `k` (a `findFirst`/`findUnique`). */
  function FindFirst<T, K(==)>(rows: seq<T>, key: T -> K, k: K): (r: Option<nat>)
    ensures r.Some? ==> r.value < |rows| && key(rows[r.value]) == k
    ensures r.Some? ==> forall j :: 0 <= j < r.value ==> key(rows[j]) != k
    ensures r.None? <==> forall j :: 0 <= j < |rows| ==> key(rows[j]) != k
  {
    if rows == [] then None
    else if key(rows[0]) == k then Some(0)
    else match FindFirst(rows[1..], key, k)
      case None => None
      case Some(j) => Some(j + 1)
  }

  /** No two rows share a key (a primary key or a unique constraint). */
  predicate KeysUnique<T, K(==)>(rows: seq<T>, key: T -> K) {
    forall i, j :: 0 <= i < j < |rows| ==> key(rows[i]) != key(rows[j])
  }

  /** Some row has key `k`. */
  predicate HasKey<T, K(==)>(rows: seq<T>, key: T -> K, k: K) {
    exists i :: 0 <= i < |rows| && key(rows[i]) == k
  }

  /** With unique keys, a row is the only one with its key. */
  lemma KeyLocates<T, K>(rows: seq<T>, key: T -> K, i: nat)
    requires KeysUnique(rows, key) && i < |rows|
    ensures forall k :: 0 <= k < |rows| && key(rows[k]) == key(rows[i]) ==> k == i
  {
  }

  /** Appending a row with a new key keeps keys unique and every key present. */
  lemma KeysAppend<T, K>(rows: seq<T>, key: T -> K, x: T)
    requires KeysUnique(rows, key) && !HasKey(rows, key, key(x))
    ensures KeysUnique(rows + [x], key)
    ensures forall k :: HasKey(rows, key, k) ==> HasKey(rows + [x], key, k)
  {
    var after := rows + [x];
    forall k | HasKey(rows, key, k) ensures HasKey(after, key, k) {
      var j :| 0 <= j < |rows| && key(rows[j]) == k;
      assert after[j] == rows[j];
    }
  }

  /** After appending a row with a new key, a lookup by that key finds the new row. */
  lemma FindAppended<T, K>(rows: seq<T>, key: T -> K, x: T)
    requires !HasKey(rows, key, key(x))
    ensures FindFirst(rows + [x], key, key(x)) == Some(|rows|)
  {
    var after := rows + [x];
    assert key(after[|rows|]) == key(x);
  }

  /** Replacing a row by one whose key is its own or new keeps keys unique; when the key
      stays, the same keys are present. */
  lemma KeysReplace<T, K>(rows: seq<T>, key: T -> K, i: nat, x: T)
    requires KeysUnique(rows, key) && i < |rows|
    requires key(x) == key(rows[i]) || !HasKey(rows, key, key(x))
    ensures KeysUnique(rows[i := x], key)
    ensures key(x) == key(rows[i]) ==> forall k :: HasKey(rows[i := x], key, k) <==> HasKey(rows, key, k)
  {
    var after := rows[i := x];
    if key(x) == key(rows[i]) {
      forall k ensures HasKey(after, key, k) <==> HasKey(rows, key, k) {
        if HasKey(after, key, k) {
          var j :| 0 <= j < |after| && key(after[j]) == k;
          assert key(rows[j]) == k;
        }
        if HasKey(rows, key, k) {
          var j :| 0 <= j < |rows| && key(rows[j]) == k;
          assert key(after[j]) == k;
        }
      }
    }
  }

  /** Removing a row keeps keys unique and every other key present. */
  lemma KeysRemove<T, K>(rows: seq<T>, key: T -> K, i: nat)
    requires KeysUnique(rows, key) && i < |rows|
    ensures KeysUnique(RemoveAt(rows, i), key)
    ensures forall k :: k != key(rows[i]) ==> (HasKey(RemoveAt(rows, i), key, k) <==> HasKey(rows, key, k))
  {
    var after := RemoveAt(rows, i);
    forall k | k != key(rows[i]) ensures HasKey(after, key, k) <==> HasKey(rows, key, k) {
      if HasKey(rows, key, k) {
        var j :| 0 <= j < |rows| && key(rows[j]) == k;
        if j < i { assert after[j] == rows[j]; } else { assert after[j - 1] == rows[j]; }
      }
    }
  }

  /** The rows that `keep` accepts, in storage order (a `findMany` with a `where`). */
  function Filter<T(!new)>(rows: seq<T>, keep: T -> bool): (r: seq<T>)
    ensures |r| <= |rows|
    ensures forall x :: x in r <==> x in rows && keep(x)
  {
    if rows == [] then []
    else if keep(rows[0]) then [rows[0]] + Filter(rows[1..], keep)
    else Filter(rows[1..], keep)
  }

  /** Filtering keeps keys unique. */
  lemma {:induction false} FilterKeysUnique<T(!new), K>(rows: seq<T>, keep: T -> bool, key: T -> K)
    requires KeysUnique(rows, key)
    ensures KeysUnique(Filter(rows, keep), key)
  {
    if rows != [] {
      FilterKeysUnique(rows[1..], keep, key);
      var rest := Filter(rows[1..], keep);
      if keep(rows[0]) {
        var r := [rows[0]] + rest;
        forall i, j | 0 <= i < j < |r| ensures key(r[i]) != key(r[j]) {
          if i == 0 {
            assert r[j] in rows[1..];
            var m :| 0 <= m < |rows[1..]| && rows[1..][m] == r[j];
            assert rows[m + 1] == r[j];
          } else {
            assert r[i] == rest[i - 1] && r[j] == rest[j - 1];
          }
        }
      }
    }
  }

  /** Two tables with unique keys and no key in common concatenate to one with unique
      keys. */
  lemma ConcatKeysUnique<T, K>(a: seq<T>, b: seq<T>, key: T -> K)
    requires KeysUnique(a, key) && KeysUnique(b, key)
    requires forall x, y :: x in a && y in b ==> key(x) != key(y)
    ensures KeysUnique(a + b, key)
  {
    var ab := a + b;
    forall i, j | 0 <= i < j < |ab| ensures key(ab[i]) != key(ab[j]) {
      if j < |a| {
        assert ab[i] == a[i] && ab[j] == a[j];
      } else if i >= |a| {
        assert ab[i] == b[i - |a|] && ab[j] == b[j - |a|];
      } else {
        assert ab[i] == a[i] && ab[j] == b[j - |a|];
      }
    }
  }

  /** The rows without the one at position `i` (a `delete`). */
  function RemoveAt<T>(rows: seq<T>, i: nat): (r: seq<T>)
    requires i < |rows|
    ensures |r| == |rows| - 1
    ensures forall j :: 0 <= j < i ==> r[j] == rows[j]
    ensures forall j :: i <= j < |r| ==> r[j] == rows[j + 1]
  {
    rows[..i] + rows[i + 1..]
  }

  /** The rows a `skip`/`take` pair selects: at most `take` rows, starting at `skip`. */
  function Window<T>(rows: seq<T>, skip: nat, take: nat): (r: seq<T>)
    ensures |r| <= take
    ensures |r| == if skip >= |rows| then 0 else if skip + take <= |rows| then take else |rows| - skip
    ensures forall k :: 0 <= k < |r| ==> r[k] == rows[skip + k]
  {
    if skip >= |rows| then [] else if skip + take <= |rows| then rows[skip..skip + take] else rows[skip..]
  }

  /** `le` is total and transitive. */
  ghost predicate TotalPreorder<T(!new)>(le: (T, T) -> bool) {
    (forall a, b :: le(a, b) || le(b, a)) &&
    (forall a, b, c :: le(a, b) && le(b, c) ==> le(a, c))
  }

  ghost predicate SortedBy<T>(s: seq<T>, le: (T, T) -> bool) {
    forall i, j :: 0 <= i < j < |s| ==> le(s[i], s[j])
  }

  function Insert<T>(x: T, s: seq<T>, le: (T, T) -> bool): (r: seq<T>)
    ensures multiset(r) == multiset(s) + multiset{x}
  {
    if s == [] then [x]
    else if le(x, s[0]) then [x] + s
    else
      assert s == [s[0]] + s[1..];
      [s[0]] + Insert(x, s[1..], le)
  }

  /** A row that sorts before every row of a sorted sequence may go in front of it. */
  lemma PrependSorted<T(!new)>(x: T, s: seq<T>, le: (T, T) -> bool)
    requires SortedBy(s, le)
    requires forall y :: y in s ==> le(x, y)
    ensures SortedBy([x] + s, le)
  {
    var r := [x] + s;
    forall i, j | 0 <= i < j < |r| ensures le(r[i], r[j]) {
      if i == 0 {
        assert r[j] == s[j - 1];
      } else {
        assert r[i] == s[i - 1] && r[j] == s[j - 1];
      }
    }
  }

  lemma {:induction false} InsertSorted<T(!new)>(x: T, s: seq<T>, le: (T, T) -> bool)
    requires TotalPreorder(le) && SortedBy(s, le)
    ensures SortedBy(Insert(x, s, le), le)
  {
    if s == [] {
    } else if le(x, s[0]) {
      forall y | y in s ensures le(x, y) {
        var k :| 0 <= k < |s| && s[k] == y;
        if k > 0 { assert le(s[0], s[k]); }
      }
      PrependSorted(x, s, le);
    } else {
      var rest := Insert(x, s[1..], le);
      InsertSorted(x, s[1..], le);
      assert s == [s[0]] + s[1..];
      forall y | y in rest ensures le(s[0], y) {
        assert y in multiset(rest);
        if y != x {
          assert y in multiset(s[1..]);
          var k :| 0 <= k < |s[1..]| && s[1..][k] == y;
          assert s[k + 1] == y;
        }
      }
      PrependSorted(s[0], rest, le);
    }
  }

  /** The rows in the order `le` asks for (an `orderBy`); rows that compare equal keep their
      storage order. */
  function SortBy<T(!new)>(s: seq<T>, le: (T, T) -> bool): (r: seq<T>)
    requires TotalPreorder(le)
    ensures multiset(r) == multiset(s)
    ensures SortedBy(r, le)
  {
    if s == [] then []
    else
      assert s == [s[0]] + s[1..];
      InsertSorted(s[0], SortBy(s[1..], le), le);
      Insert(s[0], SortBy(s[1..], le), le)
  }

  /** Sorting keeps exactly the same rows. */
  lemma SortKeepsRows<T(!new)>(s: seq<T>, le: (T, T) -> bool)
    requires TotalPreorder(le)
    ensures forall x :: x in SortBy(s, le) <==> x in s
  {
    var r := SortBy(s, le);
    forall x ensures x in r <==> x in s {
      assert x in r <==> x in multiset(r);
      assert x in s <==> x in multiset(s);
    }
  }

  /** Code-point lexicographic order on strings. */
  predicate LexLe(a: string, b: string) {
    if a == [] then true
    else if b == [] then false
    else if a[0] != b[0] then a[0] < b[0]
    else LexLe(a[1..], b[1..])
  }

  lemma {:induction false} LexTotal(a: string, b: string)
    ensures LexLe(a, b) || LexLe(b, a)
  {
    if a != [] && b != [] && a[0] == b[0] {
      LexTotal(a[1..], b[1..]);
    }
  }

  lemma {:induction false} LexTransitive(a: string, b: string, c: string)
    requires LexLe(a, b) && LexLe(b, c)
    ensures LexLe(a, c)
  {
    if a != [] && b != [] && c != [] && a[0] == b[0] && b[0] == c[0] {
      LexTransitive(a[1..], b[1..], c[1..]);
    }
  }
}
