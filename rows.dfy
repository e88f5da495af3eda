/** Table scans as a storage engine performs them: rows and documents are kept in
    storage order, "the first row where ..." is what `fetchone()`, `.first()` and
    `find_one` return, and "every row where ..." is what `fetchall()` and `find`
    return. */
module Rows {

  datatype Option<T> = None | Some(value: T)

  /** Index of the first row that satisfies `p`, or None when no row does. */
  function First<T>(rows: seq<T>, p: T -> bool): (r: Option<nat>)
    ensures r.Some? ==> r.value < |rows| && p(rows[r.value])
    ensures r.Some? ==> forall j :: 0 <= j < r.value ==> !p(rows[j])
    ensures r.None? <==> forall j :: 0 <= j < |rows| ==> !p(rows[j])
  {
    if |rows| == 0 then None
    else if p(rows[0]) then Some(0)
    else match First(rows[1..], p)
      case None => None
      case Some(i) => Some(i + 1)
  }

  /** Appending a row never changes which row is found first once one is. */
  lemma {:induction false} FirstAppend<T>(rows: seq<T>, x: T, p: T -> bool)
    requires First(rows, p).Some?
    ensures First(rows + [x], p) == First(rows, p)
  {
    assert (rows + [x])[0] == rows[0];
    if !p(rows[0]) {
      assert (rows + [x])[1..] == rows[1..] + [x];
      FirstAppend(rows[1..], x, p);
    }
  }

  /** The rows that satisfy `p`, in storage order (see WhereKeepsPairwise). */
  function Where<T(!new)>(rows: seq<T>, p: T -> bool): (r: seq<T>)
    ensures |r| <= |rows|
    ensures forall x :: x in r <==> x in rows && p(x)
  {
    if |rows| == 0 then []
    else (if p(rows[0]) then [rows[0]] else []) + Where(rows[1..], p)
  }

  /** No element occurs twice, as in the reply to a `KEYS` command. */
  ghost predicate Distinct<K>(ks: seq<K>)
  {
    forall i, j :: 0 <= i < j < |ks| ==> ks[i] != ks[j]
  }

  /** What a loop over `ks` appends: `f(k)` for each key in order, skipping
      the keys `f` yields nothing for. */
  function Collect<K, V>(ks: seq<K>, f: K -> Option<V>): seq<V>
  {
    if ks == [] then []
    else
      var k := ks[|ks| - 1];
      Collect(ks[..|ks| - 1], f) + (if f(k).Some? then [f(k).value] else [])
  }

  /** One more key of a prefix adds that key's value, if it has one. */
  lemma CollectPrefixStep<K, V>(ks: seq<K>, i: nat, f: K -> Option<V>)
    requires i < |ks|
    ensures Collect(ks[..i + 1], f) == Collect(ks[..i], f) + (if f(ks[i]).Some? then [f(ks[i]).value] else [])
  {
    assert ks[..i + 1][..i] == ks[..i];
  }

  /** The loop collects the value of every key that yields one, and nothing else. */
  lemma {:induction false} CollectHas<K, V>(ks: seq<K>, f: K -> Option<V>, v: V)
    ensures v in Collect(ks, f) <==> exists k :: k in ks && f(k) == Some(v)
  {
    if ks != [] {
      var init := ks[..|ks| - 1];
      var last := ks[|ks| - 1];
      CollectHas(init, f, v);
      assert ks == init + [last];
      assert Collect(ks, f) == Collect(init, f) + (if f(last).Some? then [f(last).value] else []);
      if v in Collect(init, f) {
        var k :| k in init && f(k) == Some(v);
        assert k in ks;
      }
      if exists k :: k in ks && f(k) == Some(v) {
        var k :| k in ks && f(k) == Some(v);
        if k != last {
          assert k in init;
        }
      }
    }
  }

  lemma CollectMembers<K, V>(ks: seq<K>, f: K -> Option<V>)
    ensures forall v :: v in Collect(ks, f) <==> exists k :: k in ks && f(k) == Some(v)
  {
    forall v {
      CollectHas(ks, f, v);
    }
  }

  /** The keys of `ks` that yield a value. */
  ghost function Yielding<K, V>(ks: seq<K>, f: K -> Option<V>): set<K>
  {
    set k | k in ks && f(k).Some?
  }

  /** Over distinct keys the loop collects one value per key that yields one. */
  lemma {:induction false} CollectCount<K, V>(ks: seq<K>, f: K -> Option<V>)
    requires Distinct(ks)
    ensures |Collect(ks, f)| == |Yielding(ks, f)|
  {
    if ks != [] {
      var init := ks[..|ks| - 1];
      var last := ks[|ks| - 1];
      CollectCount(init, f);
      assert ks == init + [last];
      assert last !in init by {
        forall j | 0 <= j < |init| ensures init[j] != last {
          assert init[j] == ks[j];
        }
      }
      if f(last).Some? {
        assert Yielding(ks, f) == Yielding(init, f) + {last};
      } else {
        assert Yielding(ks, f) == Yielding(init, f);
      }
    }
  }

  /** The keys of `ks` that yield `v`. */
  ghost function YieldingValue<K, V>(ks: seq<K>, f: K -> Option<V>, v: V): set<K>
  {
    set k | k in ks && f(k) == Some(v)
  }

  /** Over distinct keys the loop collects each value once per key that
      yields it, so equal values held by several keys all appear. */
  lemma {:induction false} CollectMultiplicity<K, V>(ks: seq<K>, f: K -> Option<V>, v: V)
    requires Distinct(ks)
    ensures multiset(Collect(ks, f))[v] == |YieldingValue(ks, f, v)|
  {
    if ks != [] {
      var init := ks[..|ks| - 1];
      var last := ks[|ks| - 1];
      assert Distinct(init) by {
        forall i, j | 0 <= i < j < |init| ensures init[i] != init[j] {
          assert init[i] == ks[i] && init[j] == ks[j];
        }
      }
      CollectMultiplicity(init, f, v);
      assert last !in init by {
        forall j | 0 <= j < |init| ensures init[j] != last {
          assert init[j] == ks[j];
        }
      }
      assert ks == init + [last];
      YieldingValueSnoc(init, last, f, v);
      CollectSnocCount(init, last, f, v);
    }
  }

  /** One more key adds one to the count of `v` exactly when it yields `v`. */
  lemma YieldingValueSnoc<K, V>(init: seq<K>, last: K, f: K -> Option<V>, v: V)
    requires last !in init
    ensures |YieldingValue(init + [last], f, v)| == |YieldingValue(init, f, v)| + (if f(last) == Some(v) then 1 else 0)
  {
    if f(last) == Some(v) {
      assert YieldingValue(init + [last], f, v) == YieldingValue(init, f, v) + {last};
    } else {
      assert YieldingValue(init + [last], f, v) == YieldingValue(init, f, v);
    }
  }

  /** One more key adds `f(last)` to what the loop collects. */
  lemma CollectSnocCount<K, V>(init: seq<K>, last: K, f: K -> Option<V>, v: V)
    ensures multiset(Collect(init + [last], f))[v] == multiset(Collect(init, f))[v] + (if f(last) == Some(v) then 1 else 0)
  {
    var ks := init + [last];
    assert ks[..|ks| - 1] == init && ks[|ks| - 1] == last;
    var e := if f(last).Some? then [f(last).value] else [];
    assert Collect(ks, f) == Collect(init, f) + e;
    assert multiset(Collect(ks, f)) == multiset(Collect(init, f)) + multiset(e);
  }

  /** Every row stands in relation `before` to every later row (ascending keys,
      distinct unique columns). */
  ghost predicate Pairwise<T>(rows: seq<T>, before: (T, T) -> bool)
  {
    forall i, j :: 0 <= i < j < |rows| ==> before(rows[i], rows[j])
  }

  /** Keys strictly increase along `s`, as rowids do along a table. */
  ghost predicate StrictlyAscending<T>(s: seq<T>, key: T -> int)
  {
    forall i, j :: 0 <= i < j < |s| ==> key(s[i]) < key(s[j])
  }

  /** The tail of an ascending sequence ascends, above its head. */
  lemma AscendingTail<T>(s: seq<T>, key: T -> int)
    requires |s| > 0 && StrictlyAscending(s, key)
    ensures StrictlyAscending(s[1..], key)
    ensures forall x :: x in s[1..] ==> key(s[0]) < key(x)
    ensures s == [s[0]] + s[1..]
  {
    forall i, j | 0 <= i < j < |s| - 1 ensures key(s[1..][i]) < key(s[1..][j]) {
      assert s[1..][i] == s[i + 1] && s[1..][j] == s[j + 1];
    }
  }

  /** A result in strictly ascending key order is fixed by its members: it
      holds each of them once, in key order. */
  lemma {:induction false} AscendingSameMembers<T>(a: seq<T>, b: seq<T>, key: T -> int)
    requires StrictlyAscending(a, key) && StrictlyAscending(b, key)
    requires forall x :: x in a <==> x in b
    ensures a == b
  {
    if |a| > 0 {
      assert a[0] in b;
    }
    if |b| > 0 {
      assert b[0] in a;
    }
    if |a| > 0 && |b| > 0 {
      AscendingTail(a, key);
      AscendingTail(b, key);
      assert a[0] == b[0];
      forall x ensures x in a[1..] <==> x in b[1..] {
        assert x in a <==> x == a[0] || x in a[1..];
        assert x in b <==> x == b[0] || x in b[1..];
      }
      AscendingSameMembers(a[1..], b[1..], key);
    }
  }

  /** Selecting rows keeps their relative order, so a table constraint stated
      pairwise holds of every selection. */
  lemma {:induction false} WhereKeepsPairwise<T(!new)>(rows: seq<T>, p: T -> bool, before: (T, T) -> bool)
    requires Pairwise(rows, before)
    ensures Pairwise(Where(rows, p), before)
  {
    if |rows| > 0 {
      var tail := rows[1..];
      assert Pairwise(tail, before) by {
        forall i, j | 0 <= i < j < |tail| ensures before(tail[i], tail[j]) {
          assert tail[i] == rows[i + 1] && tail[j] == rows[j + 1];
        }
      }
      WhereKeepsPairwise(tail, p, before);
      var rest := Where(tail, p);
      var r := Where(rows, p);
      if p(rows[0]) {
        assert r == [rows[0]] + rest;
        forall i, j | 0 <= i < j < |r| ensures before(r[i], r[j]) {
          if i == 0 {
            assert r[j] in tail;
            var k :| 0 <= k < |tail| && tail[k] == r[j];
            assert rows[k + 1] == r[j];
          } else {
            assert r[i] == rest[i - 1] && r[j] == rest[j - 1];
          }
        }
      } else {
        assert r == rest;
      }
    }
  }

  /** Appending a row to a table extends every selection by that row when it
      qualifies. */
  lemma {:induction false} WhereAppend<T(!new)>(rows: seq<T>, x: T, p: T -> bool)
    ensures Where(rows + [x], p) == Where(rows, p) + (if p(x) then [x] else [])
  {
    if |rows| == 0 {
      assert rows + [x] == [x];
    } else {
      var t := rows[1..];
      var h := if p(rows[0]) then [rows[0]] else [];
      assert (rows + [x])[0] == rows[0] && (rows + [x])[1..] == t + [x];
      WhereAppend(t, x, p);
      Associative(h, Where(t, p), if p(x) then [x] else []);
    }
  }

  lemma Associative<T>(a: seq<T>, b: seq<T>, c: seq<T>)
    ensures a + (b + c) == (a + b) + c
  {
  }

  /** Removing one row keeps a pairwise constraint. */
  lemma RemoveKeepsPairwise<T>(rows: seq<T>, i: int, before: (T, T) -> bool)
    requires 0 <= i < |rows|
    requires Pairwise(rows, before)
    ensures Pairwise(rows[..i] + rows[i + 1..], before)
  {
    var r := rows[..i] + rows[i + 1..];
    forall a, b | 0 <= a < b < |r| ensures before(r[a], r[b]) {
      var a' := if a < i then a else a + 1;
      var b' := if b < i then b else b + 1;
      assert r[a] == rows[a'] && r[b] == rows[b'];
    }
  }

  /** A selection that only row `i` fails is the table without that row. */
  lemma {:induction false} WhereDropsOne<T(!new)>(rows: seq<T>, i: int, p: T -> bool)
    requires 0 <= i < |rows|
    requires !p(rows[i])
    requires forall j :: 0 <= j < |rows| && j != i ==> p(rows[j])
    ensures Where(rows, p) == rows[..i] + rows[i + 1..]
  {
    var tail := rows[1..];
    forall j | 0 <= j < |tail| && j != i - 1 ensures p(tail[j]) {
      assert tail[j] == rows[j + 1];
    }
    if i == 0 {
      WhereAll(tail, p);
      assert rows[..0] + rows[1..] == tail;
    } else {
      WhereDropsOne(tail, i - 1, p);
      WithoutIsConsed(rows, i);
    }
  }

  /** Dropping a row other than the first keeps the first in front. */
  lemma WithoutIsConsed<T>(rows: seq<T>, i: int)
    requires 0 < i < |rows|
    ensures rows[..i] + rows[i + 1..] == [rows[0]] + (rows[1..][..i - 1] + rows[1..][i..])
  {
    assert rows[..i] == [rows[0]] + rows[1..][..i - 1];
    assert rows[i + 1..] == rows[1..][i..];
  }

  /** A selection that every row passes is the whole table. */
  lemma {:induction false} WhereAll<T(!new)>(rows: seq<T>, p: T -> bool)
    requires forall x :: x in rows ==> p(x)
    ensures Where(rows, p) == rows
  {
    if |rows| > 0 {
      assert forall x :: x in rows[1..] ==> x in rows;
      WhereAll(rows[1..], p);
      assert rows == [rows[0]] + rows[1..];
    }
  }
}
