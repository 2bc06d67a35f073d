/** Counting and ordering over finite tables, and the two ends of a list. */
module Finite {

  /** Two sets whose members name each other have the same size. */
  lemma {:induction false} NamingEachOther<A, B>(names: set<A>, things: set<B>, thing: map<A, B>, name: map<B, A>)
    requires forall a :: a in names ==> a in thing && thing[a] in things && thing[a] in name && name[thing[a]] == a
    requires forall b :: b in things ==> b in name && name[b] in names && name[b] in thing && thing[name[b]] == b
    ensures |names| == |things|
  {
    if names == {} {
      assert things == {} by {
        if b :| b in things {
          assert name[b] in names;
        }
      }
    } else {
      var a :| a in names;
      NamingEachOther(names - {a}, things - {thing[a]}, thing, name);
    }
  }

  lemma {:induction false} Latest<K>(keys: set<K>, at: map<K, nat>) returns (k: K)
    requires keys != {} && keys <= at.Keys
    ensures k in keys && forall j :: j in keys ==> at[j] <= at[k]
  {
    var x :| x in keys;
    k := x;
    if keys != {x} {
      var y := Latest(keys - {x}, at);
      k := if at[x] <= at[y] then y else x;
    }
  }

  /** Any finite set of keys can be listed in order of time, each once. */
  lemma {:induction false} InOrder<K>(keys: set<K>, at: map<K, nat>) returns (order: seq<K>)
    requires keys <= at.Keys
    ensures forall k :: k in keys <==> k in order
    ensures forall i, j ::
              0 <= i < j < |order| ==>
                order[i] != order[j] && order[i] in at && order[j] in at && at[order[i]] <= at[order[j]]
  {
    if keys == {} {
      order := [];
    } else {
      var k := Latest(keys, at);
      var before := InOrder(keys - {k}, at);
      order := before + [k];
    }
  }

  /** The rows under some keys, each once, in order of time. */
  lemma {:induction false} RowsInOrder<K, R>(table: map<K, R>, keys: set<K>, at: map<K, nat>)
    returns (order: seq<K>, rows: seq<R>)
    requires keys <= table.Keys && keys <= at.Keys
    ensures |rows| == |order| && forall i :: 0 <= i < |order| ==> order[i] in keys && rows[i] == table[order[i]]
    ensures forall i, j :: 0 <= i < j < |order| ==> order[i] != order[j] && at[order[i]] <= at[order[j]]
    ensures forall k :: k in keys ==> table[k] in rows
  {
    order := InOrder(keys, at);
    assert forall i :: 0 <= i < |order| ==> order[i] in keys;
    rows := seq(|order|, i requires 0 <= i < |order| => table[order[i]]);
    forall k | k in keys ensures table[k] in rows {
      var i :| 0 <= i < |order| && order[i] == k;
      assert rows[i] == table[k];
    }
  }

  /**
   * When receipts and the rows that do not wait name each other, receipts and waiting rows together are as many as the
   * rows.
   */
  lemma {:induction false} Balance<K, I>(rows: set<K>, waiting: set<K>, receipts: set<I>, row: map<I, K>,
                                         receipt: map<K, I>)
    requires waiting <= rows
    requires forall i ::
               i in receipts ==> i in row && row[i] in rows - waiting && row[i] in receipt && receipt[row[i]] == i
    requires forall k ::
               k in rows - waiting ==>
                 k in receipt && receipt[k] in receipts && receipt[k] in row && row[receipt[k]] == k
    ensures |receipts| + |waiting| == |rows|
  {
    NamingEachOther(receipts, rows - waiting, row, receipt);
    assert rows == waiting + (rows - waiting);
  }

  // ----- the ends of a list

  function Take<T>(s: seq<T>, n: nat): seq<T> { if |s| <= n then s else s[..n] }

  function Drop<T>(s: seq<T>, n: nat): seq<T> { if |s| <= n then [] else s[n..] }

  lemma TakenOrDropped<T>(s: seq<T>, n: nat, x: T)
    ensures x in s <==> x in Take(s, n) || x in Drop(s, n)
    ensures Take(s, n) + Drop(s, n) == s
  {
    assert Take(s, n) + Drop(s, n) == s;
  }

  /** No element twice: by place, and by count. */
  lemma {:induction false} DistinctExactly<T>(s: seq<T>)
    ensures (forall i, j :: 0 <= i < j < |s| ==> s[i] != s[j]) <==> forall id :: multiset(s)[id] < 2
  {
    if s != [] {
      var n := |s| - 1;
      assert s == s[..n] + [s[n]];
      DistinctExactly(s[..n]);
      assert multiset(s) == multiset(s[..n]) + multiset{s[n]};
      if forall id :: multiset(s)[id] < 2 {
        assert multiset(s)[s[n]] == multiset(s[..n])[s[n]] + 1;
        forall id ensures multiset(s[..n])[id] < 2 {
          assert multiset(s)[id] == multiset(s[..n])[id] + multiset{s[n]}[id];
        }
        forall i | 0 <= i < n ensures s[i] != s[n] {
          assert s[..n][i] in s[..n];
        }
      }
    }
  }
}
