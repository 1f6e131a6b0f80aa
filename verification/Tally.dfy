/**
 A table of running totals that holds at most `cap` keys: a full one goes on counting the keys it
 has and takes no new one.
 */
module Tally {
  type Table<!K> = map<K, int>

  datatype Entry<K> = Entry(key: K, amount: int)

  function Amount<K>(m: Table<K>, k: K): int {
    if k in m then m[k] else 0
  }

  predicate Takes<K>(m: Table<K>, cap: nat, k: K) {
    |m| < cap || k in m
  }

  function Added<K>(m: Table<K>, cap: nat, e: Entry<K>): Table<K> {
    if Takes(m, cap, e.key) then m[e.key := Amount(m, e.key) + e.amount] else m
  }

  function AddedAll<K>(m: Table<K>, cap: nat, entries: seq<Entry<K>>): Table<K> {
    if entries == [] then m
    else Added(AddedAll(m, cap, entries[..|entries| - 1]), cap, entries[|entries| - 1])
  }

  function KeysOf<K>(entries: seq<Entry<K>>): set<K> {
    if entries == [] then {} else KeysOf(entries[..|entries| - 1]) + {entries[|entries| - 1].key}
  }

  function Total<K(==)>(entries: seq<Entry<K>>, k: K): int {
    if entries == [] then 0
    else Total(entries[..|entries| - 1], k) + (if entries[|entries| - 1].key == k then entries[|entries| - 1].amount else 0)
  }

  lemma AddedLast<K>(m: Table<K>, cap: nat, entries: seq<Entry<K>>, e: Entry<K>)
    ensures AddedAll(m, cap, entries + [e]) == Added(AddedAll(m, cap, entries), cap, e)
  {
    assert (entries + [e])[..|entries|] == entries;
  }

  lemma TotalLast<K>(entries: seq<Entry<K>>, e: Entry<K>, k: K)
    ensures Total(entries + [e], k) == Total(entries, k) + (if e.key == k then e.amount else 0)
  {
    assert (entries + [e])[..|entries|] == entries;
  }

  lemma AddKeepsBound<K>(m: Table<K>, cap: nat, e: Entry<K>)
    requires |m| <= cap
    ensures |Added(m, cap, e)| <= cap
    ensures m.Keys <= Added(m, cap, e).Keys <= m.Keys + {e.key}
  {
    if Takes(m, cap, e.key) {
      assert m[e.key := Amount(m, e.key) + e.amount].Keys == m.Keys + {e.key};
    }
  }

  /** The table never outgrows its bound and forgets no key. */
  lemma {:induction false} KeepsBound<K>(m: Table<K>, cap: nat, entries: seq<Entry<K>>)
    requires |m| <= cap
    ensures |AddedAll(m, cap, entries)| <= cap
    ensures m.Keys <= AddedAll(m, cap, entries).Keys <= m.Keys + KeysOf(entries)
  {
    if entries == [] {
    } else {
      KeepsBound(m, cap, entries[..|entries| - 1]);
      AddKeepsBound(AddedAll(m, cap, entries[..|entries| - 1]), cap, entries[|entries| - 1]);
    }
  }

  /** A key gets everything added to it, or nothing: and nothing only when it was absent from a full table. */
  lemma {:induction false} AllOrNothing<K>(m: Table<K>, cap: nat, entries: seq<Entry<K>>, k: K)
    requires |m| <= cap
    ensures var after := AddedAll(m, cap, entries);
      || Amount(after, k) == Amount(m, k) + Total(entries, k)
      || (k in KeysOf(entries) && k !in m && k !in after && |after| == cap)
  {
    if entries == [] {
    } else {
      var rest, last := entries[..|entries| - 1], entries[|entries| - 1];
      AllOrNothing(m, cap, rest, k);
      KeepsBound(m, cap, rest);
      AddKeepsBound(AddedAll(m, cap, rest), cap, last);
    }
  }

  lemma {:induction false} NotAmong<K>(entries: seq<Entry<K>>, k: K)
    requires forall i :: 0 <= i < |entries| ==> entries[i].key != k
    ensures Total(entries, k) == 0 && k !in KeysOf(entries)
  {
    if entries == [] {
    } else {
      NotAmong(entries[..|entries| - 1], k);
    }
  }

  lemma AddWithRoom<K>(m: Table<K>, cap: nat, e: Entry<K>)
    requires |m.Keys + {e.key}| <= cap
    ensures Added(m, cap, e).Keys == m.Keys + {e.key}
  {
    if e.key !in m {
      assert |m.Keys + {e.key}| == |m.Keys| + 1;
    }
    assert m[e.key := Amount(m, e.key) + e.amount].Keys == m.Keys + {e.key};
  }

  lemma Smaller<K>(a: set<K>, b: set<K>)
    requires a <= b
    ensures |a| <= |b|
  {
    assert b == a + (b - a);
  }

  lemma {:induction false} FitsWhole<K>(m: Table<K>, cap: nat, entries: seq<Entry<K>>)
    requires |m| <= cap && |m.Keys + KeysOf(entries)| <= cap
    ensures AddedAll(m, cap, entries).Keys == m.Keys + KeysOf(entries)
  {
    if entries == [] {
    } else {
      var rest, last := entries[..|entries| - 1], entries[|entries| - 1];
      Smaller(m.Keys + KeysOf(rest), m.Keys + KeysOf(entries));
      FitsWhole(m, cap, rest);
      assert m.Keys + KeysOf(entries) == AddedAll(m, cap, rest).Keys + {last.key};
      AddWithRoom(AddedAll(m, cap, rest), cap, last);
    }
  }

  /** Every key is taken, and so every amount, exactly when all of them fit. */
  lemma {:induction false} WholeIffFits<K>(m: Table<K>, cap: nat, entries: seq<Entry<K>>, k: K)
    requires |m| <= cap
    ensures AddedAll(m, cap, entries).Keys == m.Keys + KeysOf(entries) <==> |m.Keys + KeysOf(entries)| <= cap
    ensures |m.Keys + KeysOf(entries)| <= cap
      ==> Amount(AddedAll(m, cap, entries), k) == Amount(m, k) + Total(entries, k)
  {
    KeepsBound(m, cap, entries);
    AllOrNothing(m, cap, entries, k);
    if |m.Keys + KeysOf(entries)| <= cap {
      FitsWhole(m, cap, entries);
    } else {
      assert |AddedAll(m, cap, entries).Keys| == |AddedAll(m, cap, entries)|;
    }
  }

  /** Adding in two goes is adding in one. */
  lemma {:induction false} InTwoGoes<K>(m: Table<K>, cap: nat, first: seq<Entry<K>>, second: seq<Entry<K>>)
    ensures AddedAll(m, cap, first + second) == AddedAll(AddedAll(m, cap, first), cap, second)
  {
    if second == [] {
      assert first + second == first;
    } else {
      var both := first + second;
      assert both[..|both| - 1] == first + second[..|second| - 1];
      assert both[|both| - 1] == second[|second| - 1];
      InTwoGoes(m, cap, first, second[..|second| - 1]);
    }
  }
}
