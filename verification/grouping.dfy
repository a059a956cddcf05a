/** GROUP BY key ... COUNT(*): one group per distinct key, in order of first
    appearance, built one row at a time. */
module Grouping {
  import opened Common
  import opened Sorting

  datatype Group<K> = Group(key: K, count: nat)

  /** How many times `k` occurs in `s`. */
  function Occurrences<K(==)>(s: seq<K>, k: K): nat {
    if |s| == 0 then 0
    else Occurrences(s[..|s| - 1], k) + (if s[|s| - 1] == k then 1 else 0)
  }

  /** Some group has key `k`. */
  predicate HasKey<K(==)>(gs: seq<Group<K>>, k: K) {
    exists i :: 0 <= i < |gs| && gs[i].key == k
  }

  /** No two groups share a key. */
  predicate DistinctKeys<K(==)>(gs: seq<Group<K>>) {
    forall i, j :: 0 <= i < j < |gs| ==> gs[i].key != gs[j].key
  }

  /** Sum of the counts of all groups. */
  function Total<K>(gs: seq<Group<K>>): nat {
    if |gs| == 0 then 0 else gs[0].count + Total(gs[1..])
  }

  /** Counts one more row with key `k`: bumps its group, or opens a new one at the end. */
  function AddKey<K(==)>(gs: seq<Group<K>>, k: K): (r: seq<Group<K>>)
    requires DistinctKeys(gs)
    ensures |r| == if HasKey(gs, k) then |gs| else |gs| + 1
    ensures forall i :: 0 <= i < |gs| ==> r[i].key == gs[i].key
    ensures forall i :: 0 <= i < |gs| ==>
      r[i].count == gs[i].count + (if gs[i].key == k then 1 else 0)
    ensures !HasKey(gs, k) ==> r[|gs|] == Group(k, 1)
    ensures Total(r) == Total(gs) + 1
  {
    if |gs| == 0 then [Group(k, 1)]
    else if gs[0].key == k then
      var r := [Group(k, gs[0].count + 1)] + gs[1..];
      assert r[1..] == gs[1..];
      r
    else
      var rest := AddKey(gs[1..], k);
      var r := [gs[0]] + rest;
      assert r[1..] == rest;
      assert HasKey(gs, k) ==> HasKey(gs[1..], k) by {
        if HasKey(gs, k) {
          var i :| 0 <= i < |gs| && gs[i].key == k;
          assert gs[1..][i - 1].key == k;
        }
      }
      assert HasKey(gs[1..], k) ==> HasKey(gs, k) by {
        if HasKey(gs[1..], k) {
          var i :| 0 <= i < |gs[1..]| && gs[1..][i].key == k;
          assert gs[i + 1].key == k;
        }
      }
      r
  }

  /** The facts GroupCount promises, for rows `keys` and groups `gs`. */
  ghost predicate GroupsOf<K(!new)>(gs: seq<Group<K>>, keys: seq<K>) {
    && DistinctKeys(gs)
    && (forall k :: HasKey(gs, k) <==> k in keys)
    && (forall i :: 0 <= i < |gs| ==> gs[i].count == Occurrences(keys, gs[i].key))
    && (forall i :: 0 <= i < |gs| ==> gs[i].count > 0)
    && Total(gs) == |keys|
  }

  /** The number of rows of a key that does not occur is zero. */
  lemma {:induction false} OccurrencesAbsent<K>(s: seq<K>, k: K)
    requires k !in s
    ensures Occurrences(s, k) == 0
  {
    if |s| > 0 {
      assert s[..|s| - 1] + [s[|s| - 1]] == s;
      OccurrencesAbsent(s[..|s| - 1], k);
    }
  }

  lemma AddKeyDistinct<K>(gs: seq<Group<K>>, k: K)
    requires DistinctKeys(gs)
    ensures DistinctKeys(AddKey(gs, k))
  {
    var r := AddKey(gs, k);
    forall i, j | 0 <= i < j < |r| ensures r[i].key != r[j].key {
      if j == |gs| {
        assert r[i].key == gs[i].key;
        assert !HasKey(gs, k);
      }
    }
  }

  lemma AddKeyMembers<K(!new)>(gs: seq<Group<K>>, front: seq<K>, last: K)
    requires DistinctKeys(gs)
    requires forall k :: HasKey(gs, k) <==> k in front
    ensures forall k :: HasKey(AddKey(gs, last), k) <==> k in front + [last]
  {
    var r := AddKey(gs, last);
    forall k ensures HasKey(r, k) <==> k in front + [last] {
      if HasKey(r, k) {
        var i :| 0 <= i < |r| && r[i].key == k;
        if i < |gs| {
          assert gs[i].key == k;
        }
      }
      if HasKey(gs, k) {
        var i :| 0 <= i < |gs| && gs[i].key == k;
        assert r[i].key == k;
      } else if k == last {
        assert r[|gs|].key == k;
      }
    }
  }

  lemma AddKeyCounts<K>(gs: seq<Group<K>>, front: seq<K>, last: K)
    requires DistinctKeys(gs)
    requires forall i :: 0 <= i < |gs| ==> gs[i].count == Occurrences(front, gs[i].key)
    requires forall i :: 0 <= i < |gs| ==> gs[i].count > 0
    requires !HasKey(gs, last) ==> last !in front
    ensures forall i :: 0 <= i < |AddKey(gs, last)| ==>
      AddKey(gs, last)[i].count == Occurrences(front + [last], AddKey(gs, last)[i].key)
    ensures forall i :: 0 <= i < |AddKey(gs, last)| ==> AddKey(gs, last)[i].count > 0
  {
    var keys := front + [last];
    var r := AddKey(gs, last);
    assert keys[..|keys| - 1] == front;
    if !HasKey(gs, last) {
      OccurrencesAbsent(front, last);
    }
  }

  /** Counting one more row keeps the groups faithful to the rows counted. */
  lemma AddKeyStep<K(!new)>(gs: seq<Group<K>>, front: seq<K>, last: K)
    requires GroupsOf(gs, front)
    ensures GroupsOf(AddKey(gs, last), front + [last])
  {
    AddKeyDistinct(gs, last);
    AddKeyMembers(gs, front, last);
    AddKeyCounts(gs, front, last);
  }

  /** One group per distinct key of `keys`, counting its rows. */
  function GroupCount<K(==,!new)>(keys: seq<K>): (r: seq<Group<K>>)
    ensures DistinctKeys(r)
    ensures forall k :: HasKey(r, k) <==> k in keys
    ensures forall i :: 0 <= i < |r| ==> r[i].count == Occurrences(keys, r[i].key)
    ensures forall i :: 0 <= i < |r| ==> r[i].count > 0
    ensures Total(r) == |keys|
  {
    if |keys| == 0 then []
    else
      var front := keys[..|keys| - 1];
      var last := keys[|keys| - 1];
      assert keys == front + [last];
      var gs := GroupCount(front);
      AddKeyStep(gs, front, last);
      AddKey(gs, last)
  }

  /** A key has rows exactly when it occurs. */
  lemma {:induction false} OccurrencesPositive<K>(s: seq<K>, k: K)
    ensures Occurrences(s, k) > 0 <==> k in s
  {
    if |s| > 0 {
      assert s == s[..|s| - 1] + [s[|s| - 1]];
      OccurrencesPositive(s[..|s| - 1], k);
    }
  }

  /** Every key that occurs has its group, counting all its rows. */
  lemma GroupOf<K(!new)>(keys: seq<K>, k: K) returns (i: nat)
    requires k in keys
    ensures i < |GroupCount(keys)| && GroupCount(keys)[i] == Group(k, Occurrences(keys, k))
  {
    var gs := GroupCount(keys);
    assert HasKey(gs, k);
    i :| 0 <= i < |gs| && gs[i].key == k;
  }

  /** Reordering groups (ORDER BY) keeps their keys distinct and their set of keys. */
  lemma GroupsPermutation<K(!new)>(gs: seq<Group<K>>, r: seq<Group<K>>)
    requires multiset(r) == multiset(gs)
    requires DistinctKeys(gs)
    ensures DistinctKeys(r)
    ensures forall k :: HasKey(r, k) <==> HasKey(gs, k)
    ensures forall i :: 0 <= i < |r| ==> r[i] in gs
  {
    forall i | 0 <= i < |r| ensures r[i] in gs {
      assert r[i] in multiset(r);
    }
    assert Distinct(gs);
    DistinctPermutation(gs, r);
    forall i, j | 0 <= i < j < |r| ensures r[i].key != r[j].key {
      var a :| 0 <= a < |gs| && gs[a] == r[i];
      var b :| 0 <= b < |gs| && gs[b] == r[j];
      assert r[i] != r[j];
    }
    forall k ensures HasKey(r, k) <==> HasKey(gs, k) {
      if HasKey(r, k) {
        var i :| 0 <= i < |r| && r[i].key == k;
        var a :| 0 <= a < |gs| && gs[a] == r[i];
      }
      if HasKey(gs, k) {
        var a :| 0 <= a < |gs| && gs[a].key == k;
        assert gs[a] in multiset(r);
        var i :| 0 <= i < |r| && r[i] == gs[a];
      }
    }
  }

  /** Inserting a group adds its count to the total. */
  lemma {:induction false} TotalInsert<K(!new)>(le: (Group<K>, Group<K>) -> bool, g: Group<K>, gs: seq<Group<K>>)
    requires TotalPreorder(le) && SortedBy(le, gs)
    ensures Total(Insert(le, g, gs)) == g.count + Total(gs)
  {
    if |gs| > 0 && !le(g, gs[0]) {
      TotalInsert(le, g, gs[1..]);
      assert SortedBy(le, gs[1..]);
      var r := Insert(le, g, gs);
      assert r == [gs[0]] + Insert(le, g, gs[1..]);
      assert r[1..] == Insert(le, g, gs[1..]);
    } else if |gs| > 0 {
      assert ([g] + gs)[1..] == gs;
    }
  }

  /** ORDER BY over groups keeps the sum of their counts. */
  lemma {:induction false} TotalSort<K(!new)>(le: (Group<K>, Group<K>) -> bool, gs: seq<Group<K>>)
    requires TotalPreorder(le)
    ensures Total(Sort(le, gs)) == Total(gs)
  {
    if |gs| > 0 {
      TotalSort(le, gs[1..]);
      TotalInsert(le, gs[0], Sort(le, gs[1..]));
    }
  }
}
