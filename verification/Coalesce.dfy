/**
 Coalescing a batch of updates: only the last update of each key is kept, in the order of those
 last updates.
 */
module Coalesce {

  /** An update sets a key, or deletes it. */
  datatype Update<K, V> = Update(key: K, delete: bool, value: V)

  ghost function ApplyOne<K, V>(m: map<K, V>, u: Update<K, V>): map<K, V> {
    if u.delete then m - {u.key} else m[u.key := u.value]
  }

  /** The map after the updates, taken in order. */
  ghost function ApplyAll<K, V>(m: map<K, V>, us: seq<Update<K, V>>): map<K, V>
    decreases |us|
  {
    if us == [] then m else ApplyAll(ApplyOne(m, us[0]), us[1..])
  }

  ghost predicate Mentions<K, V>(us: seq<Update<K, V>>, k: K) {
    exists i :: 0 <= i < |us| && us[i].key == k
  }

  /** The updates that are the last of their key. */
  ghost function LastOnly<K, V>(us: seq<Update<K, V>>): seq<Update<K, V>> {
    if us == [] then []
    else if Mentions(us[1..], us[0].key) then LastOnly(us[1..])
    else [us[0]] + LastOnly(us[1..])
  }

  /** The positions they come from. */
  ghost function LastPositions<K, V>(us: seq<Update<K, V>>, from: nat): seq<nat>
    requires from <= |us|
    decreases |us| - from
  {
    if from == |us| then []
    else if Mentions(us[from + 1..], us[from].key) then LastPositions(us, from + 1)
    else [from] + LastPositions(us, from + 1)
  }

  lemma {:induction false} PositionsInRange<K, V>(us: seq<Update<K, V>>, from: nat, i: nat)
    requires from <= |us| && i < |LastPositions(us, from)|
    ensures from <= LastPositions(us, from)[i] < |us|
    decreases |us| - from
  {
    var rest := us[from + 1..];
    if Mentions(rest, us[from].key) {
      PositionsInRange(us, from + 1, i);
    } else if i > 0 {
      PositionsInRange(us, from + 1, i - 1);
    }
  }

  /** The positions increase. */
  lemma {:induction false} PositionsIncrease<K, V>(us: seq<Update<K, V>>, from: nat, i: nat, j: nat)
    requires from <= |us| && i < j < |LastPositions(us, from)|
    ensures LastPositions(us, from)[i] < LastPositions(us, from)[j]
    decreases |us| - from
  {
    var rest := us[from + 1..];
    if Mentions(rest, us[from].key) {
      PositionsIncrease(us, from + 1, i, j);
    } else if i > 0 {
      PositionsIncrease(us, from + 1, i - 1, j - 1);
    } else {
      PositionsInRange(us, from + 1, j - 1);
    }
  }

  /** The kept updates are those at these positions, in the same order. */
  lemma {:induction false} KeepsOrder<K, V>(us: seq<Update<K, V>>, from: nat, i: nat)
    requires from <= |us|
    ensures
      var p, kept := LastPositions(us, from), LastOnly(us[from..]);
      |p| == |kept| && (i < |p| ==> p[i] < |us| && kept[i] == us[p[i]])
    decreases |us| - from
  {
    if from < |us| {
      var u, rest := us[from], us[from + 1..];
      assert us[from..] == [u] + rest && us[from..][1..] == rest;
      if Mentions(rest, u.key) {
        KeepsOrder(us, from + 1, i);
      } else {
        KeepsOrder(us, from + 1, if i == 0 then 0 else i - 1);
      }
    }
  }

  /** Those positions are exactly the ones after which their key does not recur. */
  lemma {:induction false} KeepsLastOccurrences<K, V>(us: seq<Update<K, V>>, from: nat, x: nat)
    requires from <= x < |us|
    ensures x in LastPositions(us, from) <==> !Mentions(us[x + 1..], us[x].key)
    decreases |us| - from
  {
    if from < x {
      KeepsLastOccurrences(us, from + 1, x);
    } else {
      PositionsAfter(us, from + 1, x);
    }
  }

  lemma {:induction false} PositionsAfter<K, V>(us: seq<Update<K, V>>, from: nat, x: nat)
    requires x < from <= |us|
    ensures x !in LastPositions(us, from)
    decreases |us| - from
  {
    if from < |us| {
      PositionsAfter(us, from + 1, x);
    }
  }

  /** The map after the updates has, of every key, what its last update says; without one, what it had. */
  lemma {:induction false} LastUpdateCounts<K, V>(m: map<K, V>, us: seq<Update<K, V>>, k: K)
    ensures !Mentions(us, k) ==> (k in ApplyAll(m, us) <==> k in m) && (k in m ==> ApplyAll(m, us)[k] == m[k])
    ensures forall i {:trigger us[i]} :: 0 <= i < |us| && us[i].key == k && !Mentions(us[i + 1..], k) ==>
      && (k in ApplyAll(m, us) <==> !us[i].delete)
      && (k in ApplyAll(m, us) ==> ApplyAll(m, us)[k] == us[i].value)
    decreases |us|
  {
    if us != [] {
      var rest := us[1..];
      LastUpdateCounts(ApplyOne(m, us[0]), rest, k);
      assert Mentions(us, k) <==> us[0].key == k || Mentions(rest, k) by {
        if Mentions(us, k) {
          var i :| 0 <= i < |us| && us[i].key == k;
          assert i == 0 || rest[i - 1].key == k;
        }
        if i :| 0 <= i < |rest| && rest[i].key == k {
          assert us[i + 1].key == k;
        }
      }
      forall i | 0 < i < |us|
        ensures us[i + 1..] == rest[i..] && us[i] == rest[i - 1]
      {
      }
    }
  }

  lemma {:induction false} LastOnlyMentions<K, V>(us: seq<Update<K, V>>, k: K)
    ensures Mentions(LastOnly(us), k) <==> Mentions(us, k)
  {
    if us != [] {
      var rest := us[1..];
      LastOnlyMentions(rest, k);
      assert Mentions(us, k) <==> us[0].key == k || Mentions(rest, k) by {
        if Mentions(us, k) {
          var i :| 0 <= i < |us| && us[i].key == k;
          assert i > 0 ==> rest[i - 1].key == k;
        }
        if Mentions(rest, k) {
          var i :| 0 <= i < |rest| && rest[i].key == k;
          assert us[i + 1].key == k;
        }
      }
      if !Mentions(rest, us[0].key) {
        var kept := LastOnly(us);
        assert kept == [us[0]] + LastOnly(rest);
        if Mentions(LastOnly(rest), k) {
          var i :| 0 <= i < |LastOnly(rest)| && LastOnly(rest)[i].key == k;
          assert kept[i + 1].key == k;
        }
        if Mentions(kept, k) {
          var i :| 0 <= i < |kept| && kept[i].key == k;
          assert i > 0 ==> LastOnly(rest)[i - 1].key == k;
        }
        assert us[0].key == k ==> kept[0].key == k;
      }
    }
  }

  ghost predicate UniqueKeys<K, V>(us: seq<Update<K, V>>) {
    forall i, j :: 0 <= i < j < |us| ==> us[i].key != us[j].key
  }

  lemma {:induction false} LastOnlyUnique<K, V>(us: seq<Update<K, V>>)
    ensures UniqueKeys(LastOnly(us))
  {
    if us != [] {
      LastOnlyUnique(us[1..]);
      LastOnlyMentions(us[1..], us[0].key);
    }
  }

  /** Maps that differ only at a key an update is going to touch end up the same. */
  lemma {:induction false} TouchedKeyForgets<K, V>(m: map<K, V>, m': map<K, V>, us: seq<Update<K, V>>, k: K)
    requires m - {k} == m' - {k} && Mentions(us, k)
    ensures ApplyAll(m, us) == ApplyAll(m', us)
    decreases |us|
  {
    var a, b := ApplyOne(m, us[0]), ApplyOne(m', us[0]);
    assert forall x :: x != k ==> (x in m <==> x in m - {k}) && (x in m' <==> x in m' - {k});
    assert forall x :: x != k && x in m ==> m[x] == (m - {k})[x] && m'[x] == (m' - {k})[x];
    if us[0].key == k {
      assert a == b;
    } else {
      assert a - {k} == b - {k};
      var i :| 0 <= i < |us| && us[i].key == k;
      assert us[1..][i - 1].key == k;
      TouchedKeyForgets(a, b, us[1..], k);
    }
  }

  /** Applying the coalesced updates gives the same map as applying all of them. */
  lemma {:induction false} CoalescingKeepsMeaning<K, V>(m: map<K, V>, us: seq<Update<K, V>>)
    ensures ApplyAll(m, LastOnly(us)) == ApplyAll(m, us)
    decreases |us|
  {
    if us != [] {
      var u, rest := us[0], us[1..];
      if Mentions(rest, u.key) {
        CoalescingKeepsMeaning(m, rest);
        assert ApplyOne(m, u) - {u.key} == m - {u.key};
        TouchedKeyForgets(m, ApplyOne(m, u), rest, u.key);
      } else {
        CoalescingKeepsMeaning(ApplyOne(m, u), rest);
        assert ([u] + LastOnly(rest))[1..] == LastOnly(rest);
      }
    }
  }

  ghost function Reverse<T>(s: seq<T>): (r: seq<T>)
    ensures |r| == |s| && forall i :: 0 <= i < |s| ==> r[i] == s[|s| - 1 - i]
  {
    seq(|s|, i requires 0 <= i < |s| => s[|s| - 1 - i])
  }

  /** Backwards over the batch, keeping the first update met for each key, then reversed in place. */
  method CoalesceUpdates<K(==), V>(updates: seq<Update<K, V>>) returns (result: seq<Update<K, V>>)
    ensures result == LastOnly(updates)
  {
    if |updates| <= 1 {
      assert |updates| == 1 ==> updates == [updates[0]] && !Mentions(updates[1..], updates[0].key);
      return updates;
    }
    var seen: set<K> := {};
    result := [];
    var i := |updates|;
    assert updates[i..] == [];
    while i > 0
      invariant 0 <= i <= |updates|
      invariant forall k :: k in seen <==> Mentions(updates[i..], k)
      invariant result == Reverse(LastOnly(updates[i..]))
    {
      i := i - 1;
      var u, rest := updates[i], updates[i + 1..];
      assert updates[i..] == [u] + rest && updates[i..][1..] == rest;
      MentionsStep(u, rest);
      if u.key !in seen {
        seen := seen + {u.key};
        assert Reverse([u] + LastOnly(rest)) == Reverse(LastOnly(rest)) + [u];
        result := result + [u];
      }
    }
    assert updates[0..] == updates;
    result := ReverseBySwaps(result);
    assert Reverse(Reverse(LastOnly(updates))) == LastOnly(updates);
  }

  lemma {:induction false} MentionsStep<K, V>(u: Update<K, V>, rest: seq<Update<K, V>>)
    ensures forall k :: Mentions([u] + rest, k) <==> u.key == k || Mentions(rest, k)
  {
    var us := [u] + rest;
    forall k
      ensures Mentions(us, k) <==> u.key == k || Mentions(rest, k)
    {
      if Mentions(us, k) {
        var i :| 0 <= i < |us| && us[i].key == k;
        assert i > 0 ==> rest[i - 1].key == k;
      }
      if Mentions(rest, k) {
        var i :| 0 <= i < |rest| && rest[i].key == k;
        assert us[i + 1].key == k;
      }
      assert us[0].key == u.key;
    }
  }

  /** Swaps the ends towards the middle. */
  method ReverseBySwaps<T>(s: seq<T>) returns (r: seq<T>)
    ensures r == Reverse(s)
  {
    r := s;
    var i, j := 0, |s| - 1;
    while i < j
      invariant |r| == |s| && 0 <= i && i + j == |s| - 1 && j >= i - 1
      invariant forall k :: 0 <= k < i || j < k < |s| ==> r[k] == s[|s| - 1 - k]
      invariant forall k :: i <= k <= j ==> r[k] == s[k]
    {
      var a, b := r[i], r[j];
      assert b == s[|s| - 1 - i] && a == s[|s| - 1 - j];
      r := r[i := b][j := a];
      i, j := i + 1, j - 1;
    }
  }
}
