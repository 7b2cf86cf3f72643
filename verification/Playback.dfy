/**
 * Answering calls from a log in recorded order.
 *
 * Every replay engine files recorded replies under a key, answers the k-th call of a key with its k-th reply, and
 * repeats the last one once they run out. This module is that rule on its own; the engines are proved to follow it.
 */
module Playback {
  /** The replies filed under `key`, oldest first. */
  function Filed<K(==), R>(log: seq<(K, R)>, key: K): seq<R> {
    if log == [] then []
    else
      var last := log[|log| - 1];
      Filed(log[..|log| - 1], key) + (if last.0 == key then [last.1] else [])
  }

  function Count<K(==)>(keys: seq<K>, key: K): nat {
    if keys == [] then 0
    else Count(keys[..|keys| - 1], key) + (if keys[|keys| - 1] == key then 1 else 0)
  }

  function Keys<K, R>(log: seq<(K, R)>): (keys: seq<K>)
    ensures |keys| == |log|
  {
    seq(|log|, i requires 0 <= i < |log| => log[i].0)
  }

  /** The reply to the call made after `k` earlier ones: the next recorded, or the last one again. */
  function Nth<R>(recorded: seq<R>, k: nat): R
    requires recorded != []
  {
    recorded[if k < |recorded| then k else |recorded| - 1]
  }

  lemma {:induction false} FiledLength<K, R>(log: seq<(K, R)>, key: K)
    ensures |Filed(log, key)| == Count(Keys(log), key)
  {
    if log != [] {
      FiledLength(log[..|log| - 1], key);
      assert Keys(log)[..|log| - 1] == Keys(log[..|log| - 1]);
    }
  }

  lemma {:induction false} FiledPrefix<K, R>(log: seq<(K, R)>, n: nat, key: K)
    requires n <= |log|
    ensures Filed(log[..n], key) <= Filed(log, key)
    decreases |log|
  {
    if n < |log| {
      FiledPrefix(log[..|log| - 1], n, key);
      assert log[..|log| - 1][..n] == log[..n];
    } else {
      assert log[..n] == log;
    }
  }

  /** Asking for the logged keys in order gives every logged reply back, however many entries share a key. */
  lemma {:induction false} FiledInOrder<K, R>(log: seq<(K, R)>, i: nat)
    requires i < |log|
    ensures var recorded := Filed(log, log[i].0);
            && Count(Keys(log)[..i], log[i].0) < |recorded|
            && Nth(recorded, Count(Keys(log)[..i], log[i].0)) == log[i].1
  {
    var key := log[i].0;
    FiledLength(log[..i], key);
    assert Keys(log)[..i] == Keys(log[..i]);
    assert log[..i + 1][..i] == log[..i];
    assert Filed(log[..i + 1], key) == Filed(log[..i], key) + [log[i].1];
    FiledPrefix(log, i + 1, key);
  }

  /** Every filed reply comes from an entry of the log with that key. */
  lemma {:induction false} FiledFrom<K, R>(log: seq<(K, R)>, key: K, j: nat) returns (i: nat)
    requires j < |Filed(log, key)|
    ensures i < |log| && log[i] == (key, Filed(log, key)[j])
    decreases |log|
  {
    var n := |log| - 1;
    if j < |Filed(log[..n], key)| {
      i := FiledFrom(log[..n], key, j);
    } else {
      i := n;
    }
  }

  lemma {:induction false} CountAppend<K>(xs: seq<K>, ys: seq<K>, key: K)
    ensures Count(xs + ys, key) == Count(xs, key) + Count(ys, key)
    decreases |ys|
  {
    if ys == [] {
      assert xs + ys == xs;
    } else {
      assert (xs + ys)[..|xs + ys| - 1] == xs + ys[..|ys| - 1];
      CountAppend(xs, ys[..|ys| - 1], key);
    }
  }

  lemma {:induction false} CountAbsent<K>(keys: seq<K>, key: K)
    requires forall i | 0 <= i < |keys| :: keys[i] != key
    ensures Count(keys, key) == 0
    decreases |keys|
  {
    if keys != [] {
      CountAbsent(keys[..|keys| - 1], key);
    }
  }

  lemma {:induction false} FiledNone<K, R>(log: seq<(K, R)>, key: K)
    requires forall i | 0 <= i < |log| :: log[i].0 != key
    ensures Filed(log, key) == []
    decreases |log|
  {
    if log != [] {
      FiledNone(log[..|log| - 1], key);
    }
  }

  /** A key logged once has that entry's reply and no other. */
  lemma {:induction false} FiledAlone<K, R>(log: seq<(K, R)>, i: nat)
    requires i < |log| && forall j | 0 <= j < |log| && j != i :: log[j].0 != log[i].0
    ensures Filed(log, log[i].0) == [log[i].1]
    decreases |log|
  {
    if i == |log| - 1 {
      FiledNone(log[..i], log[i].0);
    } else {
      FiledAlone(log[..|log| - 1], i);
    }
  }

  // ----- the same rule on a queue that is shifted -----

  /** What is left of a recording after `k` calls took from it: its tail, never empty. */
  function Left<R>(recorded: seq<R>, k: nat): (left: seq<R>)
    requires recorded != []
    ensures left != []
  {
    recorded[if k < |recorded| then k else |recorded| - 1..]
  }

  /** Taking the head keeps the last entry in place. */
  function Shift<R>(queue: seq<R>): seq<R> {
    if |queue| > 1 then queue[1..] else queue
  }

  lemma {:induction false} ShiftLeft<R>(recorded: seq<R>, k: nat)
    requires recorded != []
    ensures Left(recorded, k)[0] == Nth(recorded, k)
    ensures Shift(Left(recorded, k)) == Left(recorded, k + 1)
  {
  }

  // ----- a store of queues -----

  function Push<K, R>(store: map<K, seq<R>>, key: K, value: R): map<K, seq<R>> {
    store[key := (if key in store then store[key] else []) + [value]]
  }

  /** A queue that can answer. */
  predicate Holds<K, R>(store: map<K, seq<R>>, key: K) {
    key in store && |store[key]| > 0
  }

  function Take<K, R>(store: map<K, seq<R>>, key: K): map<K, seq<R>>
    requires Holds(store, key)
  {
    store[key := Shift(store[key])]
  }

  /** A store holds, for every key filed in `log`, what is left after the calls in `taken`, and no other key. */
  ghost predicate Stocked<K(!new), R>(store: map<K, seq<R>>, log: seq<(K, R)>, taken: seq<K>) {
    && (forall key :: key in store <==> Filed(log, key) != [])
    && (forall key | key in store :: store[key] == Left(Filed(log, key), Count(taken, key)))
  }

  lemma {:induction false} Pushed<K(!new), R>(store: map<K, seq<R>>, log: seq<(K, R)>, key: K, value: R)
    requires Stocked(store, log, [])
    ensures Stocked(Push(store, key, value), log + [(key, value)], [])
  {
  }

  /** Taking from one queue moves that queue on by one, leaves every other queue alone, and empties none. */
  lemma {:induction false} Taken<K(!new), R>(store: map<K, seq<R>>, log: seq<(K, R)>, taken: seq<K>, key: K)
    requires Stocked(store, log, taken) && Filed(log, key) != []
    ensures Holds(store, key) && store[key][0] == Nth(Filed(log, key), Count(taken, key))
    ensures Stocked(Take(store, key), log, taken + [key])
  {
    hide Filed;
    assert (taken + [key])[..|taken|] == taken;
    ShiftLeft(Filed(log, key), Count(taken, key));
    forall k ensures Count(taken + [key], k) == Count(taken, k) + (if k == key then 1 else 0) {
    }
  }

  /** A call on a key that was never filed leaves the store as it is. */
  lemma {:induction false} Passed<K(!new), R>(store: map<K, seq<R>>, log: seq<(K, R)>, taken: seq<K>, key: K)
    requires Stocked(store, log, taken) && Filed(log, key) == []
    ensures !Holds(store, key)
    ensures Stocked(store, log, taken + [key])
  {
    hide Filed;
    assert (taken + [key])[..|taken|] == taken;
  }
}
