/** Repeated `dict.update`: the registry merges of `load_arguments` apply one
    dictionary after another, so the last dictionary holding a key decides
    that key's value. */
module Dicts {
  import opened PyRuntime

  /** `m.update(ms[0]); m.update(ms[1]); ...` */
  function UpdateAll<K, V>(m: map<K, V>, ms: seq<map<K, V>>): map<K, V>
    decreases |ms|
  {
    if ms == [] then m else UpdateAll(m + ms[0], ms[1..])
  }

  /** Reference definition: the value of `k` in the last of `ms` that has `k`. */
  function LastValue<K, V>(ms: seq<map<K, V>>, k: K): Option<V>
    decreases |ms|
  {
    if ms == [] then None
    else if k in ms[|ms| - 1] then Some(ms[|ms| - 1][k])
    else LastValue(ms[..|ms| - 1], k)
  }

  lemma {:induction false} UpdateAllSnoc<K, V>(m: map<K, V>, ms: seq<map<K, V>>, x: map<K, V>)
    ensures UpdateAll(m, ms + [x]) == UpdateAll(m, ms) + x
    decreases |ms|
  {
    if ms == [] {
      assert ([] + [x])[1..] == [];
    } else {
      assert (ms + [x])[1..] == ms[1..] + [x];
      UpdateAllSnoc(m + ms[0], ms[1..], x);
    }
  }

  /** After the updates, a key is present exactly when the start or one of the
      updates has it, and its value is the one from the last update holding it. */
  lemma {:induction false} LastUpdateWins<K, V>(m: map<K, V>, ms: seq<map<K, V>>, k: K)
    ensures k in UpdateAll(m, ms) <==> k in m || LastValue(ms, k).Some?
    ensures LastValue(ms, k).Some? ==> UpdateAll(m, ms)[k] == LastValue(ms, k).value
    ensures LastValue(ms, k).None? && k in m ==> UpdateAll(m, ms)[k] == m[k]
    decreases |ms|
  {
    if ms != [] {
      var init, x := ms[..|ms| - 1], ms[|ms| - 1];
      assert ms == init + [x];
      UpdateAllSnoc(m, init, x);
      LastUpdateWins(m, init, k);
    }
  }

  /** `LastValue` finds a key exactly when some update holds it. */
  lemma {:induction false} LastValueFound<K, V>(ms: seq<map<K, V>>, k: K)
    ensures LastValue(ms, k).Some? <==> exists i :: 0 <= i < |ms| && k in ms[i]
    decreases |ms|
  {
    if ms != [] {
      var init := ms[..|ms| - 1];
      LastValueFound(init, k);
      if LastValue(ms, k).None? {
        forall i | 0 <= i < |ms| ensures k !in ms[i] {
          if i < |ms| - 1 { assert ms[i] == init[i]; }
        }
      } else if k !in ms[|ms| - 1] {
        var i :| 0 <= i < |init| && k in init[i];
        assert ms[i] == init[i];
      }
    }
  }

  /** A key no update holds keeps its presence and value. */
  lemma {:induction false} UpdateAllUntouched<K, V>(m: map<K, V>, ms: seq<map<K, V>>, k: K)
    requires forall j :: 0 <= j < |ms| ==> k !in ms[j]
    ensures k in UpdateAll(m, ms) <==> k in m
    ensures k in m ==> UpdateAll(m, ms)[k] == m[k]
    decreases |ms|
  {
    if ms != [] {
      assert k !in ms[0];
      forall j | 0 <= j < |ms[1..]| ensures k !in ms[1..][j] {
        assert ms[1..][j] == ms[j + 1];
      }
      UpdateAllUntouched(m + ms[0], ms[1..], k);
    }
  }

  /** The update at index `i` decides a key when no later update holds it. */
  lemma {:induction false} UpdateAllLastWins<K, V>(m: map<K, V>, ms: seq<map<K, V>>, i: nat, k: K)
    requires i < |ms| && k in ms[i]
    requires forall j :: i < j < |ms| ==> k !in ms[j]
    ensures k in UpdateAll(m, ms) && UpdateAll(m, ms)[k] == ms[i][k]
    decreases |ms|
  {
    forall j | 0 <= j < |ms[1..]| && (i == 0 || i - 1 < j) ensures k !in ms[1..][j] {
      assert ms[1..][j] == ms[j + 1];
    }
    if i == 0 {
      UpdateAllUntouched(m + ms[0], ms[1..], k);
    } else {
      assert ms[1..][i - 1] == ms[i];
      UpdateAllLastWins(m + ms[0], ms[1..], i - 1, k);
    }
  }
}
