/** Writing a run of keys into a map, left to right, and what the result then holds. */
module Maps {

  /** `m` with `keys[j]` set to `vals[j]` for each `j < n`, in increasing order of `j`. */
  function WriteAll<K, V>(m: map<K, V>, keys: seq<K>, vals: seq<V>, n: nat): map<K, V>
    requires n <= |keys| && n <= |vals|
    decreases n
  {
    if n == 0 then m else WriteAll(m, keys, vals, n - 1)[keys[n - 1] := vals[n - 1]]
  }

  /** A key none of the writes touches keeps its presence and its value. */
  lemma {:induction false} WriteAllKeeps<K, V>(m: map<K, V>, keys: seq<K>, vals: seq<V>, n: nat, k: K)
    requires n <= |keys| && n <= |vals|
    requires forall j :: 0 <= j < n ==> keys[j] != k
    ensures k in WriteAll(m, keys, vals, n) <==> k in m
    ensures k in m ==> WriteAll(m, keys, vals, n)[k] == m[k]
    decreases n
  {
    if n > 0 {
      WriteAllKeeps(m, keys, vals, n - 1, k);
    }
  }

  /** Writes only ever add keys. */
  lemma {:induction false} WriteAllGrows<K, V>(m: map<K, V>, keys: seq<K>, vals: seq<V>, n: nat, k: K)
    requires n <= |keys| && n <= |vals| && k in m
    ensures k in WriteAll(m, keys, vals, n)
    decreases n
  {
    if n > 0 {
      WriteAllGrows(m, keys, vals, n - 1, k);
    }
  }

  /** The last write to a key decides its value. */
  lemma {:induction false} WriteAllLast<K, V>(m: map<K, V>, keys: seq<K>, vals: seq<V>, n: nat, j: nat)
    requires j < n <= |keys| && n <= |vals|
    requires forall i :: j < i < n ==> keys[i] != keys[j]
    ensures keys[j] in WriteAll(m, keys, vals, n)
    ensures WriteAll(m, keys, vals, n)[keys[j]] == vals[j]
    decreases n
  {
    if j < n - 1 {
      WriteAllLast(m, keys, vals, n - 1, j);
    }
  }

  /** Every key written is present afterwards. */
  lemma {:induction false} WriteAllHas<K, V>(m: map<K, V>, keys: seq<K>, vals: seq<V>, n: nat, j: nat)
    requires j < n <= |keys| && n <= |vals|
    ensures keys[j] in WriteAll(m, keys, vals, n)
    decreases n
  {
    if j < n - 1 {
      WriteAllHas(m, keys, vals, n - 1, j);
    }
  }

  /** One more write. */
  lemma WriteAllStep<K, V>(m: map<K, V>, keys: seq<K>, vals: seq<V>, n: nat)
    requires n < |keys| && n < |vals|
    ensures WriteAll(m, keys, vals, n + 1) == WriteAll(m, keys, vals, n)[keys[n] := vals[n]]
  {
  }
}
