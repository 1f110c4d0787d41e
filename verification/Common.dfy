/** Shared vocabulary: optional values, fallible results, and duplicate-free sequences. */
module Common {
  datatype Option<+T> = None | Some(value: T)

  datatype Result<+T> = Ok(value: T) | Err

  ghost predicate NoDup<T>(s: seq<T>) {
    forall i, j :: 0 <= i < j < |s| ==> s[i] != s[j]
  }

  predicate Injective<K, V(==)>(m: map<K, V>) {
    forall k, k' :: k in m && k' in m && m[k] == m[k'] ==> k == k'
  }

  /** Task ids are eight lower-case hexadecimal characters. */
  predicate IsCanonicalId(id: string) {
    |id| == 8 && forall i :: 0 <= i < 8 ==> '0' <= id[i] <= '9' || 'a' <= id[i] <= 'f'
  }
}
