/** Parsed JSON values, and maps read as tables with absent keys. */
module JsonValues {
  import opened Seqs

  /** `Other` is a number or boolean token. The order of an object's keys is not modelled. */
  datatype Json =
    | Null
    | Str(text: string)
    | Other(token: string)
    | Arr(items: seq<Json>)
    | Obj(fields: map<string, Json>)

  function At<T>(m: map<string, T>, k: string): Option<T> {
    if k in m then Some(m[k]) else None
  }

  /** Maps that read the same at every key are equal. */
  lemma SameMap<T>(a: map<string, T>, b: map<string, T>)
    requires forall k :: At(a, k) == At(b, k)
    ensures a == b
  {
    forall k ensures k in a <==> k in b {
      assert At(a, k) == At(b, k);
    }
    forall k | k in a ensures a[k] == b[k] {
      assert At(a, k) == At(b, k);
    }
  }
}
