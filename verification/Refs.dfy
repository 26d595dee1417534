/** Model refs of the form provider/id. */
module Refs {
  /** ref.split('/')[0] */
  function Provider(ref: string): string {
    if ref == "" || ref[0] == '/' then "" else [ref[0]] + Provider(ref[1..])
  }

  /** ref.split('/').pop() */
  function ModelId(ref: string): string {
    if ref == "" || ref[|ref| - 1] == '/' then "" else ModelId(ref[..|ref| - 1]) + [ref[|ref| - 1]]
  }

  /** The provider is what stands before the first slash, or everything if there is none. */
  lemma {:induction false} ProviderIs(provider: string, rest: string)
    requires '/' !in provider
    ensures Provider(provider) == provider && Provider(provider + "/" + rest) == provider
  {
    if provider == "" {
      assert provider + "/" + rest == "/" + rest;
    } else {
      var tail := provider[1..];
      assert provider + "/" + rest == [provider[0]] + (tail + "/" + rest);
      assert provider == [provider[0]] + tail;
      ProviderIs(tail, rest);
    }
  }

  /** The id is what stands after the last slash, or everything if there is none. */
  lemma {:induction false} ModelIdIs(front: string, id: string)
    requires '/' !in id
    ensures ModelId(id) == id && ModelId(front + "/" + id) == id
  {
    if id == "" {
      assert front + "/" + id == front + "/";
    } else {
      var n := |id| - 1;
      assert (front + "/" + id)[..|front + "/" + id| - 1] == front + "/" + id[..n];
      assert id == id[..n] + [id[n]];
      ModelIdIs(front, id[..n]);
    }
  }
}
