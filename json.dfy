/**
 * The JSON objects the service builds and sends. An object is an ordered list of
 * members, in the order its JavaScript object literal writes them.
 */
module Json {
  import opened Optional

  datatype Value = Str(s: string) | Int(i: int) | Bool(b: bool)

  type Object = seq<(string, Value)>

  /** The property names of `o`, in order. */
  function Keys(o: Object): (ks: seq<string>)
    ensures |ks| == |o|
    ensures forall i :: 0 <= i < |o| ==> ks[i] == o[i].0
  {
    seq(|o|, i requires 0 <= i < |o| => o[i].0)
  }

  /** Reads property `k` of `o` (`o[k]`); None when `o` has no such property. */
  function Lookup(o: Object, k: string): (v: Option<Value>)
    ensures v.None? <==> k !in Keys(o)
    ensures v.Some? ==> (k, v.value) in o
  {
    if o == [] then None
    else if o[0].0 == k then Some(o[0].1)
    else
      var rest := Lookup(o[1..], k);
      assert Keys(o) == [o[0].0] + Keys(o[1..]);
      rest
  }
}
