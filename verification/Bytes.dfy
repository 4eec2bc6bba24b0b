/** Bytes and NUL-terminated texts.  A pointer into a text is the rest of the text. */
module Bytes {

  newtype byte = x: int | 0 <= x < 256

  type Text = seq<byte>

  /** *ptr: the terminator follows the text. */
  function Head(t: Text): byte {
    if t == [] then 0 else t[0]
  }

  predicate NoNul(s: Text) {
    forall i :: 0 <= i < |s| ==> s[i] != 0
  }

  lemma Assoc<T>(a: seq<T>, b: seq<T>, c: seq<T>)
    ensures (a + b) + c == a + (b + c)
  {
  }

  lemma Drop<T>(x: T, t: seq<T>)
    ensures ([x] + t)[0] == x && ([x] + t)[1..] == t
  {
  }

  lemma Slice<T>(s: seq<T>, p: nat, w: nat)
    requires p + w <= |s|
    ensures s[p..][w..] == s[p + w..]
  {
  }
}
