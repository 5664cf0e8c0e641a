/** The two in-place edits of a Rust `Vec<u8>` that the decoders use. */
module RustVec {
  import opened Wrappers

  class ByteVec {
    var elems: seq<byte>

    /** `slice.to_vec()`: a fresh vector holding a copy of the bytes. */
    constructor (init: seq<byte>)
      ensures elems == init
    {
      elems := init;
    }

    /** `drain(lo..hi)`: removes the elements in `[lo, hi)`. A range that does not fit
        the vector panics in Rust; here that is `ok == false` and nothing changes. */
    method Drain(lo: nat, hi: nat) returns (ok: bool)
      modifies this
      ensures ok <==> lo <= hi <= |old(elems)|
      ensures ok ==> elems == old(elems)[..lo] + old(elems)[hi..]
      ensures !ok ==> elems == old(elems)
    {
      ok := lo <= hi <= |elems|;
      if ok {
        elems := elems[..lo] + elems[hi..];
      }
    }

    /** `truncate(n)`: keeps the first `n` elements; no effect on a shorter vector. */
    method Truncate(n: nat)
      modifies this
      ensures elems == if n < |old(elems)| then old(elems)[..n] else old(elems)
    {
      if n < |elems| {
        elems := elems[..n];
      }
    }
  }
}
