/** Bytes and byte strings, shared by every part of the model. */
module Bytes {

  type byte = b: int | 0 <= b < 256

  type bytes = seq<byte>

  /** memcpy to `to` at `t0`. */
  method Put<T>(to: array<T>, t0: nat, r: seq<T>) returns (t: nat)
    requires t0 + |r| <= to.Length
    modifies to
    ensures t == t0 + |r| && to[..t] == old(to[..t0]) + r
    ensures forall j :: t <= j < to.Length ==> to[j] == old(to[j])
  {
    forall i | 0 <= i < |r| {
      to[t0 + i] := r[i];
    }
    t := t0 + |r|;
  }
}
