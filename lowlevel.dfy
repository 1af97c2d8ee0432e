/** The low-level helper of the library. */
module LowLevel {
  import opened Types

  /** memdup: a fresh copy of the first `n` bytes at `p`, or NULL when they
      cannot be allocated (`allocOk` is the outcome of that malloc). */
  function Memdup(p: seq<byte>, n: nat, allocOk: bool): (r: Option<seq<byte>>)
    requires n <= |p|
    ensures r.Some? <==> allocOk
    ensures r.Some? ==> |r.value| == n && forall i :: 0 <= i < n ==> r.value[i] == p[i]
  {
    if allocOk then Some(p[..n]) else None
  }
}
