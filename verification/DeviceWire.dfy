/** What the device reads from a submitted transfer buffer. */
module DeviceWire {
  import opened Core

  /** Packet by packet, each found at the sum of the descriptor lengths before it. */
  ghost function Wire(buffer: seq<Byte>, lengths: seq<nat>): seq<Byte>
    requires Sum(lengths) <= |buffer|
  {
    if lengths == [] then []
    else
      var front := lengths[..|lengths| - 1];
      Wire(buffer, front) + buffer[Sum(front)..Sum(lengths)]
  }

  lemma {:induction false} WireIsPrefix(buffer: seq<Byte>, lengths: seq<nat>)
    requires Sum(lengths) <= |buffer|
    ensures Wire(buffer, lengths) == buffer[..Sum(lengths)]
  {
    if lengths != [] {
      var front := lengths[..|lengths| - 1];
      WireIsPrefix(buffer, front);
      assert buffer[..Sum(front)] + buffer[Sum(front)..Sum(lengths)] == buffer[..Sum(lengths)];
    }
  }
}
