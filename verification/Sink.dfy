/** The other end of a connection, as far as writes go. */
module Sinks {
  import opened Wrappers
  import opened Bytes

  /** A connection that fails once it has received `capacity` bytes, or never fails. */
  class Sink {
    var received: seq<byte>
    const capacity: Option<nat>

    constructor (capacity: Option<nat>)
      ensures received == [] && this.capacity == capacity && Within()
    {
      received := [];
      this.capacity := capacity;
    }

    ghost predicate Within()
      reads this
    {
      capacity.Some? ==> |received| <= capacity.value
    }

    ghost predicate Full()
      reads this
    {
      capacity.Some? && |received| >= capacity.value
    }

    method Write(p: seq<byte>) returns (n: nat, ok: bool)
      requires Within()
      modifies this
      ensures Within() && n <= |p| && received == old(received) + p[..n]
      ensures ok <==> n == |p|
      ensures !ok ==> Full()
    {
      n := if capacity.None? || |received| + |p| <= capacity.value then |p| else capacity.value - |received|;
      received := received + p[..n];
      ok := n == |p|;
    }
  }
}
