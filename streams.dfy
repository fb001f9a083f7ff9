/**
 * The two java.io streams the codec talks to, reduced to what it uses: an input stream over a
 * fixed byte sequence with a read position, and an output stream that collects what is written.
 */
module Streams {

  function Min(a: int, b: int): int
  {
    if a <= b then a else b
  }

  class InputStream {
    /** Every byte the stream will ever yield. */
    const data: seq<bv8>
    /** How many of them have been consumed. */
    var position: nat

    ghost predicate Valid()
      reads this
    {
      position <= |data|
    }

    /** Bytes not yet consumed. */
    function Remaining(): (n: nat)
      reads this
      requires Valid()
      ensures n == |data| - position
    {
      |data| - position
    }

    constructor (data: seq<bv8>)
      ensures Valid() && this.data == data && position == 0
    {
      this.data := data;
      position := 0;
    }

    /**
     * `read(b)`: copies min(b.size, remaining) bytes into the front of `b` and returns how many;
     * at the end of the stream it returns -1 (for a non-empty `b`). The rest of `b` is untouched.
     */
    method Read(b: array<bv8>) returns (n: int)
      requires Valid()
      modifies this, b
      ensures Valid()
      ensures var k := Min(b.Length, old(Remaining()));
        && position == old(position) + k
        && b[..] == data[old(position)..old(position) + k] + old(b[k..])
        && n == (if k == 0 && b.Length > 0 then -1 else k)
    {
      var k := Min(b.Length, Remaining());
      ghost var start := position;
      for i := 0 to k
        invariant position == start
        invariant b[..i] == data[start..start + i]
        invariant b[i..] == old(b[i..])
      {
        b[i] := data[position + i];
      }
      position := position + k;
      n := if k == 0 && b.Length > 0 then -1 else k;
    }
  }

  class OutputStream {
    /** Everything written so far, in order. */
    var data: seq<bv8>

    constructor ()
      ensures data == []
    {
      data := [];
    }

    /** `write(b)`: appends all of `b`. */
    method Write(b: array<bv8>)
      modifies this
      ensures data == old(data) + b[..]
    {
      data := data + b[..];
    }
  }
}
