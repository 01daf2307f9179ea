/**
 * Where compressed bytes go: to an output function, or into the buffer of the current call,
 * with what finds no room there kept for the next one.
 */
module Sinks {
  import opened Bits

  class Sink {
    /** Calls bring a buffer; otherwise there is an output function. */
    const buffered: bool
    /** The size of the current call's buffer, and what was put into it. */
    var size: nat
    var given: seq<byte>
    /** Flushed, but not in any buffer yet. */
    var remaining: seq<byte>
    /** Everything the output function or the buffers got. */
    var taken: seq<byte>
    ghost var earlier: seq<byte>

    ghost predicate Valid()
      reads this
    {
      && |given| <= size && (buffered ==> taken == earlier + given)
      && (!buffered ==> remaining == [] && given == [])
    }

    /** Something is kept only when the buffer is full. */
    ghost predicate Full()
      reads this
    {
      remaining != [] ==> |given| == size
    }

    /** Everything flushed so far. */
    ghost function All(): seq<byte>
      reads this
    {
      taken + remaining
    }

    constructor (buffered: bool)
      ensures Valid() && Full() && this.buffered == buffered && taken == remaining == given == []
    {
      this.buffered := buffered;
      size, given, remaining, taken, earlier := 0, [], [], [], [];
    }

    /** A call begins. */
    method Begin(size: nat)
      requires Valid()
      modifies this`size, this`given, this`earlier
      ensures Valid() && this.size == size && given == [] && earlier == taken == old(taken) && All() == old(All())
    {
      this.size, given, earlier := size, [], taken;
    }

    /** Takes what a flush has written. */
    method Give(bytes: seq<byte>)
      requires Valid() && remaining == []
      modifies this`given, this`remaining, this`taken
      ensures Valid() && Full() && All() == old(All()) + bytes && old(taken) <= taken
    {
      if buffered {
        var n := if |bytes| < size - |given| then |bytes| else size - |given|;
        given := given + bytes[..n];
        taken := taken + bytes[..n];
        remaining := bytes[n..];
        assert bytes[..n] + bytes[n..] == bytes;
      } else {
        taken := taken + bytes;
      }
    }

    /** Puts what was kept into the buffer. */
    method Drain()
      requires Valid()
      modifies this`given, this`remaining, this`taken
      ensures Valid() && Full() && All() == old(All()) && old(taken) <= taken
      ensures old(Full()) ==> remaining == old(remaining)
      ensures old(remaining) != [] && old(|given|) < size ==> |remaining| < old(|remaining|)
    {
      if buffered {
        var n := if size - |given| < |remaining| then size - |given| else |remaining|;
        given := given + remaining[..n];
        taken := taken + remaining[..n];
        remaining := remaining[n..];
      }
    }
  }
}
