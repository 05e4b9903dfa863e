/** The growing print buffer: `ensure` and `update`. */
module GrowingBuffer {
  import opened CText
  import opened Buffers
  import opened PowerOfTwo

  class PrintBuffer {
    var buffer: array<byte>
    var length: nat
    var offset: nat

    ghost predicate Valid()
      reads this
    {
      buffer.Length == length && offset <= length
    }

    /** The text written so far: everything in front of the offset. */
    ghost function Written(): bytes
      requires Valid()
      reads this, buffer
    {
      buffer[..offset]
    }

    /** The buffer holds this text, and the offset is somewhere behind the first `start` bytes of it. */
    ghost predicate Ends(start: nat, text: bytes)
      reads this, buffer
    {
      Valid() && start <= offset <= |text| && Holds(buffer, text)
    }

    /** `cJSON_PrintBuffered` starts with an empty buffer of any positive size. */
    constructor (prebuffer: nat)
      requires prebuffer > 0
      ensures Valid() && fresh(buffer) && length == prebuffer && Written() == []
    {
      buffer, length, offset := new byte[prebuffer], prebuffer, 0;
    }

    /** `ensure`: room for `needed` more bytes behind the offset. The buffer grows to the least power of two
        that covers the request, and keeps everything that it held. */
    method Ensure(needed: nat)
      requires Valid() && 1 <= needed && offset + needed <= MAX_SIZE
      modifies `buffer, `length
      ensures Valid() && offset + needed <= length && old(length) <= length
      ensures buffer[..old(length)] == old(buffer[..])
      ensures offset + needed <= old(length) ==> unchanged(this)
      ensures offset + needed > old(length) ==> fresh(buffer) && IsLeastPower(offset + needed, length)
    {
      hide IsLeastPower;
      if offset + needed > length {
        var newsize := Pow2Gt(offset + needed);
        AtLeast(offset + needed, newsize);
        var newbuffer := new byte[newsize];
        var end := Put(newbuffer, 0, buffer[..length]);
        assert [] + buffer[..length] == buffer[..];
        length := newsize;
        buffer := newbuffer;
      } else {
        assert buffer[..length] == buffer[..];
      }
    }

    /** `update`: the offset behind the text that the last printer has left in the buffer. */
    method Update(ghost start: nat, ghost text: bytes) returns (end: nat)
      requires Ends(start, text) && NulFree(text[offset..])
      ensures end == |text|
    {
      var n := StrLen(buffer, offset, text);
      end := offset + n;
    }
  }

  lemma AtLeast(n: nat, p: nat)
    requires IsLeastPower(n, p)
    ensures n <= p
  {
  }
}
