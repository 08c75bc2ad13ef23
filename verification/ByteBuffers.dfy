/** Byte buffers that are filled in place. */
module ByteBuffers {
  import opened Bits

  /** Copies `bytes` to offset `at`. */
  method CopyInto(buffer: array<Byte>, at: nat, bytes: seq<Byte>)
    requires at + |bytes| <= buffer.Length
    modifies buffer
    ensures buffer[..] == old(buffer[..])[..at] + bytes + old(buffer[..])[at + |bytes|..]
  {
    var i := 0;
    while i < |bytes|
      invariant 0 <= i <= |bytes|
      invariant buffer[..] == old(buffer[..])[..at] + bytes[..i] + old(buffer[..])[at + i..]
    {
      buffer[at + i] := bytes[i];
      i := i + 1;
    }
    assert bytes[..i] == bytes;
  }
}
