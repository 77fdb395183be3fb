// Bytes as the program's buffers hold them, and the big-endian length prefix of a frame.

module Octets {
  newtype Octet = x: int | 0 <= x < 256

  const MAX_MESSAGE_SIZE: nat := 0xFFFF

  function WriteUint16(size: nat): (bytes: seq<Octet>)
    requires size <= MAX_MESSAGE_SIZE
    ensures |bytes| == 2 && ReadUint16(bytes) == size
  {
    [(size / 256) as Octet, (size % 256) as Octet]
  }

  function ReadUint16(src: seq<Octet>): (size: nat)
    requires |src| >= 2
    ensures size <= MAX_MESSAGE_SIZE
  {
    src[0] as nat * 256 + src[1] as nat
  }

  // The prefix a size is written as is the only one it is read from.
  lemma Uint16Unique(src: seq<Octet>)
    requires |src| >= 2
    ensures WriteUint16(ReadUint16(src)) == src[..2]
  {
  }
}
