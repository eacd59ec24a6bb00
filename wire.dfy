/** The optional value used for the upstream reply and for the datagram sent back to a client. */
module Wrappers {
  datatype Option<+T> = None | Some(value: T)
}

/** Octets and the big-endian ("network order") integers of a DNS message. */
module Wire {
  type Byte = b: int | 0 <= b < 0x100
  type Uint16 = n: int | 0 <= n < 0x1_0000
  type Uint32 = n: int | 0 <= n < 0x1_0000_0000

  /** binary.BigEndian.Uint16 of two consecutive octets */
  function BE16(hi: Byte, lo: Byte): (n: Uint16)
  {
    hi * 0x100 + lo
  }

  /** binary.BigEndian.Uint32 of four consecutive octets */
  function BE32(s: seq<Byte>): (n: Uint32)
    requires |s| == 4
  {
    BE16(s[0], s[1]) * 0x1_0000 + BE16(s[2], s[3])
  }

  /** The two octets that encode n in network order */
  function BE16Bytes(n: Uint16): (s: seq<Byte>)
    ensures |s| == 2 && BE16(s[0], s[1]) == n
  {
    [n / 0x100, n % 0x100]
  }

  /** The four octets that encode n in network order */
  function BE32Bytes(n: Uint32): (s: seq<Byte>)
    ensures |s| == 4 && BE32(s) == n
    ensures s[..2] == BE16Bytes(n / 0x1_0000) && s[2..] == BE16Bytes(n % 0x1_0000)
  {
    BE16Bytes(n / 0x1_0000) + BE16Bytes(n % 0x1_0000)
  }

  /** The middle part of a concatenation of three */
  lemma MiddleSlice(a: seq<Byte>, b: seq<Byte>, c: seq<Byte>)
    ensures (a + b + c)[|a| .. |a| + |b|] == b
  {
    assert (a + b + c)[|a| .. |a| + |b|] == (a + b)[|a| ..];
  }

  /** A slice that equals a concatenation splits into slices equal to its parts. */
  lemma SplitSlice(r: seq<Byte>, i: nat, a: seq<Byte>, b: seq<Byte>)
    requires i + |a| + |b| <= |r| && r[i .. i + |a| + |b|] == a + b
    ensures r[i .. i + |a|] == a && r[i + |a| .. i + |a| + |b|] == b
  {
    assert r[i .. i + |a|] == r[i .. i + |a| + |b|][.. |a|];
    assert r[i + |a| .. i + |a| + |b|] == r[i .. i + |a| + |b|][|a| ..];
  }
}
