/** Octets, network-order integers and the addresses the data plane handles. */
module Octets {

  datatype Option<+T> = None | Some(value: T)

  type Byte = x: int | 0 <= x < 256
  type Bytes = seq<Byte>
  type Octets4 = b: Bytes | |b| == 4 witness [0, 0, 0, 0]
  type Octets16 = b: Bytes | |b| == 16 witness seq(16, _ => 0)

  datatype IpAddr = V4(v4: Octets4) | V6(v6: Octets16)

  const WORD := 0x1_0000

  /** The u16 whose big-endian bytes are `hi, lo`. */
  function BE16(hi: Byte, lo: Byte): (n: int)
    ensures 0 <= n < WORD
  {
    hi * 256 + lo
  }

  /** `(n as u16).to_be_bytes()`: the cast keeps only the low sixteen bits. */
  function U16(n: nat): (b: Bytes)
    ensures |b| == 2 && BE16(b[0], b[1]) == n % 0x1_0000
  {
    [n % 0x1_0000 / 256, n % 256]
  }

  function AddrOctets(ip: IpAddr): Bytes {
    match ip
    case V4(b) => b
    case V6(b) => b
  }

  /** `dst` with `src` copied over the bytes from `at` on (`copy_from_slice`). */
  function Splice<T>(dst: seq<T>, at: nat, src: seq<T>): (r: seq<T>)
    requires at + |src| <= |dst|
    ensures |r| == |dst|
    ensures forall i :: 0 <= i < |dst| ==> r[i] == if at <= i < at + |src| then src[i - at] else dst[i]
  {
    dst[..at] + src + dst[at + |src|..]
  }
}
