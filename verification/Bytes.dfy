/** Bytes, fixed-width integers and their big- and little-endian encodings.
    Rust's truncating `as` casts are written out with `U16` and `U32`. */
module Bytes {
  type byte = x: int | 0 <= x < 0x100
  type u16 = x: int | 0 <= x < 0x1_0000
  type u32 = x: int | 0 <= x < 0x1_0000_0000

  const TWO_32: int := 0x1_0000_0000

  datatype Option<+T> = None | Some(value: T)

  datatype Result<+T, +E> = Ok(value: T) | Err(error: E)

  /** `n as u16`. */
  function U16(n: nat): u16 {
    n % 0x1_0000
  }

  /** `n as u32`. */
  function U32(n: nat): u32 {
    n % TWO_32
  }

  function Be16(n: u16): (s: seq<byte>)
    ensures |s| == 2
  {
    [n / 256, n % 256]
  }

  function Be32(n: u32): (s: seq<byte>)
    ensures |s| == 4
  {
    Be16(n / 0x1_0000) + Be16(n % 0x1_0000)
  }

  function Le16(n: u16): (s: seq<byte>)
    ensures |s| == 2
  {
    [n % 256, n / 256]
  }

  function Le32(n: u32): (s: seq<byte>)
    ensures |s| == 4
  {
    Le16(n % 0x1_0000) + Le16(n / 0x1_0000)
  }

  /** `DataView.getUint16(at, false)`. */
  function GetBe16(s: seq<byte>, at: nat): u16
    requires at + 2 <= |s|
  {
    var hi: int, lo: int := s[at], s[at + 1];
    hi * 256 + lo
  }

  /** `DataView.getUint32(at, false)` and `u32::from_be_bytes`. */
  function GetBe32(s: seq<byte>, at: nat): u32
    requires at + 4 <= |s|
  {
    var hi: int, lo: int := GetBe16(s, at), GetBe16(s, at + 2);
    hi * 0x1_0000 + lo
  }

  lemma Be16At(s: seq<byte>, at: nat, n: u16)
    requires at + 2 <= |s| && s[at..at + 2] == Be16(n)
    ensures GetBe16(s, at) == n
  {
    assert s[at] == s[at..at + 2][0] && s[at + 1] == s[at..at + 2][1];
  }

  lemma Be32At(s: seq<byte>, at: nat, n: u32)
    requires at + 4 <= |s| && s[at..at + 4] == Be32(n)
    ensures GetBe32(s, at) == n
  {
    var t := s[at..at + 4];
    assert s[at..at + 2] == t[0..2] == Be16(n / 0x1_0000);
    assert s[at + 2..at + 4] == t[2..4] == Be16(n % 0x1_0000);
    Be16At(s, at, n / 0x1_0000);
    Be16At(s, at + 2, n % 0x1_0000);
  }
}
