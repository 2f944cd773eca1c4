/** Canonical statement bytes. The writer belongs to another crate; this model
    fixes one encoding for it: big-endian fixed-width integers, raw hashes, and
    strings as an 8-byte length followed by their UTF-8 bytes. */
module Canonical {
  import opened Basics
  import opened Hex
  import Utf8

  function Pow256(w: nat): (p: nat)
    ensures p >= 1
  {
    if w == 0 then 1 else 256 * Pow256(w - 1)
  }

  /** The low `w` bytes of `n`, most significant first. */
  function BigEndian(n: nat, w: nat): (e: bytes)
    ensures |e| == w
  {
    if w == 0 then [] else BigEndian(n / 256, w - 1) + [(n % 256) as byte]
  }

  function U32(n: nat): bytes { BigEndian(n, 4) }

  function U64(n: u64): bytes { BigEndian(n, 8) }

  /** Two's complement. */
  function I64(n: i64): bytes { BigEndian(if n >= 0 then n else n + U64_LIMIT, 8) }

  function Prefixed(s: string): bytes {
    var e := Utf8.Encode(s);
    BigEndian(|e|, 8) + e
  }

  /** `CanonicalWriter`: an append-only byte buffer. */
  class Writer {
    var buffer: bytes

    constructor ()
      ensures buffer == []
    {
      buffer := [];
    }

    method WriteStr(s: string)
      modifies this
      ensures buffer == old(buffer) + Prefixed(s)
    {
      buffer := buffer + Prefixed(s);
    }

    method WriteU32(n: nat)
      modifies this
      ensures buffer == old(buffer) + U32(n)
    {
      buffer := buffer + U32(n);
    }

    method WriteU64(n: u64)
      modifies this
      ensures buffer == old(buffer) + U64(n)
    {
      buffer := buffer + U64(n);
    }

    method WriteI64(n: i64)
      modifies this
      ensures buffer == old(buffer) + I64(n)
    {
      buffer := buffer + I64(n);
    }

    method WriteHash(h: Hash)
      modifies this
      ensures buffer == old(buffer) + h
    {
      buffer := buffer + h;
    }

    method WriteRaw(b: bytes)
      modifies this
      ensures buffer == old(buffer) + b
    {
      buffer := buffer + b;
    }
  }
}
