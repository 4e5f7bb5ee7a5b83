/**
  Little-endian unsigned integers over bytes: the encoding every multi-byte
  field of the Blackrock file formats uses.
 */
module LittleEndian {

  /** One byte of a file. */
  type Byte = b: int | 0 <= b < 0x100

  /** 256 to the power w: the number of values w bytes can hold. */
  function Pow256(w: nat): (p: nat)
    ensures p > 0
  {
    if w == 0 then 1 else 0x100 * Pow256(w - 1)
  }

  lemma Pow256Values()
    ensures Pow256(1) == 0x100 && Pow256(2) == 0x1_0000 && Pow256(4) == 0x1_0000_0000
  {
  }

  /** The unsigned value of a little-endian byte sequence (least significant byte first). */
  function FromLE(s: seq<Byte>): (n: nat)
    ensures n < Pow256(|s|)
  {
    if s == [] then 0 else s[0] + 0x100 * FromLE(s[1..])
  }

  /** The w-byte little-endian representation of n. */
  function ToLE(n: nat, w: nat): (s: seq<Byte>)
    requires n < Pow256(w)
    ensures |s| == w
  {
    if w == 0 then [] else [n % 0x100] + ToLE(n / 0x100, w - 1)
  }

  /** Decoding an encoded value gives the value back. */
  lemma {:induction false} FromToLE(n: nat, w: nat)
    requires n < Pow256(w)
    ensures FromLE(ToLE(n, w)) == n
  {
    if w > 0 {
      FromToLE(n / 0x100, w - 1);
      assert ToLE(n, w)[1..] == ToLE(n / 0x100, w - 1);
    }
  }

  /** Encoding a decoded value gives the bytes back: no two byte strings decode alike. */
  lemma {:induction false} ToFromLE(s: seq<Byte>)
    ensures ToLE(FromLE(s), |s|) == s
  {
    if s != [] {
      ToFromLE(s[1..]);
      var n := FromLE(s);
      assert n % 0x100 == s[0] && n / 0x100 == FromLE(s[1..]);
    }
  }
}
