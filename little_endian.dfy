/** Fixed-width little-endian integers, the `struct` formats "<Q" and "<q". */
module LittleEndian {

  type byte = b: int | 0 <= b < 256

  const TWO_63: int := 0x8000_0000_0000_0000
  const TWO_64: int := 0x1_0000_0000_0000_0000

  function Pow256(k: nat): (p: nat)
    ensures p > 0
  {
    if k == 0 then 1 else 256 * Pow256(k - 1)
  }

  /** The k low-order bytes of n, least significant first. */
  function ToLittleEndian(n: nat, k: nat): (s: seq<byte>)
    ensures |s| == k
  {
    if k == 0 then [] else [n % 256] + ToLittleEndian(n / 256, k - 1)
  }

  /** The unsigned number whose little-endian bytes are s. */
  function FromLittleEndian(s: seq<byte>): (n: nat)
    ensures n < Pow256(|s|)
  {
    if s == [] then 0 else s[0] + 256 * FromLittleEndian(s[1..])
  }

  lemma {:induction false} FromToLittleEndian(n: nat, k: nat)
    requires n < Pow256(k)
    ensures FromLittleEndian(ToLittleEndian(n, k)) == n
  {
    if k > 0 {
      var s := ToLittleEndian(n, k);
      assert s[1..] == ToLittleEndian(n / 256, k - 1);
      FromToLittleEndian(n / 256, k - 1);
    }
  }

  lemma {:induction false} ToFromLittleEndian(s: seq<byte>)
    ensures ToLittleEndian(FromLittleEndian(s), |s|) == s
  {
    if s != [] {
      var n := FromLittleEndian(s);
      assert n % 256 == s[0] && n / 256 == FromLittleEndian(s[1..]);
      ToFromLittleEndian(s[1..]);
    }
  }

  lemma Pow256Of8()
    ensures Pow256(8) == TWO_64
  {
  }

  /** `struct.pack("<Q", n)`: defined for 0 <= n < 2^64; otherwise `struct.error`. */
  function PackU64(n: nat): (s: seq<byte>)
    requires n < TWO_64
    ensures |s| == 8
  {
    ToLittleEndian(n, 8)
  }

  /** `struct.unpack("<Q", s)` of exactly eight bytes. */
  function UnpackU64(s: seq<byte>): (n: nat)
    requires |s| == 8
    ensures n < TWO_64
  {
    Pow256Of8();
    FromLittleEndian(s)
  }

  /** `struct.pack("<q", i)`: two's complement, defined for -2^63 <= i < 2^63. */
  function PackI64(i: int): (s: seq<byte>)
    requires -TWO_63 <= i < TWO_63
    ensures |s| == 8
  {
    ToLittleEndian(if i < 0 then i + TWO_64 else i, 8)
  }

  /** `struct.unpack("<q", s)` of exactly eight bytes. */
  function UnpackI64(s: seq<byte>): (i: int)
    requires |s| == 8
    ensures -TWO_63 <= i < TWO_63
  {
    var u := UnpackU64(s);
    if u >= TWO_63 then u - TWO_64 else u
  }

  lemma U64RoundTrip(n: nat)
    requires n < TWO_64
    ensures UnpackU64(PackU64(n)) == n
  {
    Pow256Of8();
    FromToLittleEndian(n, 8);
  }

  lemma U64Injective(s: seq<byte>)
    requires |s| == 8
    ensures PackU64(UnpackU64(s)) == s
  {
    ToFromLittleEndian(s);
  }

  lemma I64RoundTrip(i: int)
    requires -TWO_63 <= i < TWO_63
    ensures UnpackI64(PackI64(i)) == i
  {
    Pow256Of8();
    FromToLittleEndian(if i < 0 then i + TWO_64 else i, 8);
  }
}
