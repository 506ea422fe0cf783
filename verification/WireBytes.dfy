/** Little-endian numbers in byte strings, as every shared buffer of the system uses them. A byte is a
    character with a code below 256. */
module WireBytes {

  type Bytes = string

  const TWO16: nat := 0x1_0000

  const TWO32: nat := 0x1_0000_0000

  const TWO64: nat := 0x1_0000_0000_0000_0000

  function Byte(n: nat): char { (n % 256) as char }

  /** The low `k` bytes of `n`, least significant first. */
  function LE(n: nat, k: nat): (b: Bytes)
    ensures |b| == k
    decreases k
  {
    if k == 0 then "" else [Byte(n)] + LE(n / 256, k - 1)
  }

  function FromLE(b: Bytes): nat { if b == "" then 0 else b[0] as nat + 256 * FromLE(b[1..]) }

  function Pow256(k: nat): nat { if k == 0 then 1 else 256 * Pow256(k - 1) }

  lemma {:induction false} LERoundTrip(n: nat, k: nat)
    requires n < Pow256(k)
    ensures FromLE(LE(n, k)) == n
    decreases k
  {
    if k > 0 {
      assert n / 256 < Pow256(k - 1);
      LERoundTrip(n / 256, k - 1);
      assert LE(n, k)[1..] == LE(n / 256, k - 1);
    }
  }

  ghost predicate ByteString(b: Bytes) { forall i :: 0 <= i < |b| ==> b[i] < 256 as char }

  lemma {:induction false} LEBack(b: Bytes)
    requires ByteString(b)
    ensures LE(FromLE(b), |b|) == b && FromLE(b) < Pow256(|b|)
    decreases |b|
  {
    if b != "" {
      LEBack(b[1..]);
      var n := FromLE(b[1..]);
      assert b[0] as nat < 256;
      assert (b[0] as nat + 256 * n) % 256 == b[0] as nat && (b[0] as nat + 256 * n) / 256 == n;
      assert b == [b[0]] + b[1..];
    }
  }

  function LE16(n: nat): Bytes { LE(n, 2) }

  function LE32(n: nat): Bytes { LE(n, 4) }

  function LE64(n: nat): Bytes { LE(n, 8) }

  function FromLE16(b: Bytes): nat
    requires |b| == 2
  {
    FromLE(b)
  }

  function FromLE32(b: Bytes): nat
    requires |b| == 4
  {
    FromLE(b)
  }

  function FromLE64(b: Bytes): nat
    requires |b| == 8
  {
    FromLE(b)
  }

  lemma Powers()
    ensures Pow256(2) == TWO16 && Pow256(4) == TWO32 && Pow256(8) == TWO64
  {
    assert Pow256(1) == 256 && Pow256(2) == 0x1_0000 && Pow256(3) == 0x100_0000 && Pow256(4) == 0x1_0000_0000;
    assert Pow256(5) == 256 * 0x1_0000_0000 && Pow256(6) == 0x1_0000 * 0x1_0000_0000 &&
      Pow256(7) == 0x100_0000 * 0x1_0000_0000;
  }

  lemma LE16RoundTrip(n: nat)
    requires n < TWO16
    ensures FromLE16(LE16(n)) == n
  {
    Powers();
    LERoundTrip(n, 2);
  }

  lemma LE32RoundTrip(n: nat)
    requires n < TWO32
    ensures FromLE32(LE32(n)) == n
  {
    Powers();
    LERoundTrip(n, 4);
  }

  lemma LE64RoundTrip(n: nat)
    requires n < TWO64
    ensures FromLE64(LE64(n)) == n
  {
    Powers();
    LERoundTrip(n, 8);
  }
}
