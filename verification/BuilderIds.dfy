/**
 The bytes that are hashed into a block ID: the tenant, two 64-bit seeds and a 64-bit sequence number,
 with no separators. Different (tenant, partition, start offset, n) always give different bytes, so two
 IDs of BuilderProtocol can only meet if the hash itself collides.
 */
module BuilderIds {

  newtype Byte = b: int | 0 <= b < 256

  const WORD: int := 0x1_0000_0000_0000_0000

  /** The `k` little-endian bytes of x. */
  function LittleEndian(x: nat, k: nat): (bytes: seq<Byte>)
    ensures |bytes| == k
  {
    if k == 0 then [] else [(x % 256) as Byte] + LittleEndian(x / 256, k - 1)
  }

  function FromLittleEndian(bytes: seq<Byte>): nat {
    if |bytes| == 0 then 0 else bytes[0] as nat + 256 * FromLittleEndian(bytes[1..])
  }

  function Pow256(k: nat): nat {
    if k == 0 then 1 else 256 * Pow256(k - 1)
  }

  lemma {:induction false} LittleEndianRoundTrip(x: nat, k: nat)
    requires x < Pow256(k)
    ensures FromLittleEndian(LittleEndian(x, k)) == x
  {
    if k > 0 {
      LittleEndianRoundTrip(x / 256, k - 1);
      assert LittleEndian(x, k)[1..] == LittleEndian(x / 256, k - 1);
    }
  }

  /** newBuf, with the sequence number in its last eight bytes. */
  function HashInput(tenant: seq<Byte>, partition: nat, start: nat, n: nat): seq<Byte> {
    tenant + LittleEndian(partition, 8) + LittleEndian(start, 8) + LittleEndian(n, 8)
  }

  lemma WordRoundTrip(x: nat)
    requires x < WORD
    ensures FromLittleEndian(LittleEndian(x, 8)) == x
  {
    assert Pow256(8) == WORD by {
      assert Pow256(2) == 0x1_0000;
      assert Pow256(4) == 0x1_0000_0000;
      assert Pow256(6) == 0x1_0000_0000_0000;
    }
    LittleEndianRoundTrip(x, 8);
  }

  /** Equal hash inputs come from equal seeds and equal sequence numbers, whatever bytes the tenants contain. */
  lemma HashInputInjective(t1: seq<Byte>, p1: nat, s1: nat, n1: nat, t2: seq<Byte>, p2: nat, s2: nat, n2: nat)
    requires p1 < WORD && s1 < WORD && n1 < WORD && p2 < WORD && s2 < WORD && n2 < WORD
    requires HashInput(t1, p1, s1, n1) == HashInput(t2, p2, s2, n2)
    ensures t1 == t2 && p1 == p2 && s1 == s2 && n1 == n2
  {
    var a, b := HashInput(t1, p1, s1, n1), HashInput(t2, p2, s2, n2);
    var k := |t1|;
    assert k == |t2|;
    assert a[..k] == t1 && b[..k] == t2;
    assert a[k..k + 8] == LittleEndian(p1, 8) && b[k..k + 8] == LittleEndian(p2, 8);
    assert a[k + 8..k + 16] == LittleEndian(s1, 8) && b[k + 8..k + 16] == LittleEndian(s2, 8);
    assert a[k + 16..] == LittleEndian(n1, 8) && b[k + 16..] == LittleEndian(n2, 8);
    WordRoundTrip(p1); WordRoundTrip(p2);
    WordRoundTrip(s1); WordRoundTrip(s2);
    WordRoundTrip(n1); WordRoundTrip(n2);
  }
}
