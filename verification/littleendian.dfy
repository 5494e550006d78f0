/** Fixed-width little-endian integers, as encoding/binary writes them. */
module LittleEndian {

  type Byte = x: int | 0 <= x < 256
  type Bytes = seq<Byte>

  /** One more than the largest integer that `width` bytes hold. */
  function Limit(width: nat): (n: nat)
    ensures n >= 1
  {
    if width == 0 then 1 else 256 * Limit(width - 1)
  }

  /** The `width` low-order bytes of `n`, least significant first. */
  function Put(n: nat, width: nat): (b: Bytes)
    ensures |b| == width
    decreases width
  {
    if width == 0 then [] else [n % 256] + Put(n / 256, width - 1)
  }

  function Get(b: Bytes): (n: nat) {
    if b == [] then 0 else b[0] as int + 256 * Get(b[1..])
  }

  lemma {:induction false} GetPut(n: nat, width: nat)
    requires n < Limit(width)
    ensures Get(Put(n, width)) == n
    decreases width
  {
    if width > 0 {
      GetPut(n / 256, width - 1);
      assert Put(n, width)[1..] == Put(n / 256, width - 1);
    }
  }

  lemma {:induction false} PutGet(b: Bytes)
    ensures Put(Get(b), |b|) == b
  {
    if b != [] {
      PutGet(b[1..]);
      assert Get(b) % 256 == b[0] && Get(b) / 256 == Get(b[1..]);
    }
  }

  /** The byte after `b` has weight 256^|b|: the least significant comes first. */
  lemma {:induction false} GetSnoc(b: Bytes, x: Byte)
    ensures Get(b + [x]) == Get(b) + Limit(|b|) * x
  {
    if b != [] {
      GetSnoc(b[1..], x);
      assert (b + [x])[1..] == b[1..] + [x];
    }
  }

  lemma Limit4()
    ensures Limit(4) == 4294967296
  {
    assert Limit(2) == 65536;
  }
}
