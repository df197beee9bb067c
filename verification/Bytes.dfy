/** Bytes, fixed-size keys and the big-endian length field shared by the wire format and the replies. */
module Bytes {
  newtype byte = x: int | 0 <= x < 256

  const TWO_TO_THE_32: int := 0x1_0000_0000

  const KEY_SIZE: nat := 32

  /** The `[32]byte` key of a message or write request. */
  type Key = k: seq<byte> | |k| == KEY_SIZE witness seq(KEY_SIZE, _ => 0)

  type Value = seq<byte>

  datatype Option<+T> = None | Some(value: T)

  /** `binary.BigEndian.PutUint32` of `uint32(n)`: the conversion keeps `n` modulo 2^32. */
  function Be32(n: nat): (b: seq<byte>)
    ensures |b| == 4
  {
    var n1 := n / 256;
    var n2 := n1 / 256;
    var n3 := n2 / 256;
    [(n3 % 256) as byte, (n2 % 256) as byte, (n1 % 256) as byte, (n % 256) as byte]
  }

  /** `binary.BigEndian.Uint32`. */
  function FromBe32(b: seq<byte>): (n: nat)
    requires |b| == 4
    ensures n < TWO_TO_THE_32
  {
    ((b[0] as int * 256 + b[1] as int) * 256 + b[2] as int) * 256 + b[3] as int
  }

  /** Reading back a written length gives it modulo 2^32, so exactly the lengths below 2^32 survive. */
  lemma Be32RoundTrip(n: nat)
    ensures FromBe32(Be32(n)) == n % TWO_TO_THE_32
  {
    var n1 := n / 256;
    var n2 := n1 / 256;
    var n3 := n2 / 256;
    var low := FromBe32(Be32(n));
    assert n == TWO_TO_THE_32 * (n3 / 256) + low;
    RestOf(n3 / 256, low);
  }

  lemma RestOf(q: nat, r: nat)
    requires r < 0x1_0000_0000
    ensures (0x1_0000_0000 * q + r) % 0x1_0000_0000 == r
  {
  }

  /** Big-endian: the most significant byte comes first. */
  lemma BigEndian(n: nat, b: seq<byte>)
    requires |b| == 4
    ensures Be32(n)[0] as int == n / 16777216 % 256 && Be32(n)[1] as int == n / 65536 % 256
    ensures Be32(n)[2] as int == n / 256 % 256 && Be32(n)[3] as int == n % 256
    ensures FromBe32(b) == b[0] as int * 16777216 + b[1] as int * 65536 + b[2] as int * 256 + b[3] as int
  {
    assert n / 256 / 256 == n / 65536 && n / 65536 / 256 == n / 16777216;
  }

  lemma FromBe32RoundTrip(b: seq<byte>)
    requires |b| == 4
    ensures Be32(FromBe32(b)) == b
  {
    var n3 := b[0] as int;
    var n2 := n3 * 256 + b[1] as int;
    var n1 := n2 * 256 + b[2] as int;
    var n := n1 * 256 + b[3] as int;
    assert n / 256 == n1 && n % 256 == b[3] as int;
    assert n1 / 256 == n2 && n1 % 256 == b[2] as int;
    assert n2 / 256 == n3 && n2 % 256 == b[1] as int;
  }

  /** A Go byte slice: a window on an array that other slices may share. */
  datatype Slice = Slice(arr: array<byte>, lo: nat, hi: nat) {
    predicate InBounds() {
      lo <= hi <= arr.Length
    }

    function Contents(): (v: Value)
      requires InBounds()
      reads arr
    {
      arr[lo..hi]
    }
  }

  /** The builtin `copy(dst[at:], src)` when the destination is long enough. */
  method CopyInto(dst: array<byte>, at: nat, src: seq<byte>)
    requires at + |src| <= dst.Length
    modifies dst
    ensures dst[..] == old(dst[..at]) + src + old(dst[at + |src|..])
  {
    forall i | 0 <= i < |src| {
      dst[at + i] := src[i];
    }
  }
}
