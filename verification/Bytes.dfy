/** Machine integers and byte strings shared by every wire format of the program. */
module Bytes {
  const TWO32: int := 0x1_0000_0000

  type Byte = b: int | 0 <= b < 256
  type U32 = n: int | 0 <= n < TWO32

  datatype Option<+T> = None | Some(value: T)

  /** What an operation returns, or why it does not. */
  datatype Result<+T, +E> = Ok(value: T) | Err(error: E)

  /** Conversion to uint32: the high bits are dropped. */
  function Wrap32(n: int): U32 {
    n % TWO32
  }

  /** Byte k of a 32-bit word, byte 0 being the least significant. */
  function ByteOf(n: U32, k: nat): Byte
    requires k < 4
  {
    if k == 0 then n % 256
    else if k == 1 then n / 0x100 % 256
    else if k == 2 then n / 0x1_0000 % 256
    else n / 0x100_0000
  }

  function Le32(n: U32): seq<Byte> {
    seq(4, k requires 0 <= k < 4 => ByteOf(n, k))
  }

  function FromLe32(b: seq<Byte>): U32
    requires |b| == 4
  {
    b[0] as int + 0x100 * b[1] as int + 0x1_0000 * b[2] as int + 0x100_0000 * b[3] as int
  }

  /** Four bytes, the lowest first. */
  lemma Le32Layout(n: U32)
    ensures var b := Le32(n);
            && |b| == 4
            && b[0] as int + 0x100 * b[1] as int + 0x1_0000 * b[2] as int + 0x100_0000 * b[3] as int == n
  {
    assert n / 0x1_0000 == n / 0x100 / 0x100;
    assert n / 0x100_0000 == n / 0x1_0000 / 0x100;
  }

  lemma Le32RoundTrip(n: U32)
    ensures FromLe32(Le32(n)) == n
  {
    assert n / 0x1_0000 == n / 0x100 / 0x100;
    assert n / 0x100_0000 == n / 0x1_0000 / 0x100;
  }

  lemma FromLe32RoundTrip(b: seq<Byte>)
    requires |b| == 4
    ensures Le32(FromLe32(b)) == b
  {
    var n := FromLe32(b);
    assert n / 0x100 == b[1] as int + 0x100 * b[2] as int + 0x1_0000 * b[3] as int;
    assert n / 0x1_0000 == b[2] as int + 0x100 * b[3] as int;
    assert n / 0x100_0000 == b[3] as int;
  }

  /** All elements of a list of byte strings, joined in order. */
  function Flat(chunks: seq<seq<Byte>>): seq<Byte> {
    if |chunks| == 0 then [] else chunks[0] + Flat(chunks[1..])
  }

  lemma {:induction false} FlatAppend(a: seq<seq<Byte>>, b: seq<seq<Byte>>)
    ensures Flat(a + b) == Flat(a) + Flat(b)
  {
    if |a| == 0 {
      assert a + b == b;
    } else {
      FlatAppend(a[1..], b);
      assert (a + b)[1..] == a[1..] + b;
      assert (a + b)[0] == a[0];
    }
  }

  lemma FlatSingle(chunk: seq<Byte>)
    ensures Flat([chunk]) == chunk
  {
    assert [chunk][1..] == [];
  }

  lemma FlatSnoc(a: seq<seq<Byte>>, chunk: seq<Byte>)
    ensures Flat(a + [chunk]) == Flat(a) + chunk
  {
    FlatAppend(a, [chunk]);
    FlatSingle(chunk);
  }
}
