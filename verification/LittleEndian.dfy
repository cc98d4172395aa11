/** Signed 32-bit little-endian integers, as `i32::to_le_bytes` / `i32::from_le_bytes`
    and Python's `struct` format `<i` read and write them. */
module LittleEndian {

  type byte = b: int | 0 <= b < 256
  type i32 = v: int | -0x8000_0000 <= v < 0x8000_0000
  type Quad = b: seq<byte> | |b| == 4 witness [0, 0, 0, 0]

  const MAX_I32 := 0x7FFF_FFFF

  /** Two's-complement: the unsigned 32-bit pattern of v. */
  function Pattern(v: i32): (u: nat)
    ensures u < 0x1_0000_0000
  {
    if v < 0 then v + 0x1_0000_0000 else v
  }

  function ToBytes(v: i32): (b: Quad) {
    var u := Pattern(v);
    [u % 256, u / 256 % 256, u / 0x1_0000 % 256, u / 0x100_0000]
  }

  /** The four bytes read as an unsigned number, least significant byte first. */
  function Unsigned(b: Quad): nat {
    var b0: int, b1: int, b2: int, b3: int := b[0], b[1], b[2], b[3];
    b0 + 256 * b1 + 0x1_0000 * b2 + 0x100_0000 * b3
  }

  function FromBytes(b: Quad): (v: i32) {
    var u := Unsigned(b);
    if u < 0x8000_0000 then u else u - 0x1_0000_0000
  }

  lemma FromTo(v: i32)
    ensures FromBytes(ToBytes(v)) == v
  {
    var u := Pattern(v);
    assert u / 0x1_0000 == u / 256 / 256;
    assert u / 0x100_0000 == u / 256 / 256 / 256;
  }

  lemma ToFrom(b: Quad)
    ensures ToBytes(FromBytes(b)) == b
  {
    var u := Unsigned(b);
    assert Pattern(FromBytes(b)) == u;
    var b0: int, b1: int, b2: int, b3: int := b[0], b[1], b[2], b[3];
    LastDigit(b0, b1 + 256 * (b2 + 256 * b3));
    LastDigit(b1, b2 + 256 * b3);
    LastDigit(b2, b3);
    assert u / 0x1_0000 == u / 256 / 256;
    assert u / 0x100_0000 == u / 256 / 256 / 256;
  }

  lemma LastDigit(low: int, high: int)
    requires 0 <= low < 256
    ensures (low + 256 * high) % 256 == low && (low + 256 * high) / 256 == high
  {
  }

  /** A table of integers, written one after the other. */
  function TableBytes(t: seq<i32>): (b: seq<byte>)
    ensures |b| == 4 * |t|
  {
    if t == [] then [] else ToBytes(t[0]) + TableBytes(t[1..])
  }

  function Entry(b: seq<byte>, at: nat): (v: i32)
    requires at + 4 <= |b|
  {
    FromBytes(b[at..at + 4])
  }

  /** The signed number in the four bytes from `at` on, least significant first. */
  function NumberAt(bytes: seq<byte>, at: nat): int
    requires at + 4 <= |bytes|
  {
    var top: int := bytes[at + 3];
    bytes[at] + 256 * bytes[at + 1] + 65536 * bytes[at + 2] + 16777216 * (if top < 128 then top else top - 256)
  }

  lemma EntryIsNumber(bytes: seq<byte>, at: nat)
    requires at + 4 <= |bytes|
    ensures Entry(bytes, at) == NumberAt(bytes, at)
  {
    var b := bytes[at..at + 4];
    assert b[0] == bytes[at] && b[1] == bytes[at + 1] && b[2] == bytes[at + 2] && b[3] == bytes[at + 3];
  }

  /** Entry i of a written table is found 4*i bytes in. */
  lemma {:induction false} TableEntry(t: seq<i32>, i: nat)
    requires i < |t|
    ensures TableBytes(t)[4 * i..4 * i + 4] == ToBytes(t[i])
    ensures Entry(TableBytes(t), 4 * i) == t[i]
  {
    FromTo(t[i]);
    if i == 0 {
      assert TableBytes(t)[0..4] == ToBytes(t[0]);
    } else {
      TableEntry(t[1..], i - 1);
      assert TableBytes(t)[4 * i..4 * i + 4] == TableBytes(t[1..])[4 * (i - 1)..4 * (i - 1) + 4];
    }
  }

  /** A table read entry by entry and written again is the bytes it was read from. */
  lemma {:induction false} TableOfEntries(t: seq<i32>, b: seq<byte>)
    requires |b| == 4 * |t|
    requires forall i :: 0 <= i < |t| ==> t[i] == Entry(b, 4 * i)
    ensures TableBytes(t) == b
  {
    if t == [] {
    } else {
      ToFrom(b[0..4]);
      assert t[0] == Entry(b, 4 * 0);
      var rest := b[4..];
      forall i | 0 <= i < |t| - 1
        ensures t[1..][i] == Entry(rest, 4 * i)
      {
        assert rest[4 * i..4 * i + 4] == b[4 * (i + 1)..4 * (i + 1) + 4];
        assert t[i + 1] == Entry(b, 4 * (i + 1));
      }
      TableOfEntries(t[1..], rest);
      assert b == b[0..4] + rest;
    }
  }
}
