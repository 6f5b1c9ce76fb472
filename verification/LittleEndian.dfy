/** Bytes, and little-endian words made of them (encoding/binary). */
module LittleEndian {

  type Byte = b: int | 0 <= b < 0x100
  type Word = w: int | 0 <= w < 0x1_0000_0000
  type HalfWord = h: int | 0 <= h < 0x1_0000
  type Bytes = seq<Byte>
  type Quad = q: Bytes | |q| == 4 witness seq(4, _ => 0)
  type Pair = q: Bytes | |q| == 2 witness seq(2, _ => 0)

  /** binary.LittleEndian.Uint32. */
  function Uint32(q: Quad): Word {
    var q0, q1, q2, q3 := q[0] as int, q[1] as int, q[2] as int, q[3] as int;
    q0 + 0x100 * (q1 + 0x100 * (q2 + 0x100 * q3))
  }

  /** binary.LittleEndian.PutUint32. */
  function PutUint32(x: Word): Quad {
    [x % 0x100, x / 0x100 % 0x100, x / 0x100 / 0x100 % 0x100, x / 0x100 / 0x100 / 0x100]
  }

  /** The lowest byte comes first. */
  lemma LowestByteFirst(q: Quad, p: Pair)
    ensures Uint32(q) == q[0] as int + 256 * q[1] as int + 65536 * q[2] as int + 16777216 * q[3] as int
    ensures Uint16(p) == p[0] as int + 256 * p[1] as int
  {
  }

  lemma WordSurvivesBytes(x: Word)
    ensures Uint32(PutUint32(x)) == x
  {
  }

  lemma BytesSurviveWord(q: Quad)
    ensures PutUint32(Uint32(q)) == q
  {
    var q1, q2, q3 := q[1] as int, q[2] as int, q[3] as int;
    var x2 := q2 + 0x100 * q3;
    var x1 := q1 + 0x100 * x2;
    var x := Uint32(q) as int;
    assert x / 0x100 == x1 && x % 0x100 == q[0];
    assert x1 / 0x100 == x2 && x1 % 0x100 == q1;
    assert x2 / 0x100 == q3 && x2 % 0x100 == q2;
  }

  function Uint16(p: Pair): HalfWord { p[0] as int + 0x100 * (p[1] as int) }

  function PutUint16(x: HalfWord): Pair { [x % 0x100, x / 0x100] }

  lemma HalfWordSurvivesBytes(x: HalfWord)
    ensures Uint16(PutUint16(x)) == x
  {
  }
}
