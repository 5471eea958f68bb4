/** 32-bit words and their bytes. */
module Words {
  import opened Bytes

  type word = x: int | 0 <= x < 0x1_0000_0000

  /** A 32-bit byte swap. */
  function Swab(w: word): word {
    var q1 := w / 256;
    var q2 := q1 / 256;
    var q3 := q2 / 256;
    w % 256 * 0x1000000 + q1 % 256 * 0x10000 + q2 % 256 * 0x100 + q3
  }

  lemma SwabTwice(w: word)
    ensures Swab(Swab(w)) == w
  {
    var q1 := w / 256;
    var q2 := q1 / 256;
    var q3 := q2 / 256;
    var v := Swab(w);
    assert v == q3 + 256 * (q2 % 256 + 256 * (q1 % 256 + 256 * (w % 256)));
    assert v / 256 == q2 % 256 + 256 * (q1 % 256 + 256 * (w % 256));
    assert v / 256 / 256 == q1 % 256 + 256 * (w % 256);
    assert v / 256 / 256 / 256 == w % 256;
  }

  /** The four bytes of a little-endian word. */
  function Little(b0: byte, b1: byte, b2: byte, b3: byte): word {
    b0 as int + 256 * (b1 as int + 256 * (b2 as int + 256 * b3 as int))
  }

  /** A little-endian read. */
  function WordAt(s: seq<byte>, at: nat): word
    requires at + 4 <= |s|
  {
    Little(s[at], s[at + 1], s[at + 2], s[at + 3])
  }

  /** A little-endian write, `struct.pack("<I", w)`. */
  function WordBytes(w: word): (s: seq<byte>)
    ensures |s| == 4
  {
    var q1 := w / 256;
    var q2 := q1 / 256;
    [w % 256, q1 % 256, q2 % 256, q2 / 256]
  }

  lemma WordBytesRead(w: word)
    ensures WordAt(WordBytes(w), 0) == w
  {
  }

  lemma WordBytesWritten(s: seq<byte>, at: nat)
    requires at + 4 <= |s|
    ensures WordBytes(WordAt(s, at)) == s[at..at + 4]
  {
    LittleBytes(s[at], s[at + 1], s[at + 2], s[at + 3]);
    assert s[at..at + 4] == [s[at], s[at + 1], s[at + 2], s[at + 3]];
  }

  lemma LittleBytes(b0: byte, b1: byte, b2: byte, b3: byte)
    ensures WordBytes(Little(b0, b1, b2, b3)) == [b0, b1, b2, b3]
    ensures Swab(Little(b3, b2, b1, b0)) == Little(b0, b1, b2, b3)
  {
    var h2 := b2 as int + 256 * b3 as int;
    var h1 := b1 as int + 256 * h2;
    var v := b0 as int + 256 * h1;
    assert v % 256 == b0 && v / 256 == h1 && h1 % 256 == b1 && h1 / 256 == h2 && h2 % 256 == b2 && h2 / 256 == b3;
    var g2 := b1 as int + 256 * b0 as int;
    var g1 := b2 as int + 256 * g2;
    var u := b3 as int + 256 * g1;
    assert u % 256 == b3 && u / 256 == g1 && g1 % 256 == b2 && g1 / 256 == g2 && g2 % 256 == b1 && g2 / 256 == b0;
  }
}
