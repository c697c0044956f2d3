/** The program loader `read_program` (src/main.rs:8-21, repeated in
    src/bin/disassembler.rs:14-27): a byte buffer becomes big-endian words,
    four bytes per word, in file order. A trailing group of one to three
    bytes is dropped by `tuples()` without any report.

    The shifted bytes occupy disjoint bit ranges, so `a<<24 | b<<16 | c<<8 | d`
    is the sum written here.
 */
module Loader {
  import opened Words

  /** `(a << 24) | (b << 16) | (c << 8) | d` */
  function BigEndian(a: u8, b: u8, c: u8, d: u8): u32 {
    a * 0x100_0000 + b * 0x1_0000 + c * 0x100 + d
  }

  /** The four bytes of a word, most significant first. */
  function WordBytes(w: u32): (bs: seq<u8>)
    ensures |bs| == 4
  {
    [w / 0x100_0000, w / 0x1_0000 % 256, w / 0x100 % 256, w % 256]
  }

  lemma BytesOfBigEndian(a: u8, b: u8, c: u8, d: u8)
    ensures WordBytes(BigEndian(a, b, c, d)) == [a, b, c, d]
  {
    var w := BigEndian(a, b, c, d);
    var bs := WordBytes(w);
    assert bs[0] == a by {
      assert b * 0x1_0000 + c * 0x100 + d < 0x100_0000;
    }
    assert bs[1] == b by {
      assert w / 0x1_0000 == a * 0x100 + b;
    }
    assert bs[2] == c by {
      assert w / 0x100 == a * 0x1_0000 + b * 0x100 + c;
    }
    assert bs[3] == d;
  }

  lemma BigEndianOfBytes(w: u32)
    ensures BigEndian(WordBytes(w)[0], WordBytes(w)[1], WordBytes(w)[2], WordBytes(w)[3]) == w
  {
    var bs := WordBytes(w);
    DropTwoBytes(w);
    LowByte(w / 0x1_0000);
    assert w / 0x1_0000 == bs[0] as int * 0x100 + bs[1];
    DropByte(w);
    LowByte(w / 0x100);
    assert w / 0x100 == bs[0] as int * 0x1_0000 + bs[1] as int * 0x100 + bs[2];
    LowByte(w);
  }

  /** A number is its upper part followed by its low byte. */
  lemma LowByte(n: nat)
    ensures n == (n / 0x100) * 0x100 + n % 0x100
  {
  }

  /** Dropping the low byte twice drops the low two bytes. */
  lemma DropByte(n: nat)
    ensures n / 0x100 / 0x100 == n / 0x1_0000
  {
  }

  /** Dropping the low two bytes and then one more drops the low three. */
  lemma DropTwoBytes(n: nat)
    ensures n / 0x1_0000 / 0x100 == n / 0x100_0000
  {
  }

  /** `read_program` after the file has been read into `buf`. */
  function ReadProgram(buf: seq<u8>): (ws: seq<u32>)
    ensures |ws| == |buf| / 4
    ensures forall k :: 0 <= k < |ws| ==>
      ws[k] == BigEndian(buf[4 * k], buf[4 * k + 1], buf[4 * k + 2], buf[4 * k + 3])
    decreases |buf|
  {
    if |buf| < 4 then []
    else [BigEndian(buf[0], buf[1], buf[2], buf[3])] + ReadProgram(buf[4..])
  }

  /** The byte image of a program: each word's bytes, most significant first. */
  function WriteProgram(ws: seq<u32>): (buf: seq<u8>)
    ensures |buf| == 4 * |ws|
  {
    if ws == [] then [] else WordBytes(ws[0]) + WriteProgram(ws[1..])
  }

  /** Reading the byte image of a program gives the program back. */
  lemma {:induction false} ReadWrite(ws: seq<u32>)
    ensures ReadProgram(WriteProgram(ws)) == ws
  {
    if ws != [] {
      var buf := WriteProgram(ws);
      assert buf[4..] == WriteProgram(ws[1..]);
      ReadWrite(ws[1..]);
      BigEndianOfBytes(ws[0]);
      assert ReadProgram(buf) == [ws[0]] + ws[1..];
    }
  }

  /** Writing what was read gives back every byte of a buffer whose length
      is a multiple of four. */
  lemma {:induction false} WriteRead(buf: seq<u8>)
    requires |buf| % 4 == 0
    ensures WriteProgram(ReadProgram(buf)) == buf
    decreases |buf|
  {
    if |buf| >= 4 {
      var ws := ReadProgram(buf);
      assert ws[1..] == ReadProgram(buf[4..]);
      WriteRead(buf[4..]);
      BytesOfBigEndian(buf[0], buf[1], buf[2], buf[3]);
      assert buf == buf[..4] + buf[4..];
    }
  }

  /** The trailing 1-3 bytes do not matter. */
  lemma TrailingBytesIgnored(buf: seq<u8>)
    ensures ReadProgram(buf) == ReadProgram(buf[..|buf| / 4 * 4])
  {
    var cut := buf[..|buf| / 4 * 4];
    assert forall k :: 0 <= k < |buf| / 4 ==> 4 * k + 3 < |cut|;
  }

  /** Words follow the order of the bytes: reading a concatenation of a
      4-aligned buffer and anything is the concatenation of the readings. */
  lemma {:induction false} ReadAppend(a: seq<u8>, b: seq<u8>)
    requires |a| % 4 == 0
    ensures ReadProgram(a + b) == ReadProgram(a) + ReadProgram(b)
    decreases |a|
  {
    if |a| >= 4 {
      assert (a + b)[4..] == a[4..] + b;
      ReadAppend(a[4..], b);
    } else {
      assert a + b == b;
    }
  }
}
