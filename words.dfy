/** Machine words and the big-endian byte order used for packet loads. */
module Words {
  import opened Wrappers

  const U8_LIMIT: int := 0x100
  const U16_LIMIT: int := 0x1_0000
  const U32_LIMIT: int := 0x1_0000_0000

  newtype u8 = x: int | 0 <= x < 0x100
  newtype u32 = x: int | 0 <= x < 0x1_0000_0000

  /** The word whose big-endian bytes are b0 b1 b2 b3 (b0 most significant). */
  function BeU32(b0: u8, b1: u8, b2: u8, b3: u8): u32
  {
    (b0 as int * 0x100_0000 + b1 as int * 0x1_0000 + b2 as int * 0x100 + b3 as int) as u32
  }

  /** The half-word whose big-endian bytes are b0 b1, zero-extended to 32 bits. */
  function BeU16(b0: u8, b1: u8): (v: u32)
    ensures v as int < U16_LIMIT
  {
    (b0 as int * 0x100 + b1 as int) as u32
  }

  /** The four big-endian bytes of a word, peeled off one byte at a time. */
  function WordBytes(v: u32): (s: seq<u8>)
    ensures |s| == 4
  {
    var q1 := v as int / 0x100;
    var q2 := q1 / 0x100;
    var q3 := q2 / 0x100;
    [q3 as u8, (q2 % 0x100) as u8, (q1 % 0x100) as u8, (v as int % 0x100) as u8]
  }

  /** The two big-endian bytes of a half-word. */
  function HalfBytes(v: u32): (s: seq<u8>)
    requires v as int < U16_LIMIT
    ensures |s| == 2
  {
    [(v as int / 0x100) as u8, (v as int % 0x100) as u8]
  }

  lemma WordBytesRoundTrip(v: u32)
    ensures var s := WordBytes(v); BeU32(s[0], s[1], s[2], s[3]) == v
  {
    var x := v as int;
    var q1 := x / 0x100;
    var q2 := q1 / 0x100;
    var q3 := q2 / 0x100;
    assert x == q1 * 0x100 + x % 0x100;
    assert q1 == q2 * 0x100 + q1 % 0x100;
    assert q2 == q3 * 0x100 + q2 % 0x100;
  }

  lemma BeU32RoundTrip(b0: u8, b1: u8, b2: u8, b3: u8)
    ensures WordBytes(BeU32(b0, b1, b2, b3)) == [b0, b1, b2, b3]
  {
    var x := BeU32(b0, b1, b2, b3) as int;
    var q1 := b0 as int * 0x1_0000 + b1 as int * 0x100 + b2 as int;
    var q2 := b0 as int * 0x100 + b1 as int;
    assert x == q1 * 0x100 + b3 as int;
    assert x / 0x100 == q1 && x % 0x100 == b3 as int;
    assert q1 == q2 * 0x100 + b2 as int;
    assert q1 / 0x100 == q2 && q1 % 0x100 == b2 as int;
    assert q2 / 0x100 == b0 as int && q2 % 0x100 == b1 as int;
  }

  lemma HalfBytesRoundTrip(v: u32)
    requires v as int < U16_LIMIT
    ensures var s := HalfBytes(v); BeU16(s[0], s[1]) == v
  {
  }

  lemma BeU16RoundTrip(b0: u8, b1: u8)
    ensures HalfBytes(BeU16(b0, b1)) == [b0, b1]
  {
  }

  /** Reads a big-endian word from the front of `s`; fails when fewer than
      four bytes are there. This stands for the byte-order cursor read. */
  function ReadU32Be(s: seq<u8>): (r: Option<u32>)
    ensures r.Some? <==> |s| >= 4
    ensures r.Some? ==> r.value == BeU32(s[0], s[1], s[2], s[3])
  {
    if |s| < 4 then None
    else Some(BeU32(s[0], s[1], s[2], s[3]))
  }

  /** Reads a big-endian half-word from the front of `s`; fails when fewer than
      two bytes are there. */
  function ReadU16Be(s: seq<u8>): (r: Option<u32>)
    ensures r.Some? <==> |s| >= 2
    ensures r.Some? ==> r.value == BeU16(s[0], s[1])
  {
    if |s| < 2 then None
    else Some(BeU16(s[0], s[1]))
  }

  /** The word read yields `v` exactly when at least four bytes are there and
      the first four are `v`'s big-endian bytes. */
  lemma ReadU32BeMeans(s: seq<u8>, v: u32)
    ensures ReadU32Be(s) == Some(v) <==> |s| >= 4 && s[..4] == WordBytes(v)
  {
    if |s| >= 4 {
      BeU32RoundTrip(s[0], s[1], s[2], s[3]);
      WordBytesRoundTrip(v);
      assert s[..4] == [s[0], s[1], s[2], s[3]];
    }
  }

  /** The half-word read yields `v` exactly when at least two bytes are there,
      `v` is below 65536 and the first two bytes are `v`'s big-endian bytes. */
  lemma ReadU16BeMeans(s: seq<u8>, v: u32)
    ensures ReadU16Be(s) == Some(v) <==> |s| >= 2 && v as int < U16_LIMIT && s[..2] == HalfBytes(v)
  {
    if |s| >= 2 {
      BeU16RoundTrip(s[0], s[1]);
      if v as int < U16_LIMIT {
        HalfBytesRoundTrip(v);
      }
      assert s[..2] == [s[0], s[1]];
    }
  }
}
