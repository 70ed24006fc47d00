/** Machine integers, little-endian fields, and the byte/word conversions shared by the FAT32 code. */
module Words {

  type u8 = x: int | 0 <= x < 0x100
  type u16 = x: int | 0 <= x < 0x1_0000
  type u32 = x: int | 0 <= x < 0x1_0000_0000

  const BYTES_PER_SECTOR: nat := 512
  const WORDS_PER_SECTOR: nat := 256

  /** One sector as the 256 words the drive transfers, and as the 512 bytes the FAT32 code edits. */
  type SectorWords = w: seq<u16> | |w| == WORDS_PER_SECTOR witness seq(WORDS_PER_SECTOR, _ => 0)
  type Sector = b: seq<u8> | |b| == BYTES_PER_SECTOR witness seq(BYTES_PER_SECTOR, _ => 0)

  function ZeroWords(): SectorWords {
    seq(WORDS_PER_SECTOR, _ => 0)
  }

  function ZeroSector(): Sector {
    seq(BYTES_PER_SECTOR, _ => 0)
  }

  function Le16(b: seq<u8>, at: nat): u16
    requires at + 2 <= |b|
  {
    b[at] as int + 0x100 * b[at + 1] as int
  }

  function Le32(b: seq<u8>, at: nat): u32
    requires at + 4 <= |b|
  {
    b[at] as int + 0x100 * b[at + 1] as int + 0x1_0000 * b[at + 2] as int + 0x100_0000 * b[at + 3] as int
  }

  function Bytes16(x: u16): (b: seq<u8>)
    ensures |b| == 2 && Le16(b, 0) == x
  {
    [x % 0x100, x / 0x100]
  }

  function Bytes32(x: u32): (b: seq<u8>)
    ensures |b| == 4 && Le32(b, 0) == x
  {
    [x % 0x100, x / 0x100 % 0x100, x / 0x1_0000 % 0x100, x / 0x100_0000]
  }

  /** `b` with the bytes from `at` on replaced by `field`. */
  function Patch(b: seq<u8>, at: nat, field: seq<u8>): (r: seq<u8>)
    requires at + |field| <= |b|
    ensures |r| == |b|
    ensures forall i :: 0 <= i < |b| ==> r[i] == if at <= i < at + |field| then field[i - at] else b[i]
  {
    b[..at] + field + b[at + |field|..]
  }

  function WordsOf(b: Sector): SectorWords {
    seq(WORDS_PER_SECTOR, i requires 0 <= i < WORDS_PER_SECTOR => Le16(b, 2 * i))
  }

  function BytesOf(w: SectorWords): Sector {
    seq(BYTES_PER_SECTOR,
        i requires 0 <= i < BYTES_PER_SECTOR => if i % 2 == 0 then w[i / 2] % 0x100 else w[i / 2] / 0x100)
  }

  /** Nothing is lost between the byte and the word form of a sector, in either direction. */
  lemma SectorRoundTrip(b: Sector, w: SectorWords)
    ensures BytesOf(WordsOf(b)) == b
    ensures WordsOf(BytesOf(w)) == w
  {
    forall i | 0 <= i < BYTES_PER_SECTOR
      ensures BytesOf(WordsOf(b))[i] == b[i]
    {
      assert WordsOf(b)[i / 2] == Le16(b, 2 * (i / 2));
    }
    forall i | 0 <= i < WORDS_PER_SECTOR
      ensures WordsOf(BytesOf(w))[i] == w[i]
    {
      assert BytesOf(w)[2 * i] == w[i] % 0x100 && BytesOf(w)[2 * i + 1] == w[i] / 0x100;
    }
  }

  /** The low byte of a word comes first. */
  lemma WordsAreLittleEndian(b: Sector, i: nat)
    requires i < 256
    ensures WordsOf(b)[i] % 0x100 == b[2 * i] && WordsOf(b)[i] / 0x100 == b[2 * i + 1]
  {
  }

  /** Fields are stored lowest byte first. */
  lemma FieldsAreLittleEndian(b: seq<u8>, at: nat)
    requires at + 4 <= |b|
    ensures Le16(b, at) % 0x100 == b[at] && Le16(b, at) / 0x100 == b[at + 1]
    ensures Le32(b, at) % 0x100 == b[at] && Le32(b, at) / 0x100 % 0x100 == b[at + 1]
    ensures Le32(b, at) / 0x1_0000 % 0x100 == b[at + 2] && Le32(b, at) / 0x100_0000 == b[at + 3]
  {
    Digits(b[at], b[at + 1], b[at + 2], b[at + 3]);
    LowDigit(b[at], b[at + 1] as int);
  }

  lemma Digits(a: u8, b: u8, c: u8, d: u8)
    ensures var x := a as int + 0x100 * b as int + 0x1_0000 * c as int + 0x100_0000 * d as int;
      x % 0x100 == a && x / 0x100 % 0x100 == b && x / 0x1_0000 % 0x100 == c && x / 0x100_0000 == d
  {
    var z := c as int + 0x100 * d as int;
    var y := b as int + 0x100 * z;
    LowDigit(a, y);
    LowDigit(b, z);
    LowDigit(c, d as int);
    assert a as int + 0x100 * b as int + 0x1_0000 * z == a as int + 0x100 * y;
  }

  lemma LowDigit(a: u8, rest: nat)
    ensures (a as int + 0x100 * rest) % 0x100 == a && (a as int + 0x100 * rest) / 0x100 == rest
  {
  }

  method BytesToWords(bytes: array<u8>) returns (words: array<u16>)
    requires bytes.Length == BYTES_PER_SECTOR
    ensures fresh(words) && words.Length == WORDS_PER_SECTOR
    ensures words[..] == WordsOf(bytes[..])
  {
    words := new u16[WORDS_PER_SECTOR](_ => 0);
    for i := 0 to WORDS_PER_SECTOR
      invariant forall j :: 0 <= j < i ==> words[j] == Le16(bytes[..], 2 * j)
    {
      words[i] := bytes[i * 2] as int + bytes[i * 2 + 1] as int * 0x100;
    }
  }

  method WordsToBytes(words: array<u16>) returns (bytes: array<u8>)
    requires words.Length == WORDS_PER_SECTOR
    ensures fresh(bytes) && bytes.Length == BYTES_PER_SECTOR
    ensures bytes[..] == BytesOf(words[..])
  {
    bytes := new u8[BYTES_PER_SECTOR](_ => 0);
    for i := 0 to WORDS_PER_SECTOR
      invariant forall j :: 0 <= j < 2 * i ==> bytes[j] == BytesOf(words[..])[j]
    {
      bytes[i * 2] := words[i] % 0x100;
      bytes[i * 2 + 1] := words[i] / 0x100;
    }
  }

  /** `dst[at..at + |src|].copy_from_slice(src)` */
  method CopyFromSlice(dst: array<u8>, at: nat, src: seq<u8>)
    requires at + |src| <= dst.Length
    modifies dst
    ensures dst[..] == Patch(old(dst[..]), at, src)
  {
    for i := 0 to |src|
      invariant forall j :: 0 <= j < dst.Length ==>
        dst[j] == if at <= j < at + i then src[j - at] else old(dst[j])
    {
      dst[at + i] := src[i];
    }
  }
}
