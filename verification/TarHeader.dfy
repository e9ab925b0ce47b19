/**
 * The 512-byte GNU tar member header that `TarInfo.tobuf` writes and `TarInfo.frombuf` reads, for the fields the
 * pipeline uses: name, size and type flag, guarded by the header checksum.
 */
module TarHeader {
  import opened Bytes

  const BLOCKSIZE := 512
  const LENGTH_NAME := 100
  const REGTYPE: Byte := 0x30
  const GNUTYPE_LONGNAME: Byte := 0x4C
  const LONG_LINK: ByteString := [46, 47, 46, 47, 64, 76, 111, 110, 103, 76, 105, 110, 107] // "././@LongLink"
  const GNU_MAGIC: ByteString := [117, 115, 116, 97, 114, 32, 32, 0] // "ustar  \0"
  const MAX_SIZE: nat := 0x1_0000_0000_0000_0000_0000_00 // 256 to the 11th

  datatype TarInfo = TarInfo(name: ByteString, size: nat, typeflag: Byte)

  // ---------- numbers

  function Pow(base: nat, k: nat): nat {
    if k == 0 then 1 else base * Pow(base, k - 1)
  }

  /** The `k` low octal digits of `n` as text, most significant first. */
  function OctalText(n: nat, k: nat): (r: ByteString)
    ensures |r| == k
    ensures forall i :: 0 <= i < k ==> 48 <= r[i] < 56
  {
    if k == 0 then [] else OctalText(n / 8, k - 1) + [48 + n % 8]
  }

  /** The `k` low base-256 digits of `n`, most significant first. */
  function BigEndian(n: nat, k: nat): (r: ByteString)
    ensures |r| == k
  {
    if k == 0 then [] else BigEndian(n / 256, k - 1) + [n % 256]
  }

  function ReadOctal(text: ByteString): Option<nat> {
    if text == [] then Some(0)
    else
      var high, digit := ReadOctal(text[..|text| - 1]), text[|text| - 1];
      if high.Some? && 48 <= digit < 56 then Some(high.value * 8 + (digit - 48)) else None
  }

  function ReadBigEndian(bytes: ByteString): nat {
    if bytes == [] then 0 else ReadBigEndian(bytes[..|bytes| - 1]) * 256 + bytes[|bytes| - 1]
  }

  lemma {:induction false} OctalRoundTrip(n: nat, k: nat)
    requires n < Pow(8, k)
    ensures ReadOctal(OctalText(n, k)) == Some(n)
  {
    if k > 0 {
      OctalRoundTrip(n / 8, k - 1);
      assert OctalText(n, k)[..k - 1] == OctalText(n / 8, k - 1);
    }
  }

  lemma {:induction false} BigEndianRoundTrip(n: nat, k: nat)
    requires n < Pow(256, k)
    ensures ReadBigEndian(BigEndian(n, k)) == n
  {
    if k > 0 {
      BigEndianRoundTrip(n / 256, k - 1);
      assert BigEndian(n, k)[..k - 1] == BigEndian(n / 256, k - 1);
    }
  }

  /** A number field: octal digits and a NUL, or, beyond those, a marker byte and base-256 digits. */
  function NumberField(n: nat, width: nat): (r: ByteString)
    requires 2 <= width && n < Pow(256, width - 1)
    ensures |r| == width
  {
    if n < Pow(8, width - 1) then OctalText(n, width - 1) + [0]
    else [0x80] + BigEndian(n, width - 1)
  }

  predicate IsSpace(b: Byte) {
    b == 32 || 9 <= b <= 13 || 28 <= b <= 31
  }

  function Strip(s: ByteString): ByteString {
    if s != [] && IsSpace(s[0]) then Strip(s[1..])
    else if s != [] && IsSpace(s[|s| - 1]) then Strip(s[..|s| - 1])
    else s
  }

  function UpToNul(s: ByteString): (r: ByteString)
    ensures |r| <= |s| && r == s[..|r|]
    ensures 0 !in r
    ensures |r| < |s| ==> s[|r|] == 0
  {
    if s == [] || s[0] == 0 then [] else [s[0]] + UpToNul(s[1..])
  }

  /** Reads a number field; None where the library raises InvalidHeaderError. */
  function ReadNumber(field: ByteString): Option<nat>
    requires field != []
  {
    if field[0] == 0x80 then Some(ReadBigEndian(field[1..]))
    else if field[0] == 0xFF then None
    else ReadOctal(Strip(UpToNul(field)))
  }

  lemma {:induction false} UpToNulStops(s: ByteString, rest: ByteString)
    requires 0 !in s
    ensures UpToNul(s + [0] + rest) == s
  {
    if s != [] {
      UpToNulStops(s[1..], rest);
      assert (s + [0] + rest)[1..] == s[1..] + [0] + rest;
      assert s[0] in s;
    }
  }

  lemma OctalFieldRoundTrip(n: nat, k: nat, rest: ByteString)
    requires 1 <= k && n < Pow(8, k)
    ensures ReadNumber(OctalText(n, k) + [0] + rest) == Some(n)
  {
    var text := OctalText(n, k);
    UpToNulStops(text, rest);
    assert Strip(text) == text;
    OctalRoundTrip(n, k);
  }

  lemma NumberFieldRoundTrip(n: nat, width: nat)
    requires 2 <= width && n < Pow(256, width - 1)
    ensures ReadNumber(NumberField(n, width)) == Some(n)
  {
    if n < Pow(8, width - 1) {
      OctalFieldRoundTrip(n, width - 1, []);
      assert NumberField(n, width) + [] == NumberField(n, width);
    } else {
      BigEndianRoundTrip(n, width - 1);
      assert NumberField(n, width)[1..] == BigEndian(n, width - 1);
    }
  }

  // ---------- checksum

  function Sum(s: ByteString): (r: nat)
    ensures r <= 255 * |s|
  {
    if s == [] then 0 else Sum(s[..|s| - 1]) + s[|s| - 1]
  }

  function SignedSum(s: ByteString): int {
    if s == [] then 0
    else
      var last: int := s[|s| - 1];
      SignedSum(s[..|s| - 1]) + (if last < 128 then last else last - 256)
  }

  // ---------- the block

  function StringField(s: ByteString, width: nat): (r: ByteString)
    ensures |r| == width
  {
    if |s| < width then s + Zeros(width - |s|) else s[..width]
  }

  /** The header before the checksum field: name, mode, uid, gid, size and mtime. */
  function Front(name: ByteString, mode: nat, size: nat, mtime: nat): (r: ByteString)
    requires mode < 0x1000 && size < MAX_SIZE && mtime < MAX_SIZE
    ensures |r| == 148
  {
    PowersInRange();
    StringField(name, 100) + NumberField(mode, 8) + NumberField(0, 8) + NumberField(0, 8)
    + NumberField(size, 12) + NumberField(mtime, 12)
  }

  /** The header behind the checksum field: type flag, link name, magic, owner names, devices, prefix, padding. */
  function Back(typeflag: Byte): (r: ByteString)
    ensures |r| == 356
  {
    [typeflag] + Zeros(100) + GNU_MAGIC + Zeros(247)
  }

  /** The checksum field: six octal digits, a NUL and the space left over from the blank field. */
  function ChecksumField(total: nat): (r: ByteString)
    ensures |r| == 8
  {
    OctalText(total, 6) + [0, 32]
  }

  function Header(name: ByteString, mode: nat, size: nat, mtime: nat, typeflag: Byte): (r: ByteString)
    requires mode < 0x1000 && size < MAX_SIZE && mtime < MAX_SIZE
    ensures |r| == BLOCKSIZE
  {
    var front, back := Front(name, mode, size, mtime), Back(typeflag);
    front + ChecksumField(256 + Sum(front) + Sum(back)) + back
  }

  /** Reads a header block; None where the library raises a HeaderError. */
  function FromBuf(buf: ByteString): Option<TarInfo>
    requires |buf| == BLOCKSIZE
  {
    var chksum := ReadNumber(buf[148..156]);
    var size := ReadNumber(buf[124..136]);
    if buf == Zeros(BLOCKSIZE) then None
    else if chksum == None || size == None then None
    else if chksum.value != 256 + Sum(buf[..148]) + Sum(buf[156..])
         && chksum.value != 256 + SignedSum(buf[..148]) + SignedSum(buf[156..]) then None
    else if ReadNumber(buf[100..108]) == None || ReadNumber(buf[108..116]) == None
         || ReadNumber(buf[116..124]) == None || ReadNumber(buf[136..148]) == None
         || ReadNumber(buf[329..337]) == None || ReadNumber(buf[337..345]) == None then None
    else Some(TarInfo(UpToNul(buf[..100]), size.value, buf[156]))
  }

  lemma PowersInRange()
    ensures 0x1000 <= Pow(8, 7) && Pow(8, 6) == 262144
    ensures Pow(8, 7) <= Pow(256, 7)
    ensures Pow(256, 11) == MAX_SIZE
  {
    assert Pow(8, 3) == 512;
    assert Pow(8, 5) == 32768;
    assert Pow(8, 7) == 2097152;
    assert Pow(256, 2) == 65536;
    assert Pow(256, 4) == 0x1_0000_0000;
    assert Pow(256, 6) == 0x1_0000_0000_0000;
    assert Pow(256, 8) == 0x1_0000_0000_0000_0000;
    assert Pow(256, 10) == 0x1_0000_0000_0000_0000_0000;
  }

  // ---------- the fields of a block

  /** The number fields before the checksum by their offsets: mode, owner, group, size, time. */
  predicate FieldsIn(front: ByteString, mode: ByteString, id: ByteString, size: ByteString, mtime: ByteString)
    requires |front| == 148
  {
    && front[100..108] == mode && front[108..116] == id && front[116..124] == id
    && front[124..136] == size && front[136..148] == mtime
  }

  /** The same in a whole block, and the checksum. */
  predicate FieldsAt(block: ByteString, mode: ByteString, id: ByteString, size: ByteString, mtime: ByteString,
                     check: ByteString)
    requires |block| == BLOCKSIZE
  {
    && block[100..108] == mode && block[108..116] == id && block[116..124] == id
    && block[124..136] == size && block[136..148] == mtime && block[148..156] == check
  }

  lemma FrontSplit(text: ByteString, mode: ByteString, id: ByteString, size: ByteString, mtime: ByteString,
                   front: ByteString)
    requires |text| == 100 && |mode| == 8 && |id| == 8 && |size| == 12 && |mtime| == 12
    requires front == text + mode + id + id + size + mtime
    ensures |front| == 148 && front[..100] == text && FieldsIn(front, mode, id, size, mtime)
  {
  }

  lemma BlockSplit(front: ByteString, check: ByteString, back: ByteString, block: ByteString, mode: ByteString,
                   id: ByteString, size: ByteString, mtime: ByteString)
    requires |front| == 148 && |check| == 8 && |back| == 356 && block == front + check + back
    requires FieldsIn(front, mode, id, size, mtime)
    ensures FieldsAt(block, mode, id, size, mtime, check) && block[..148] == front && block[156..] == back
    ensures block[..100] == front[..100] && block[148] == check[0] && block[156] == back[0]
    ensures block[329..337] == back[173..181] && block[337..345] == back[181..189]
  {
  }

  lemma FrontFields(name: ByteString, mode: nat, size: nat, mtime: nat, front: ByteString)
    requires mode < 0x1000 && size < MAX_SIZE && mtime < MAX_SIZE && front == Front(name, mode, size, mtime)
    ensures mode < Pow(256, 7) && 0 < Pow(256, 7) && size < Pow(256, 11) && mtime < Pow(256, 11)
    ensures front[..100] == StringField(name, 100)
    ensures FieldsIn(front, NumberField(mode, 8), NumberField(0, 8), NumberField(size, 12), NumberField(mtime, 12))
  {
    PowersInRange();
    FrontSplit(StringField(name, 100), NumberField(mode, 8), NumberField(0, 8), NumberField(size, 12),
               NumberField(mtime, 12), front);
  }

  lemma HeaderPieces(name: ByteString, mode: nat, size: nat, mtime: nat, typeflag: Byte, front: ByteString,
                     back: ByteString)
    requires mode < 0x1000 && size < MAX_SIZE && mtime < MAX_SIZE
    requires front == Front(name, mode, size, mtime) && back == Back(typeflag)
    ensures Header(name, mode, size, mtime, typeflag) == front + ChecksumField(256 + Sum(front) + Sum(back)) + back
  {
  }

  // ---------- reading a written block

  /** A written header reads back: the (cut) name up to its first NUL, the size and the type flag. */
  lemma HeaderRoundTrip(name: ByteString, mode: nat, size: nat, mtime: nat, typeflag: Byte)
    requires mode < 0x1000 && size < MAX_SIZE && mtime < MAX_SIZE
    ensures FromBuf(Header(name, mode, size, mtime, typeflag))
            == Some(TarInfo(UpToNul(StringField(name, 100)), size, typeflag))
  {
    var front, back := Front(name, mode, size, mtime), Back(typeflag);
    var m, id, s, t := FrontReads(name, mode, size, mtime, front);
    BackReads(typeflag, back);
    HeaderPieces(name, mode, size, mtime, typeflag, front, back);
    BlockAccepted(front, back, Header(name, mode, size, mtime, typeflag), m, id, s, t, size, typeflag);
  }

  lemma FrontReads(name: ByteString, mode: nat, size: nat, mtime: nat, front: ByteString)
    returns (m: ByteString, id: ByteString, s: ByteString, t: ByteString)
    requires mode < 0x1000 && size < MAX_SIZE && mtime < MAX_SIZE && front == Front(name, mode, size, mtime)
    ensures FieldsIn(front, m, id, s, t) && front[..100] == StringField(name, 100)
    ensures |m| == 8 && |id| == 8 && |s| == 12 && |t| == 12
    ensures ReadNumber(m) == Some(mode) && ReadNumber(id) == Some(0)
    ensures ReadNumber(s) == Some(size) && ReadNumber(t) == Some(mtime)
  {
    FrontFields(name, mode, size, mtime, front);
    m, id, s, t := NumberField(mode, 8), NumberField(0, 8), NumberField(size, 12), NumberField(mtime, 12);
    NumberFieldRoundTrip(mode, 8);
    NumberFieldRoundTrip(0, 8);
    NumberFieldRoundTrip(size, 12);
    NumberFieldRoundTrip(mtime, 12);
  }

  lemma BackReads(typeflag: Byte, back: ByteString)
    requires back == Back(typeflag)
    ensures back[0] == typeflag && ReadNumber(back[173..181]) == Some(0) && ReadNumber(back[181..189]) == Some(0)
  {
    assert back[173..181] == Zeros(8) && back[181..189] == Zeros(8);
    assert UpToNul(Zeros(8)) == [];
    assert Strip([]) == [];
  }

  lemma ChecksumReads(total: nat)
    requires total < 262144
    ensures ReadNumber(ChecksumField(total)) == Some(total) && ChecksumField(total)[0] != 0
  {
    PowersInRange();
    assert OctalText(total, 6) + [0] + [32] == ChecksumField(total);
    OctalFieldRoundTrip(total, 6, [32]);
  }

  /** A block whose number fields parse and whose checksum field holds the sum is accepted. */
  lemma BlockAccepted(front: ByteString, back: ByteString, block: ByteString, m: ByteString, id: ByteString,
                      s: ByteString, t: ByteString, size: nat, typeflag: Byte)
    requires |front| == 148 && |back| == 356 && FieldsIn(front, m, id, s, t)
    requires block == front + ChecksumField(256 + Sum(front) + Sum(back)) + back
    requires |m| == 8 && |id| == 8 && |s| == 12 && |t| == 12
    requires ReadNumber(m).Some? && ReadNumber(id).Some? && ReadNumber(s) == Some(size) && ReadNumber(t).Some?
    requires ReadNumber(back[173..181]).Some? && ReadNumber(back[181..189]).Some? && back[0] == typeflag
    ensures FromBuf(block) == Some(TarInfo(UpToNul(front[..100]), size, typeflag))
  {
    var sum := 256 + Sum(front) + Sum(back);
    ChecksumReads(sum);
    PiecesAccepted(front, ChecksumField(sum), back, block, m, id, s, t, sum, size, typeflag);
  }

  lemma PiecesAccepted(front: ByteString, check: ByteString, back: ByteString, block: ByteString, m: ByteString,
                       id: ByteString, s: ByteString, t: ByteString, sum: nat, size: nat, typeflag: Byte)
    requires |front| == 148 && |check| == 8 && |back| == 356 && FieldsIn(front, m, id, s, t)
    requires block == front + check + back
    requires |m| == 8 && |id| == 8 && |s| == 12 && |t| == 12
    requires ReadNumber(m).Some? && ReadNumber(id).Some? && ReadNumber(s) == Some(size) && ReadNumber(t).Some?
    requires ReadNumber(check) == Some(sum) && check[0] != 0 && sum == 256 + Sum(front) + Sum(back)
    requires ReadNumber(back[173..181]).Some? && ReadNumber(back[181..189]).Some? && back[0] == typeflag
    ensures FromBuf(block) == Some(TarInfo(UpToNul(front[..100]), size, typeflag))
  {
    BlockSplit(front, check, back, block, m, id, s, t);
    FieldsAccepted(block, sum, front[..100], size, typeflag);
  }

  lemma FieldsAccepted(buf: ByteString, sum: nat, text: ByteString, size: nat, typeflag: Byte)
    requires |buf| == BLOCKSIZE && buf[148] != 0
    requires ReadNumber(buf[148..156]) == Some(sum) && sum == 256 + Sum(buf[..148]) + Sum(buf[156..])
    requires ReadNumber(buf[100..108]).Some? && ReadNumber(buf[108..116]).Some? && ReadNumber(buf[116..124]).Some?
    requires ReadNumber(buf[124..136]) == Some(size) && ReadNumber(buf[136..148]).Some?
    requires ReadNumber(buf[329..337]).Some? && ReadNumber(buf[337..345]).Some?
    requires buf[..100] == text && buf[156] == typeflag
    ensures FromBuf(buf) == Some(TarInfo(UpToNul(text), size, typeflag))
  {
    assert Zeros(BLOCKSIZE)[148] == 0;
  }

  // ---------- the block as others read it

  /** The numbers of a written header; the checksum is the sum of the block with blanks in the place of itself. */
  lemma HeaderNumbers(name: ByteString, mode: nat, size: nat, mtime: nat, typeflag: Byte, block: ByteString)
    returns (sum: nat)
    requires mode < 0x1000 && size < MAX_SIZE && mtime < MAX_SIZE
    requires block == Header(name, mode, size, mtime, typeflag)
    ensures mode < Pow(256, 7) && 0 < Pow(256, 7) && size < Pow(256, 11) && mtime < Pow(256, 11)
    ensures FieldsAt(block, NumberField(mode, 8), NumberField(0, 8), NumberField(size, 12), NumberField(mtime, 12),
                     ChecksumField(sum))
    ensures sum == 256 + Sum(block[..148]) + Sum(block[156..])
  {
    var front, back := Front(name, mode, size, mtime), Back(typeflag);
    sum := 256 + Sum(front) + Sum(back);
    HeaderPieces(name, mode, size, mtime, typeflag, front, back);
    FrontFields(name, mode, size, mtime, front);
    BlockSplit(front, ChecksumField(sum), back, block, NumberField(mode, 8), NumberField(0, 8),
               NumberField(size, 12), NumberField(mtime, 12));
  }

  ghost predicate TextAt(block: ByteString, name: ByteString, typeflag: Byte)
    requires |block| == BLOCKSIZE
  {
    && (forall i | 0 <= i < 100 :: block[i] == if i < |name| then name[i] else 0)
    && block[156] == typeflag && block[257..265] == [117, 115, 116, 97, 114, 32, 32, 0]
    && (forall i | 157 <= i < 257 || 265 <= i < 512 :: block[i] == 0)
  }

  /** The rest of it: the name cut to 100 bytes, the type flag, the magic with its version; all else is NUL. */
  lemma HeaderText(name: ByteString, mode: nat, size: nat, mtime: nat, typeflag: Byte, block: ByteString)
    requires mode < 0x1000 && size < MAX_SIZE && mtime < MAX_SIZE
    requires block == Header(name, mode, size, mtime, typeflag)
    ensures TextAt(block, name, typeflag)
  {
    var front, check, back := TextPieces(name, mode, size, mtime, typeflag, block);
    BlockText(front, check, back, name, typeflag, block);
  }

  lemma TextPieces(name: ByteString, mode: nat, size: nat, mtime: nat, typeflag: Byte, block: ByteString)
    returns (front: ByteString, check: ByteString, back: ByteString)
    requires mode < 0x1000 && size < MAX_SIZE && mtime < MAX_SIZE
    requires block == Header(name, mode, size, mtime, typeflag)
    ensures |front| == 148 && |check| == 8 && back == Back(typeflag) && front[..100] == StringField(name, 100)
    ensures block == front + check + back
  {
    front, back := Front(name, mode, size, mtime), Back(typeflag);
    check := ChecksumField(256 + Sum(front) + Sum(back));
    HeaderPieces(name, mode, size, mtime, typeflag, front, back);
    FrontText(name, mode, size, mtime, front);
  }

  lemma FrontText(name: ByteString, mode: nat, size: nat, mtime: nat, front: ByteString)
    requires mode < 0x1000 && size < MAX_SIZE && mtime < MAX_SIZE && front == Front(name, mode, size, mtime)
    ensures front[..100] == StringField(name, 100)
  {
    FrontFields(name, mode, size, mtime, front);
  }

  lemma BlockText(front: ByteString, check: ByteString, back: ByteString, name: ByteString, typeflag: Byte,
                  block: ByteString)
    requires |front| == 148 && |check| == 8 && back == Back(typeflag) && front[..100] == StringField(name, 100)
    requires block == front + check + back
    ensures TextAt(block, name, typeflag)
  {
    NameField(front, name, check + back);
    BackField(front + check, back, typeflag);
    assert front + check + back == front + (check + back);
  }

  lemma NameField(front: ByteString, name: ByteString, rest: ByteString)
    requires |front| == 148 && front[..100] == StringField(name, 100)
    ensures forall i | 0 <= i < 100 :: (front + rest)[i] == if i < |name| then name[i] else 0
  {
    forall i | 0 <= i < 100
      ensures (front + rest)[i] == if i < |name| then name[i] else 0
    {
      assert (front + rest)[i] == front[..100][i];
    }
  }

  lemma BackField(before: ByteString, back: ByteString, typeflag: Byte)
    requires |before| == 156 && back == Back(typeflag)
    ensures var block := before + back;
            && block[156] == typeflag && block[257..265] == [117, 115, 116, 97, 114, 32, 32, 0]
            && (forall i | 157 <= i < 257 || 265 <= i < 512 :: block[i] == 0)
  {
    var block := before + back;
    assert block[257..265] == back[101..109];
    forall i | 157 <= i < 257 || 265 <= i < 512
      ensures block[i] == 0
    {
      assert block[i] == back[i - 156];
    }
  }

  lemma OctalDigit(n: nat, k: nat, d: Byte)
    requires d < 8
    ensures OctalText(n * 8 + d, k + 1) == OctalText(n, k) + [48 + d]
  {
  }

  /** Numbers as they stand in a header: octal digits, and big-endian bytes where those do not suffice. */
  lemma OctalAsWritten(a: Byte, b: Byte, c: Byte)
    requires a < 8 && b < 8 && c < 8
    ensures OctalText((a * 8 + b) * 8 + c, 3) == [48 + a, 48 + b, 48 + c]
  {
    OctalDigit(a * 8 + b, 2, c);
    OctalDigit(a, 1, b);
    OctalDigit(0, 0, a);
  }

  lemma BigEndianAsWritten(a: Byte, b: Byte, c: Byte)
    ensures BigEndian((a * 256 + b) * 256 + c, 3) == [a, b, c]
  {
    assert BigEndian((a * 256 + b) * 256 + c, 3) == BigEndian(a * 256 + b, 2) + [c];
    assert BigEndian(a * 256 + b, 2) == BigEndian(a, 1) + [b];
    assert BigEndian(a, 1) == BigEndian(0, 0) + [a];
  }
}
