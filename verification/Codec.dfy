/** The 116-byte records of the header bucket: 80 bytes of header, 4 of height, 32 of total work. */
module Codec {
  import opened Arithmetic
  import opened Headers
  import opened Compact

  type byte = b: nat | b < 256
  type Bytes = seq<byte>

  const RECORD_SIZE := 116

  function LittleEndian(n: nat, k: nat): (r: Bytes)
    ensures |r| == k
    decreases n, k
  {
    if k == 0 then [] else [n % 256] + LittleEndian(n / 256, k - 1)
  }

  function FromLittleEndian(b: Bytes): nat {
    if b == [] then 0 else b[0] + 256 * FromLittleEndian(b[1..])
  }

  /** The shortest big-endian bytes of n; zero has none. */
  function BigEndian(n: nat): (r: Bytes)
    ensures |r| == ByteLen(n)
  {
    if n == 0 then [] else BigEndian(n / 256) + [n % 256]
  }

  function FromBigEndian(b: Bytes): nat
    decreases |b|
  {
    if b == [] then 0 else 256 * FromBigEndian(b[..|b| - 1]) + b[|b| - 1]
  }

  function Zeros(k: nat): (r: Bytes)
    ensures |r| == k
  {
    seq(k, _ => 0)
  }

  /** n in k big-endian bytes, zeros in front. */
  function Padded(n: nat, k: nat): (r: Bytes)
    requires ByteLen(n) <= k
    ensures |r| == k
  {
    Zeros(k - ByteLen(n)) + BigEndian(n)
  }

  lemma {:induction false} LittleEndianDecodes(n: nat, k: nat)
    requires n < ShiftLeft(1, k)
    ensures FromLittleEndian(LittleEndian(n, k)) == n
    decreases k
  {
    if k > 0 {
      assert LittleEndian(n, k)[1..] == LittleEndian(n / 256, k - 1);
      LittleEndianDecodes(n / 256, k - 1);
    }
  }

  lemma {:induction false} LittleEndianEncodes(b: Bytes)
    ensures FromLittleEndian(b) < ShiftLeft(1, |b|) && LittleEndian(FromLittleEndian(b), |b|) == b
    decreases |b|
  {
    if b != [] {
      LittleEndianEncodes(b[1..]);
      var rest := FromLittleEndian(b[1..]);
      assert (b[0] + 256 * rest) / 256 == rest && (b[0] + 256 * rest) % 256 == b[0];
    }
  }

  lemma {:induction false} BigEndianDecodes(z: nat, n: nat)
    ensures FromBigEndian(Zeros(z) + BigEndian(n)) == n
    decreases n, z
  {
    var b := Zeros(z) + BigEndian(n);
    if n > 0 {
      assert b[..|b| - 1] == Zeros(z) + BigEndian(n / 256);
      BigEndianDecodes(z, n / 256);
    } else if z > 0 {
      assert b[..|b| - 1] == Zeros(z - 1) + BigEndian(0);
      BigEndianDecodes(z - 1, 0);
    }
  }

  /** One more byte behind shifts the number up and pads it no further. */
  lemma PaddedGrows(m: nat, last: byte, k: nat)
    requires ByteLen(m) <= k
    ensures ByteLen(256 * m + last) <= k + 1 && Padded(256 * m + last, k + 1) == Padded(m, k) + [last]
  {
    var n := 256 * m + last;
    Digits(m, last);
    if n == 0 {
      assert Zeros(k + 1) == Zeros(k) + [0];
    } else {
      assert ByteLen(n) == 1 + ByteLen(m) && BigEndian(n) == BigEndian(m) + [last];
    }
  }

  lemma Digits(m: nat, last: byte)
    ensures (256 * m + last) / 256 == m && (256 * m + last) % 256 == last
  {
  }

  lemma {:induction false} PaddedEncodes(b: Bytes)
    ensures ByteLen(FromBigEndian(b)) <= |b| && Padded(FromBigEndian(b), |b|) == b
    decreases |b|
  {
    hide Padded, ByteLen;
    if b == [] {
      PaddedNothing();
    } else {
      var init, last := b[..|b| - 1], b[|b| - 1];
      PaddedEncodes(init);
      PaddedGrows(FromBigEndian(init), last, |init|);
      assert b == init + [last];
    }
  }

  lemma PaddedNothing()
    ensures ByteLen(0) == 0 && Padded(0, 0) == []
  {
  }

  /** Values each field of the record can carry. */
  ghost predicate Storable(sh: StoredHeader) {
    && -TWO_31 <= sh.header.version < TWO_31
    && sh.header.prev < TWO_256 && sh.header.merkleRoot < TWO_256
    && 0 <= sh.header.time < TWO_32
    && sh.work < TWO_256
  }

  function SerializeWireHeader(h: Header): (r: Bytes)
    ensures |r| == 80
  {
    LittleEndian(h.version % TWO_32, 4) + LittleEndian(h.prev, 32) + LittleEndian(h.merkleRoot, 32)
    + LittleEndian(h.time % TWO_32, 4) + LittleEndian(h.bits, 4) + LittleEndian(h.nonce, 4)
  }

  lemma FieldSizes()
    ensures ShiftLeft(1, 4) == TWO_32 && ShiftLeft(1, 32) == TWO_256
  {
    assert ShiftLeft(1, 8) == 0x1_0000_0000_0000_0000;
    assert ShiftLeft(1, 16) == 0x1_0000_0000_0000_0000_0000_0000_0000_0000;
    assert ShiftLeft(1, 24) == 0x1_0000_0000_0000_0000_0000_0000_0000_0000_0000_0000_0000_0000;
  }

  lemma {:induction false} ByteLenIff(n: nat, k: nat)
    ensures ByteLen(n) <= k <==> n < ShiftLeft(1, k)
    decreases k
  {
    if n > 0 && k > 0 {
      ByteLenIff(n / 256, k - 1);
    }
  }

  function SerializeHeader(sh: StoredHeader): (r: Bytes)
    requires sh.work < TWO_256
    ensures |r| == RECORD_SIZE
  {
    FieldSizes();
    ByteLenIff(sh.height, 4);
    ByteLenIff(sh.work, 32);
    SerializeWireHeader(sh.header) + Padded(sh.height, 4) + Padded(sh.work, 32)
  }

  function FromInt32(n: nat): int {
    if n >= TWO_31 then n - TWO_32 else n
  }

  function Uint32LE(b: Bytes): uint32
    requires |b| == 4
  {
    LittleEndianEncodes(b);
    FieldSizes();
    FromLittleEndian(b)
  }

  function Uint32BE(b: Bytes): uint32
    requires |b| == 4
  {
    PaddedEncodes(b);
    ByteLenIff(FromBigEndian(b), 4);
    FieldSizes();
    FromBigEndian(b)
  }

  function DeserializeWireHeader(b: Bytes): Header
    requires |b| == 80
  {
    Header(FromInt32(FromLittleEndian(b[..4])), FromLittleEndian(b[4..36]), FromLittleEndian(b[36..68]),
           FromLittleEndian(b[68..72]), Uint32LE(b[72..76]), Uint32LE(b[76..80]))
  }

  /** Reading fails when nothing of the total work is left to read; a work field cut short reads as if zeros followed,
      and bytes after it are ignored. */
  function DeserializeHeader(b: Bytes): Option<StoredHeader> {
    if |b| <= 84 then None else
    var work := b[84..if |b| < RECORD_SIZE then |b| else RECORD_SIZE];
    Some(StoredHeader(DeserializeWireHeader(b[..80]), Uint32BE(b[80..84]),
                      FromBigEndian(work + Zeros(32 - |work|))))
  }

  lemma WireSlices(h: Header)
    ensures var b := SerializeWireHeader(h);
      && b[..4] == LittleEndian(h.version % TWO_32, 4) && b[4..36] == LittleEndian(h.prev, 32)
      && b[36..68] == LittleEndian(h.merkleRoot, 32) && b[68..72] == LittleEndian(h.time % TWO_32, 4)
      && b[72..76] == LittleEndian(h.bits, 4) && b[76..80] == LittleEndian(h.nonce, 4)
  {
    hide LittleEndian;
    var b := SerializeWireHeader(h);
    assert b[76..] == LittleEndian(h.nonce, 4) && b[76..80] == b[76..];
  }

  lemma WireHeaderDecodes(h: Header)
    requires -TWO_31 <= h.version < TWO_31 && h.prev < TWO_256 && h.merkleRoot < TWO_256 && 0 <= h.time < TWO_32
    ensures DeserializeWireHeader(SerializeWireHeader(h)) == h
  {
    hide LittleEndian;
    FieldSizes();
    WireSlices(h);
    LittleEndianDecodes(h.version % TWO_32, 4);
    LittleEndianDecodes(h.prev, 32);
    LittleEndianDecodes(h.merkleRoot, 32);
    LittleEndianDecodes(h.time % TWO_32, 4);
    LittleEndianDecodes(h.bits, 4);
    LittleEndianDecodes(h.nonce, 4);
  }

  lemma WireFields(b: Bytes)
    requires |b| == 80
    ensures b == b[..4] + b[4..36] + b[36..68] + b[68..72] + b[72..76] + b[76..80]
  {
  }

  lemma Int32Encodes(b: Bytes)
    requires |b| == 4
    ensures -TWO_31 <= FromInt32(FromLittleEndian(b)) < TWO_31
    ensures LittleEndian(FromInt32(FromLittleEndian(b)) % TWO_32, 4) == b
  {
    FieldSizes();
    LittleEndianEncodes(b);
    assert FromInt32(FromLittleEndian(b)) % TWO_32 == FromLittleEndian(b);
  }

  lemma Uint32Encodes(b: Bytes)
    requires |b| == 4
    ensures FromLittleEndian(b) % TWO_32 == FromLittleEndian(b) && LittleEndian(FromLittleEndian(b), 4) == b
  {
    FieldSizes();
    LittleEndianEncodes(b);
  }

  lemma HashEncodes(b: Bytes)
    requires |b| == 32
    ensures FromLittleEndian(b) < TWO_256 && LittleEndian(FromLittleEndian(b), 32) == b
  {
    FieldSizes();
    LittleEndianEncodes(b);
  }

  lemma WireHeaderEncodes(b: Bytes)
    requires |b| == 80
    ensures var h := DeserializeWireHeader(b);
      && SerializeWireHeader(h) == b
      && -TWO_31 <= h.version < TWO_31 && h.prev < TWO_256 && h.merkleRoot < TWO_256 && 0 <= h.time < TWO_32
  {
    Int32Encodes(b[..4]);
    HashEncodes(b[4..36]);
    HashEncodes(b[36..68]);
    Uint32Encodes(b[68..72]);
    Uint32Encodes(b[72..76]);
    Uint32Encodes(b[76..80]);
    WireFields(b);
  }

  /** A stored header comes back from its record as it was. */
  lemma RecordDecodes(sh: StoredHeader)
    requires Storable(sh)
    ensures DeserializeHeader(SerializeHeader(sh)) == Some(sh)
  {
    FieldSizes();
    ByteLenIff(sh.height, 4);
    ByteLenIff(sh.work, 32);
    var b := SerializeHeader(sh);
    assert b[..80] == SerializeWireHeader(sh.header);
    assert b[80..84] == Padded(sh.height, 4);
    assert b[84..116] + Zeros(0) == Padded(sh.work, 32);
    WireHeaderDecodes(sh.header);
    BigEndianDecodes(4 - ByteLen(sh.height), sh.height);
    BigEndianDecodes(32 - ByteLen(sh.work), sh.work);
  }

  /** Every string of 116 bytes is the record of exactly the header it decodes to. */
  lemma RecordEncodes(b: Bytes)
    requires |b| == RECORD_SIZE
    ensures DeserializeHeader(b).Some? && Storable(DeserializeHeader(b).value)
    ensures SerializeHeader(DeserializeHeader(b).value) == b
  {
    FieldSizes();
    WireHeaderEncodes(b[..80]);
    PaddedEncodes(b[80..84]);
    PaddedEncodes(b[84..116]);
    assert b[84..116] + Zeros(0) == b[84..116];
    ByteLenIff(FromBigEndian(b[84..116]), 32);
    assert b == b[..80] + b[80..84] + b[84..116];
  }

  /** Reading succeeds exactly on more than 84 bytes, and then as on the 116-byte record they start or are padded to. */
  lemma RecordPadding(b: Bytes)
    ensures DeserializeHeader(b).Some? <==> |b| > 84
    ensures |b| > 84 ==> DeserializeHeader(b) == DeserializeHeader(
      if |b| < RECORD_SIZE then b + Zeros(RECORD_SIZE - |b|) else b[..RECORD_SIZE])
  {
    if |b| > 84 {
      var b' := if |b| < RECORD_SIZE then b + Zeros(RECORD_SIZE - |b|) else b[..RECORD_SIZE];
      var work := b[84..if |b| < RECORD_SIZE then |b| else RECORD_SIZE];
      assert b'[84..116] + Zeros(0) == work + Zeros(32 - |work|);
      assert b'[..80] == b[..80] && b'[80..84] == b[80..84];
    }
  }

  /** Digit i of n to the base 256, counted from the lowest. */
  function Digit(n: nat, i: nat): byte {
    n / Pow256(i) % 256
  }

  lemma DigitShifts(n: nat, i: nat)
    ensures Digit(n, 0) == n % 256 && Digit(n / 256, i) == Digit(n, i + 1)
  {
    var p := Pow256(i);
    var q, r := n / 256 / p, n / 256 % p;
    assert n / 256 == p * q + r;
    assert n == 256 * (p * q + r) + n % 256;
    Regroup(256, p, q);
    assert 256 * r + n % 256 < 256 * p;
    QuotientUnique(n, 256 * p, q, 256 * r + n % 256);
  }

  lemma QuotientUnique(n: nat, d: nat, q: nat, r: nat)
    requires n == d * q + r && r < d
    ensures n / d == q
  {
    var q' := n / d;
    assert n == d * q' + n % d;
    if q < q' {
      ScaleMonotone(q + 1, q', d);
      Successor(q, d);
    } else if q' < q {
      ScaleMonotone(q' + 1, q, d);
      Successor(q', d);
    }
  }

  lemma {:induction false} LittleEndianAt(n: nat, k: nat, i: nat)
    requires i < k
    ensures LittleEndian(n, k)[i] == Digit(n, i)
    decreases k
  {
    if i > 0 {
      LittleEndianAt(n / 256, k - 1, i - 1);
      DigitShifts(n, i - 1);
    } else {
      DigitShifts(n, 0);
    }
  }

  lemma {:induction false} PaddedAt(n: nat, k: nat, i: nat)
    requires ByteLen(n) <= k && i < k
    ensures Padded(n, k)[i] == Digit(n, k - 1 - i)
    decreases k
  {
    hide Padded, Digit;
    PaddedGrows(n / 256, n % 256, k - 1) by {
      assert n > 0 ==> ByteLen(n) == 1 + ByteLen(n / 256);
    }
    assert 256 * (n / 256) + n % 256 == n;
    if i < k - 1 {
      PaddedAt(n / 256, k - 1, i);
      DigitShifts(n, k - 2 - i);
    } else {
      DigitShifts(n, 0);
    }
  }

  /** The bytes from `at` on are the k lowest digits of n, lowest first. */
  ghost predicate LowestFirst(b: Bytes, at: nat, k: nat, n: nat) {
    at + k <= |b| && forall i | at <= i < at + k :: b[i] == Digit(n, i - at)
  }

  ghost predicate HighestFirst(b: Bytes, at: nat, k: nat, n: nat) {
    at + k <= |b| && forall i | at <= i < at + k :: b[i] == Digit(n, at + k - 1 - i)
  }

  lemma LowestFirstAt(b: Bytes, at: nat, k: nat, n: nat)
    requires at + k <= |b| && b[at..at + k] == LittleEndian(n, k)
    ensures LowestFirst(b, at, k, n)
  {
    hide LittleEndian, Digit;
    forall i | at <= i < at + k ensures b[i] == Digit(n, i - at) {
      LittleEndianAt(n, k, i - at);
      assert b[at..at + k][i - at] == b[i];
    }
  }

  lemma HighestFirstAt(b: Bytes, at: nat, k: nat, n: nat)
    requires at + k <= |b| && ByteLen(n) <= k && b[at..at + k] == Padded(n, k)
    ensures HighestFirst(b, at, k, n)
  {
    hide Padded, Digit, ByteLen;
    forall i | at <= i < at + k ensures b[i] == Digit(n, at + k - 1 - i) {
      var j: nat := i - at;
      PaddedAt(n, k, j);
      assert b[at..at + k][j] == b[i] && k - 1 - j == at + k - 1 - i;
    }
  }

  lemma LowestFirstLonger(a: Bytes, b: Bytes, at: nat, k: nat, n: nat)
    requires a <= b && LowestFirst(a, at, k, n)
    ensures LowestFirst(b, at, k, n)
  {
  }

  lemma WireLayout(h: Header)
    ensures var b := SerializeWireHeader(h);
      && LowestFirst(b, 0, 4, h.version % TWO_32) && LowestFirst(b, 4, 32, h.prev) && LowestFirst(b, 36, 32, h.merkleRoot)
      && LowestFirst(b, 68, 4, h.time % TWO_32) && LowestFirst(b, 72, 4, h.bits) && LowestFirst(b, 76, 4, h.nonce)
  {
    hide LowestFirst, SerializeWireHeader;
    var b := SerializeWireHeader(h);
    WireSlices(h);
    assert b[0..4] == b[..4];
    LowestFirstAt(b, 0, 4, h.version % TWO_32);
    LowestFirstAt(b, 4, 32, h.prev);
    LowestFirstAt(b, 36, 32, h.merkleRoot);
    LowestFirstAt(b, 68, 4, h.time % TWO_32);
    LowestFirstAt(b, 72, 4, h.bits);
    LowestFirstAt(b, 76, 4, h.nonce);
  }

  /** Where each field of a record lies, and in which byte order: the header little-endian as on the wire, then height and
      total work big-endian. */
  lemma RecordLayout(sh: StoredHeader)
    requires sh.work < TWO_256
    ensures var b, h := SerializeHeader(sh), sh.header;
      && LowestFirst(b, 0, 4, h.version % TWO_32) && LowestFirst(b, 4, 32, h.prev) && LowestFirst(b, 36, 32, h.merkleRoot)
      && LowestFirst(b, 68, 4, h.time % TWO_32) && LowestFirst(b, 72, 4, h.bits) && LowestFirst(b, 76, 4, h.nonce)
      && HighestFirst(b, 80, 4, sh.height) && HighestFirst(b, 84, 32, sh.work) && |b| == 116
  {
    hide SerializeWireHeader, HighestFirst, LowestFirst, Padded;
    FieldSizes();
    ByteLenIff(sh.height, 4);
    ByteLenIff(sh.work, 32);
    WireLayout(sh.header);
    var a, b, h := SerializeWireHeader(sh.header), SerializeHeader(sh), sh.header;
    assert b == a + Padded(sh.height, 4) + Padded(sh.work, 32);
    LowestFirstLonger(a, b, 0, 4, h.version % TWO_32);
    LowestFirstLonger(a, b, 4, 32, h.prev);
    LowestFirstLonger(a, b, 36, 32, h.merkleRoot);
    LowestFirstLonger(a, b, 68, 4, h.time % TWO_32);
    LowestFirstLonger(a, b, 72, 4, h.bits);
    LowestFirstLonger(a, b, 76, 4, h.nonce);
    assert b[80..84] == Padded(sh.height, 4) && b[84..] == Padded(sh.work, 32) && b[84..116] == b[84..];
    HighestFirstAt(b, 80, 4, sh.height);
    HighestFirstAt(b, 84, 32, sh.work);
  }
}
