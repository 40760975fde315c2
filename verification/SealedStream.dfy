/** Sealing of backup objects: a header, records sealed one by one under the object's nonce and
    the record's position, and an end mark. The cipher is a parameter; what is assumed of it is
    said by `Correct` or by `Ideal`, never more. */
module SealedStream {
  import opened Wrappers

  type Byte = x: int | 0 <= x < 256
  type Bytes = seq<Byte>

  const MAGIC: Bytes := [0x47, 0x41, 0x45, 0x42, 0x31, 0x0A]
  const CHUNK: nat := 65536
  const NONCE_SIZE: nat := 12
  const KEY_SIZE: nat := 32
  const OVERHEAD: nat := 16
  const TWO64: nat := 0x1_0000_0000_0000_0000

  // ---- Big-endian integers ---------------------------------------------------------------

  function BigEndian(n: nat, width: nat): (r: Bytes)
    ensures |r| == width
  {
    if width == 0 then [] else BigEndian(n / 256, width - 1) + [n % 256]
  }

  function ValueOf(b: Bytes): nat {
    if b == [] then 0 else ValueOf(b[..|b| - 1]) * 256 + b[|b| - 1]
  }

  function Pow256(width: nat): nat { if width == 0 then 1 else 256 * Pow256(width - 1) }

  lemma {:induction false} BigEndianRoundTrip(n: nat, width: nat)
    requires n < Pow256(width)
    ensures ValueOf(BigEndian(n, width)) == n
  {
    if width > 0 {
      BigEndianRoundTrip(n / 256, width - 1);
      assert BigEndian(n, width)[..width - 1] == BigEndian(n / 256, width - 1);
    }
  }

  lemma {:induction false} ValueRoundTrip(b: Bytes)
    ensures BigEndian(ValueOf(b), |b|) == b
  {
    if b != [] {
      var front, last := b[..|b| - 1], b[|b| - 1];
      ValueLast(b);
      hide ValueOf;
      ValueRoundTrip(front);
      assert BigEndian(ValueOf(b), |b|) == BigEndian(ValueOf(front), |b| - 1) + [last];
      assert b == front + [last];
    }
  }

  lemma ValueLast(b: Bytes)
    requires b != []
    ensures ValueOf(b) / 256 == ValueOf(b[..|b| - 1]) && ValueOf(b) % 256 == b[|b| - 1]
  {
  }

  lemma Length32RoundTrip(n: nat)
    requires n < 0x1_0000_0000
    ensures ValueOf(BigEndian(n, 4)) == n
  {
    assert Pow256(2) == 0x1_0000 && Pow256(4) == 0x1_0000 * Pow256(2);
    BigEndianRoundTrip(n, 4);
  }

  lemma Index64RoundTrip(n: nat)
    requires n < TWO64
    ensures ValueOf(BigEndian(n, 8)) == n
  {
    assert Pow256(2) == 0x1_0000 && Pow256(4) == 0x1_0000 * Pow256(2);
    assert Pow256(6) == 0x1_0000 * Pow256(4) && Pow256(8) == 0x1_0000 * Pow256(6) == TWO64;
    BigEndianRoundTrip(n, 8);
  }

  // ---- The cipher ------------------------------------------------------------------------

  /** An authenticated cipher under one key: `seal(nonce, plaintext, associated)` and
      `open(nonce, ciphertext, associated)`. */
  datatype Aead = Aead(seal: (Bytes, Bytes, Bytes) -> Bytes, open: (Bytes, Bytes, Bytes) -> Option<Bytes>)

  ghost predicate Sized(aead: Aead) {
    forall n, p, a :: |aead.seal(n, p, a)| == |p| + OVERHEAD
  }

  /** What was sealed opens to what it was. */
  ghost predicate Correct(aead: Aead) {
    Sized(aead) && forall n, p, a :: aead.open(n, aead.seal(n, p, a), a) == Some(p)
  }

  /** The position of a record in its object; the index is a 64-bit counter that wraps. */
  function AssociatedData(nonce: Bytes, index: nat): Bytes {
    nonce + BigEndian(index % TWO64, 8)
  }

  lemma AssociatedDataInjective(n: Bytes, m: Bytes, i: nat, j: nat)
    requires |n| == |m| && AssociatedData(n, i) == AssociatedData(m, j)
    ensures n == m && i % TWO64 == j % TWO64
  {
    var a, b := AssociatedData(n, i), AssociatedData(m, j);
    assert n == a[..|n|] && m == b[..|m|];
    assert BigEndian(i % TWO64, 8) == a[|n|..] && BigEndian(j % TWO64, 8) == b[|m|..];
    Index64RoundTrip(i % TWO64);
    Index64RoundTrip(j % TWO64);
  }

  // ---- The format ------------------------------------------------------------------------

  function Min(a: nat, b: nat): nat { if a < b then a else b }

  function Record(aead: Aead, nonce: Bytes, chunk: Bytes, index: nat): Bytes {
    BigEndian(|chunk|, 4) + aead.seal(nonce, chunk, AssociatedData(nonce, index))
  }

  /** The records of `data`, the first of which has position `index`: every one but the last is
      full. */
  function Records(aead: Aead, nonce: Bytes, data: Bytes, index: nat): Bytes
    decreases |data|
  {
    if data == [] then [] else
      var take := Min(|data|, CHUNK);
      Record(aead, nonce, data[..take], index) + Records(aead, nonce, data[take..], index + 1)
  }

  function Header(nonce: Bytes): Bytes { MAGIC + nonce + BigEndian(CHUNK, 4) }

  const END_MARK: Bytes := BigEndian(0, 4)

  /** The sealed object of `data`: the only bytes the format gives it under this nonce. */
  function Sealed(aead: Aead, nonce: Bytes, data: Bytes): Bytes {
    Header(nonce) + Records(aead, nonce, data, 0) + END_MARK
  }

  function RecordCount(data: Bytes): nat { (|data| + CHUNK - 1) / CHUNK }

  lemma RecordCountEmpty()
    ensures RecordCount([]) == 0
  {
  }

  lemma RecordCountStep(data: Bytes)
    requires data != []
    ensures RecordCount(data) == 1 + RecordCount(data[Min(|data|, CHUNK)..])
  {
  }

  lemma {:induction false} RecordsSize(aead: Aead, nonce: Bytes, data: Bytes, index: nat)
    requires Sized(aead)
    ensures |Records(aead, nonce, data, index)| == |data| + 20 * RecordCount(data)
    decreases |data|
  {
    if data != [] {
      var take := Min(|data|, CHUNK);
      RecordsSize(aead, nonce, data[take..], index + 1);
      RecordCountStep(data);
    }
  }

  /** The size of a sealed object is a function of the size of its plaintext. */
  lemma SealedSize(aead: Aead, nonce: Bytes, data: Bytes)
    requires Sized(aead) && |nonce| == NONCE_SIZE
    ensures |Sealed(aead, nonce, data)| == 26 + |data| + 20 * RecordCount(data)
  {
    RecordsSize(aead, nonce, data, 0);
  }

  /** Full records do not depend on what follows them. */
  lemma {:induction false} RecordsSplit(aead: Aead, nonce: Bytes, a: Bytes, b: Bytes, index: nat)
    requires |a| % CHUNK == 0
    ensures Records(aead, nonce, a + b, index) ==
            Records(aead, nonce, a, index) + Records(aead, nonce, b, index + |a| / CHUNK)
    decreases |a|
  {
    hide Record;
    if a == [] {
      assert a + b == b;
      assert [] + Records(aead, nonce, b, index) == Records(aead, nonce, b, index);
    } else {
      assert (a + b)[..CHUNK] == a[..CHUNK] && (a + b)[CHUNK..] == a[CHUNK..] + b;
      RecordsSplit(aead, nonce, a[CHUNK..], b, index + 1);
      RecordsFirst(aead, nonce, a, index);
      RecordsFirst(aead, nonce, a + b, index);
      hide Records;
      assert index + 1 + |a[CHUNK..]| / CHUNK == index + |a| / CHUNK;
    }
  }

  lemma RecordsFirst(aead: Aead, nonce: Bytes, data: Bytes, index: nat)
    requires |data| >= CHUNK
    ensures Records(aead, nonce, data, index) ==
            Record(aead, nonce, data[..CHUNK], index) + Records(aead, nonce, data[CHUNK..], index + 1)
  {
    hide Record;
  }

  // ---- Reading ---------------------------------------------------------------------------

  datatype Verdict =
    Accepted | BadKey | NotSealed | HeaderCut | Truncated | TrailingBytes | Oversized | Forged | WriteFailed

  /** What a reader delivered, and what it said at the end. */
  datatype Reading = Reading(out: Bytes, verdict: Verdict)

  function ReadRecords(aead: Aead, nonce: Bytes, rest: Bytes, index: nat): Reading
    decreases |rest|
  {
    if |rest| < 4 then Reading([], Truncated) else
      var length := ValueOf(rest[..4]);
      if length == 0 then Reading([], if |rest| > 4 then TrailingBytes else Accepted)
      else if length > CHUNK then Reading([], Oversized)
      else if |rest| < 4 + length + OVERHEAD then Reading([], Truncated) else
        var sealed := rest[4..4 + length + OVERHEAD];
        match aead.open(nonce, sealed, AssociatedData(nonce, index))
        case None => Reading([], Forged)
        case Some(plaintext) =>
          var more := ReadRecords(aead, nonce, rest[4 + length + OVERHEAD..], index + 1);
          Reading(plaintext + more.out, more.verdict)
  }

  function ReadObject(suite: Bytes -> Aead, key: Bytes, source: Bytes): Reading {
    if |key| != KEY_SIZE then Reading([], BadKey)
    else if |source| < 6 || source[..6] != MAGIC then Reading([], NotSealed)
    else if |source| < 22 then Reading([], HeaderCut)
    else if ValueOf(source[18..22]) != CHUNK then Reading([], NotSealed)
    else ReadRecords(suite(key), source[6..18], source[22..], 0)
  }

  /** Every record of `data` opens at its position. */
  ghost predicate Opens(aead: Aead, nonce: Bytes, data: Bytes, index: nat)
    decreases |data|
  {
    data != [] ==>
      var take := Min(|data|, CHUNK);
      var ad := AssociatedData(nonce, index);
      && aead.open(nonce, aead.seal(nonce, data[..take], ad), ad) == Some(data[..take])
      && Opens(aead, nonce, data[take..], index + 1)
  }

  lemma {:induction false} CorrectOpens(aead: Aead, nonce: Bytes, data: Bytes, index: nat)
    requires Correct(aead)
    ensures Opens(aead, nonce, data, index)
    decreases |data|
  {
    if data != [] { CorrectOpens(aead, nonce, data[Min(|data|, CHUNK)..], index + 1); }
  }

  /** One record that opens is delivered before whatever follows it. */
  lemma ReadsOneRecord(aead: Aead, nonce: Bytes, chunk: Bytes, index: nat, stream: Bytes, tail: Bytes)
    requires Sized(aead) && 0 < |chunk| <= CHUNK && stream == Record(aead, nonce, chunk, index) + tail
    requires var ad := AssociatedData(nonce, index); aead.open(nonce, aead.seal(nonce, chunk, ad), ad) == Some(chunk)
    ensures var more := ReadRecords(aead, nonce, tail, index + 1);
            ReadRecords(aead, nonce, stream, index) == Reading(chunk + more.out, more.verdict)
  {
    hide BigEndian, ValueOf, Record;
    FirstRecord(aead, nonce, chunk, index, stream, tail);
  }

  /** The reader gets through the records of `data` and goes on with what follows them. */
  lemma {:induction false} ReadsThroughRecords(aead: Aead, nonce: Bytes, data: Bytes, rest: Bytes, index: nat)
    requires Sized(aead) && Opens(aead, nonce, data, index)
    ensures var more := ReadRecords(aead, nonce, rest, index + RecordCount(data));
            ReadRecords(aead, nonce, Records(aead, nonce, data, index) + rest, index) ==
            Reading(data + more.out, more.verdict)
    decreases |data|
  {
    hide BigEndian, ValueOf, Record, AssociatedData, ReadRecords, RecordCount;
    var more := ReadRecords(aead, nonce, rest, index + RecordCount(data));
    if data == [] {
      assert RecordCount(data) == 0 by { RecordCountEmpty(); }
      assert Records(aead, nonce, data, index) + rest == rest;
      assert data + more.out == more.out;
    } else {
      var take := Min(|data|, CHUNK);
      var tail := Records(aead, nonce, data[take..], index + 1) + rest;
      var stream := Records(aead, nonce, data, index) + rest;
      assert stream == Record(aead, nonce, data[..take], index) + tail;
      ReadsOneRecord(aead, nonce, data[..take], index, stream, tail);
      RecordCountStep(data);
      ReadsThroughRecords(aead, nonce, data[take..], rest, index + 1);
      assert data[..take] + (data[take..] + more.out) == data + more.out;
    }
  }

  /** Where the pieces of the first record of a stream are. */
  lemma FirstRecord(aead: Aead, nonce: Bytes, chunk: Bytes, index: nat, stream: Bytes, tail: Bytes)
    requires Sized(aead) && 0 < |chunk| <= CHUNK && stream == Record(aead, nonce, chunk, index) + tail
    ensures |stream| >= 4 + |chunk| + OVERHEAD && ValueOf(stream[..4]) == |chunk|
    ensures stream[4..4 + |chunk| + OVERHEAD] == aead.seal(nonce, chunk, AssociatedData(nonce, index))
    ensures stream[4 + |chunk| + OVERHEAD..] == tail
  {
    Length32RoundTrip(|chunk|);
    assert stream[..4] == BigEndian(|chunk|, 4);
  }

  /** Where the pieces of an object are. */
  lemma ObjectLayout(aead: Aead, nonce: Bytes, source: Bytes, body: Bytes)
    requires |nonce| == NONCE_SIZE && source == Header(nonce) + body
    ensures |source| >= 22 && source[..6] == MAGIC && source[6..18] == nonce
    ensures ValueOf(source[18..22]) == CHUNK && source[22..] == body
  {
    Length32RoundTrip(CHUNK);
    assert source[18..22] == BigEndian(CHUNK, 4);
  }

  lemma EndMarkIsZero()
    ensures |END_MARK| == 4 && ValueOf(END_MARK) == 0
  {
    Length32RoundTrip(0);
  }

  /** Unsealing a sealed object followed by `extra` delivers the plaintext, and accepts exactly
      when nothing follows the end mark. */
  lemma RoundTrip(suite: Bytes -> Aead, key: Bytes, nonce: Bytes, data: Bytes, extra: Bytes)
    requires |key| == KEY_SIZE && |nonce| == NONCE_SIZE && Correct(suite(key))
    ensures ReadObject(suite, key, Sealed(suite(key), nonce, data) + extra) ==
            Reading(data, if extra == [] then Accepted else TrailingBytes)
  {
    var aead := suite(key);
    CorrectOpens(aead, nonce, data, 0);
    var body := Records(aead, nonce, data, 0) + (END_MARK + extra);
    assert Sealed(aead, nonce, data) + extra == Header(nonce) + body;
    ObjectLayout(aead, nonce, Sealed(aead, nonce, data) + extra, body);
    ReadsThroughRecords(aead, nonce, data, END_MARK + extra, 0);
    EndMarkIsZero();
    assert (END_MARK + extra)[..4] == END_MARK;
    assert data + [] == data;
  }

  // ---- Truncation ------------------------------------------------------------------------

  /** A stream cut inside its first record delivers nothing. */
  lemma CutFirstRecord(aead: Aead, nonce: Bytes, chunk: Bytes, index: nat, stream: Bytes, tail: Bytes, k: nat)
    requires Sized(aead) && 0 < |chunk| <= CHUNK && stream == Record(aead, nonce, chunk, index) + tail
    requires k < 4 + |chunk| + OVERHEAD
    ensures k <= |stream| && ReadRecords(aead, nonce, stream[..k], index) == Reading([], Truncated)
  {
    FirstRecord(aead, nonce, chunk, index, stream, tail);
    hide BigEndian, ValueOf, Record, AssociatedData;
    if k >= 4 { assert stream[..k][..4] == stream[..4]; }
  }

  lemma {:induction false} CutRecords(aead: Aead, nonce: Bytes, data: Bytes, index: nat, k: nat)
    requires Sized(aead) && Opens(aead, nonce, data, index)
    requires k < |Records(aead, nonce, data, index) + END_MARK|
    ensures var cut := (Records(aead, nonce, data, index) + END_MARK)[..k];
            var reading := ReadRecords(aead, nonce, cut, index);
            reading.verdict == Truncated && reading.out <= data
    decreases |data|
  {
    hide *;
    if data == [] {
      CutEndMark(aead, nonce, index, k);
    } else {
      var whole := Records(aead, nonce, data, index) + END_MARK;
      var take := Min(|data|, CHUNK);
      OneThenOthers(aead, nonce, data, index);
      var chunk, others := data[..take], data[take..];
      var first := Record(aead, nonce, chunk, index);
      var tail := Records(aead, nonce, others, index + 1) + END_MARK;
      OpensFirst(aead, nonce, data, index);
      if k < |first| {
        CutFirstRecord(aead, nonce, chunk, index, whole, tail, k);
      } else {
        var cut := tail[..k - |first|];
        assert whole[..k] == first + cut;
        ReadsOneRecord(aead, nonce, chunk, index, whole[..k], cut);
        CutRecords(aead, nonce, others, index + 1, k - |first|);
        assert data == chunk + others;
      }
    }
  }

  lemma CutEndMark(aead: Aead, nonce: Bytes, index: nat, k: nat)
    ensures |Records(aead, nonce, [], index) + END_MARK| == 4
    ensures k < 4 ==>
              ReadRecords(aead, nonce, (Records(aead, nonce, [], index) + END_MARK)[..k], index) ==
              Reading([], Truncated)
  {
    hide BigEndian, ValueOf, AssociatedData;
  }

  lemma OneThenOthers(aead: Aead, nonce: Bytes, data: Bytes, index: nat)
    requires Sized(aead) && data != []
    ensures var take := Min(|data|, CHUNK);
            var first := Record(aead, nonce, data[..take], index);
            && 0 < take <= CHUNK && take <= |data| && |first| == 4 + take + OVERHEAD
            && Records(aead, nonce, data, index) + END_MARK ==
               first + (Records(aead, nonce, data[take..], index + 1) + END_MARK)
  {
    hide BigEndian, AssociatedData;
  }

  lemma OpensFirst(aead: Aead, nonce: Bytes, data: Bytes, index: nat)
    requires data != [] && Opens(aead, nonce, data, index)
    ensures var take := Min(|data|, CHUNK);
            var ad := AssociatedData(nonce, index);
            take <= |data| && aead.open(nonce, aead.seal(nonce, data[..take], ad), ad) == Some(data[..take]) &&
            Opens(aead, nonce, data[take..], index + 1)
  {
    hide AssociatedData;
  }

  /** An object cut anywhere before its last byte is refused, and what was delivered before the
      refusal is a prefix of the plaintext. */
  lemma CutObjectIsRefused(suite: Bytes -> Aead, key: Bytes, nonce: Bytes, data: Bytes, k: nat)
    requires |key| == KEY_SIZE && |nonce| == NONCE_SIZE && Correct(suite(key))
    requires k < |Sealed(suite(key), nonce, data)|
    ensures var reading := ReadObject(suite, key, Sealed(suite(key), nonce, data)[..k]);
            reading.out <= data &&
            reading.verdict == if k < 6 then NotSealed else if k < 22 then HeaderCut else Truncated
  {
    hide *;
    var aead := suite(key);
    var body := Records(aead, nonce, data, 0) + END_MARK;
    var whole := Sealed(aead, nonce, data);
    SealedIsHeaderAndBody(aead, nonce, data);
    ObjectLayout(aead, nonce, whole, body);
    var cut := whole[..k];
    CutKeepsParts(whole, k);
    if k >= 22 {
      CorrectOpens(aead, nonce, data, 0);
      CorrectIsSized(aead);
      CutRecords(aead, nonce, data, 0, k - 22);
      CutBody(suite, key, nonce, cut, body[..k - 22]);
    } else {
      CutHeader(suite, key, cut);
    }
  }

  lemma SealedIsHeaderAndBody(aead: Aead, nonce: Bytes, data: Bytes)
    ensures Sealed(aead, nonce, data) == Header(nonce) + (Records(aead, nonce, data, 0) + END_MARK)
  {
    hide Header, Records;
  }

  lemma CutKeepsParts(whole: Bytes, k: nat)
    requires k <= |whole|
    ensures k >= 6 ==> whole[..k][..6] == whole[..6]
    ensures k >= 22 ==> whole[..k][6..18] == whole[6..18] && whole[..k][18..22] == whole[18..22]
    ensures k >= 22 ==> whole[..k][22..] == whole[22..][..k - 22]
  {
  }

  lemma CorrectIsSized(aead: Aead)
    requires Correct(aead)
    ensures Sized(aead)
  {
  }

  lemma CutBody(suite: Bytes -> Aead, key: Bytes, nonce: Bytes, source: Bytes, body: Bytes)
    requires |key| == KEY_SIZE && |source| >= 22 && source[..6] == MAGIC && source[6..18] == nonce
    requires ValueOf(source[18..22]) == CHUNK && source[22..] == body
    ensures ReadObject(suite, key, source) == ReadRecords(suite(key), nonce, body, 0)
  {
    hide ReadRecords, ValueOf;
  }

  lemma CutHeader(suite: Bytes -> Aead, key: Bytes, source: Bytes)
    requires |key| == KEY_SIZE && |source| < 22 && (|source| >= 6 ==> source[..6] == MAGIC)
    ensures ReadObject(suite, key, source) == Reading([], if |source| < 6 then NotSealed else HeaderCut)
  {
    hide ReadRecords, ValueOf;
  }

  // ---- Authenticity ----------------------------------------------------------------------

  /** Record `j` of `data`. */
  function ChunkAt(data: Bytes, j: nat): Bytes
    requires j < RecordCount(data)
  {
    data[j * CHUNK..Min((j + 1) * CHUNK, |data|)]
  }

  /** Records `i` to `k` of `data`, `k` excluded. */
  function Part(data: Bytes, i: nat, k: nat): Bytes
    requires i <= k
  {
    data[Min(i * CHUNK, |data|)..Min(k * CHUNK, |data|)]
  }

  /** The ciphertext `c` under these inputs is the seal of record `j`. */
  ghost predicate IsRecord(aead: Aead, nonce: Bytes, data: Bytes, n: Bytes, c: Bytes, a: Bytes, j: nat) {
    j < RecordCount(data) && n == nonce && a == AssociatedData(nonce, j) && c == aead.seal(nonce, ChunkAt(data, j), a)
  }

  /** An ideal cipher that only ever sealed this one object: it opens the object's records, each
      at its own position, and nothing else. */
  ghost predicate Ideal(aead: Aead, nonce: Bytes, data: Bytes) {
    && Sized(aead)
    && (forall n, c, a, j :: IsRecord(aead, nonce, data, n, c, a, j) ==> aead.open(n, c, a) == Some(ChunkAt(data, j)))
    && (forall n, c, a :: aead.open(n, c, a).Some? ==> exists j :: IsRecord(aead, nonce, data, n, c, a, j))
  }

  /** `Ideal` is a condition some cipher meets, whatever the object. */
  lemma IdealIsAttainable(nonce: Bytes, data: Bytes)
    requires RecordCount(data) < TWO64
    ensures exists aead :: Ideal(aead, nonce, data)
  {
    var pad: Bytes := BigEndian(0, OVERHEAD);
    var aead := Aead(
      (n: Bytes, p: Bytes, a: Bytes) => p + pad,
      (n: Bytes, c: Bytes, a: Bytes) =>
        if n == nonce && exists j: nat :: j < RecordCount(data) && a == AssociatedData(nonce, j) &&
                                          c == ChunkAt(data, j) + pad
        then Some(c[..|c| - OVERHEAD]) else None);
    forall n, c, a, j | IsRecord(aead, nonce, data, n, c, a, j) ensures aead.open(n, c, a) == Some(ChunkAt(data, j)) {
      assert c == ChunkAt(data, j) + pad;
      assert c[..|c| - OVERHEAD] == ChunkAt(data, j);
    }
    forall n, c, a | aead.open(n, c, a).Some? ensures exists j :: IsRecord(aead, nonce, data, n, c, a, j) {
      var j: nat :| j < RecordCount(data) && a == AssociatedData(nonce, j) && c == ChunkAt(data, j) + pad;
      assert IsRecord(aead, nonce, data, n, c, a, j);
    }
    assert Ideal(aead, nonce, data);
  }

  lemma PartStep(data: Bytes, i: nat, k: nat)
    requires i < k <= RecordCount(data)
    ensures |ChunkAt(data, i)| == Min(|Part(data, i, k)|, CHUNK) > 0
    ensures Part(data, i, k) == ChunkAt(data, i) + Part(data, i + 1, k)
    ensures Part(data, i, k)[..|ChunkAt(data, i)|] == ChunkAt(data, i)
    ensures Part(data, i, k)[|ChunkAt(data, i)|..] == Part(data, i + 1, k)
  {
    assert i * CHUNK < |data| && (i + 1) * CHUNK <= k * CHUNK;
  }

  lemma {:induction false} IdealOpens(aead: Aead, nonce: Bytes, data: Bytes, i: nat, k: nat)
    requires Ideal(aead, nonce, data) && i <= k <= RecordCount(data)
    ensures Opens(aead, nonce, Part(data, i, k), i)
    decreases k - i
  {
    if i < k {
      hide AssociatedData, RecordCount, Part, ChunkAt;
      PartStep(data, i, k);
      IdealOpens(aead, nonce, data, i + 1, k);
      var ad := AssociatedData(nonce, i);
      assert IsRecord(aead, nonce, data, nonce, aead.seal(nonce, ChunkAt(data, i), ad), ad, i);
    }
  }

  /** A record that opens at position `i` is record `i`. */
  lemma OpenedRecordIsInPlace(aead: Aead, nonce: Bytes, data: Bytes, header: Bytes, sealed: Bytes, i: nat)
    requires Ideal(aead, nonce, data) && |header| == |nonce| && i <= RecordCount(data) < TWO64
    requires aead.open(header, sealed, AssociatedData(header, i)).Some?
    ensures i < RecordCount(data) && header == nonce &&
            sealed == aead.seal(nonce, ChunkAt(data, i), AssociatedData(nonce, i))
    ensures aead.open(header, sealed, AssociatedData(header, i)) == Some(ChunkAt(data, i))
  {
    hide AssociatedData, RecordCount, ChunkAt, Sized;
    var j :| IsRecord(aead, nonce, data, header, sealed, AssociatedData(header, i), j);
    AssociatedDataInjective(header, nonce, i, j);
  }

  /** Whatever is read from position `i` on is the object's records from `i` to some `k`, in
      order, and what is accepted is those records and the end mark. */
  lemma {:induction false} ReadsOnlyRecords(aead: Aead, nonce: Bytes, data: Bytes, header: Bytes, rest: Bytes, i: nat)
    returns (k: nat)
    requires Ideal(aead, nonce, data) && |header| == |nonce| && i <= RecordCount(data) < TWO64
    ensures i <= k <= RecordCount(data) && (i < k ==> header == nonce)
    ensures var reading := ReadRecords(aead, header, rest, i);
            && reading.out == Part(data, i, k)
            && (reading.verdict == Accepted ==> rest == Records(aead, nonce, Part(data, i, k), i) + END_MARK)
    decreases |rest|
  {
    hide *;
    k := i;
    if StartsWithRecord(aead, header, rest, i) {
      RecordBounds(aead, header, rest, i);
      var end := 4 + ValueOf(rest[..4]) + OVERHEAD;
      var sealed, tail := rest[4..end], rest[end..];
      OpenedRecordIsInPlace(aead, nonce, data, header, sealed, i);
      k := ReadsOnlyRecords(aead, nonce, data, header, tail, i + 1);
      var more := ReadRecords(aead, header, tail, i + 1);
      ReadsOpened(aead, header, rest, i, ChunkAt(data, i));
      PartStep(data, i, k);
      IdealIsSized(aead, nonce, data);
      if more.verdict == Accepted { ReadsInFront(aead, nonce, data, rest, i, k, sealed, tail); }
    } else {
      ReadsNoRecord(aead, header, rest, i);
      NoRecords(data, i);
      RecordsOfNothing(aead, nonce, i);
    }
  }

  lemma RecordBounds(aead: Aead, nonce: Bytes, rest: Bytes, index: nat)
    requires StartsWithRecord(aead, nonce, rest, index)
    ensures |rest| >= 4
    ensures var end := 4 + ValueOf(rest[..4]) + OVERHEAD;
            4 < end <= |rest| && rest == rest[..4] + rest[4..end] + rest[end..] &&
            aead.open(nonce, rest[4..end], AssociatedData(nonce, index)).Some?
  {
    hide AssociatedData, ValueOf;
  }

  lemma RecordsOfNothing(aead: Aead, nonce: Bytes, index: nat)
    ensures Records(aead, nonce, [], index) + END_MARK == END_MARK
  {
  }

  lemma IdealIsSized(aead: Aead, nonce: Bytes, data: Bytes)
    requires Ideal(aead, nonce, data)
    ensures Sized(aead)
  {
  }

  /** The stream starts with a record that opens at position `index`. */
  ghost predicate StartsWithRecord(aead: Aead, nonce: Bytes, rest: Bytes, index: nat) {
    |rest| >= 4 &&
    var length := ValueOf(rest[..4]);
    0 < length <= CHUNK && |rest| >= 4 + length + OVERHEAD &&
    aead.open(nonce, rest[4..4 + length + OVERHEAD], AssociatedData(nonce, index)).Some?
  }

  /** A stream that does not is delivered as nothing, and accepted only if it is the end mark. */
  lemma ReadsNoRecord(aead: Aead, nonce: Bytes, rest: Bytes, index: nat)
    requires !StartsWithRecord(aead, nonce, rest, index)
    ensures ReadRecords(aead, nonce, rest, index).out == []
    ensures ReadRecords(aead, nonce, rest, index).verdict == Accepted ==> rest == END_MARK
  {
    hide AssociatedData, BigEndian, ValueOf;
    if |rest| == 4 {
      assert rest[..4] == rest;
      ValueRoundTrip(rest);
    }
  }

  /** A record that opens is delivered before the rest. */
  lemma ReadsOpened(aead: Aead, nonce: Bytes, rest: Bytes, index: nat, plaintext: Bytes)
    requires StartsWithRecord(aead, nonce, rest, index)
    requires aead.open(nonce, rest[4..4 + ValueOf(rest[..4]) + OVERHEAD], AssociatedData(nonce, index)) ==
             Some(plaintext)
    ensures var more := ReadRecords(aead, nonce, rest[4 + ValueOf(rest[..4]) + OVERHEAD..], index + 1);
            ReadRecords(aead, nonce, rest, index) == Reading(plaintext + more.out, more.verdict)
  {
    hide ValueOf, AssociatedData;
  }

  /** Record `i` in front of the records that follow it. */
  lemma ReadsInFront(aead: Aead, nonce: Bytes, data: Bytes, rest: Bytes, i: nat, k: nat, sealed: Bytes, tail: Bytes)
    requires Sized(aead) && i < k <= RecordCount(data) && |rest| >= 4 && rest == rest[..4] + sealed + tail
    requires sealed == aead.seal(nonce, ChunkAt(data, i), AssociatedData(nonce, i))
    requires |sealed| == ValueOf(rest[..4]) + OVERHEAD
    requires tail == Records(aead, nonce, Part(data, i + 1, k), i + 1) + END_MARK
    ensures rest == Records(aead, nonce, Part(data, i, k), i) + END_MARK
  {
    ValueRoundTrip(rest[..4]);
    PartStep(data, i, k);
    hide AssociatedData, RecordCount, Part, ChunkAt, BigEndian, ValueOf;
    var chunk := ChunkAt(data, i);
    assert rest[..4] == BigEndian(|chunk|, 4);
    assert Records(aead, nonce, Part(data, i, k), i) ==
           Record(aead, nonce, chunk, i) + Records(aead, nonce, Part(data, i + 1, k), i + 1);
  }

  lemma NoRecords(data: Bytes, i: nat)
    ensures Part(data, i, i) == []
  {
  }

  /** Authenticity. Under an ideal cipher that sealed only `data`, a stream that is read delivers
      exactly its first `k` records for some `k`: none moved, repeated or left out of the middle.
      The end mark is not authenticated, so the streams that are accepted are exactly the sealed
      objects of such prefixes. */
  lemma AcceptedExactly(suite: Bytes -> Aead, key: Bytes, nonce: Bytes, data: Bytes, source: Bytes)
    requires |key| == KEY_SIZE && |nonce| == NONCE_SIZE && RecordCount(data) < TWO64
    requires Ideal(suite(key), nonce, data)
    ensures exists k :: 0 <= k <= RecordCount(data) && ReadObject(suite, key, source).out == Part(data, 0, k)
    ensures ReadObject(suite, key, source).verdict == Accepted <==>
            exists header, k :: IsSealedPrefix(suite(key), nonce, data, header, source, k)
  {
    assert |nonce| == 12;
    hide *;
    var aead := suite(key);
    if HeaderHolds(source) {
      HeaderIsRead(suite, key, source);
      var header := source[6..18];
      var k := ReadsOnlyRecords(aead, nonce, data, header, source[22..], 0);
      if ReadObject(suite, key, source).verdict == Accepted {
        AcceptedIsSealed(aead, nonce, data, header, source, k);
      }
    } else {
      NoHeaderNothingRead(suite, key, source);
      NoRecords(data, 0);
    }
    forall header, k | IsSealedPrefix(aead, nonce, data, header, source, k)
      ensures ReadObject(suite, key, source).verdict == Accepted
    {
      SealedPrefixIsAccepted(suite, key, nonce, data, header, source, k);
    }
  }

  predicate HeaderHolds(source: Bytes) { |source| >= 22 && source[..6] == MAGIC && ValueOf(source[18..22]) == CHUNK }

  lemma HeaderIsRead(suite: Bytes -> Aead, key: Bytes, source: Bytes)
    requires |key| == KEY_SIZE && HeaderHolds(source)
    ensures |source| >= 22 && ReadObject(suite, key, source) == ReadRecords(suite(key), source[6..18], source[22..], 0)
    ensures source == Header(source[6..18]) + source[22..]
  {
    ValueRoundTrip(source[18..22]);
    hide ReadRecords, ValueOf, BigEndian;
  }

  lemma NoHeaderNothingRead(suite: Bytes -> Aead, key: Bytes, source: Bytes)
    requires !HeaderHolds(source)
    ensures ReadObject(suite, key, source).out == [] && ReadObject(suite, key, source).verdict != Accepted
  {
    hide ReadRecords, ValueOf;
  }

  lemma AcceptedIsSealed(aead: Aead, nonce: Bytes, data: Bytes, header: Bytes, source: Bytes, k: nat)
    requires k <= RecordCount(data) && |header| == NONCE_SIZE && (k > 0 ==> header == nonce) && |source| >= 22
    requires source == Header(header) + source[22..]
    requires source[22..] == Records(aead, nonce, Part(data, 0, k), 0) + END_MARK
    ensures IsSealedPrefix(aead, nonce, data, header, source, k)
  {
    NoRecords(data, 0);
    EmptyRecords(aead, nonce, header);
    hide Header, Records, Part, RecordCount, BigEndian;
  }

  lemma EmptyRecords(aead: Aead, nonce: Bytes, header: Bytes)
    ensures Records(aead, nonce, [], 0) == [] == Records(aead, header, [], 0)
  {
  }

  /** `source` is the sealed object of the first `k` records of `data`. With no record there is
      nothing that binds the nonce. */
  ghost predicate IsSealedPrefix(aead: Aead, nonce: Bytes, data: Bytes, header: Bytes, source: Bytes, k: nat) {
    k <= RecordCount(data) && |header| == NONCE_SIZE && (k > 0 ==> header == nonce) &&
    source == Sealed(aead, header, Part(data, 0, k))
  }

  lemma EndMarkIsRead(aead: Aead, nonce: Bytes, index: nat)
    ensures ReadRecords(aead, nonce, END_MARK, index) == Reading([], Accepted)
  {
    EndMarkIsZero();
    assert END_MARK[..4] == END_MARK;
  }

  lemma PrefixOpens(aead: Aead, nonce: Bytes, data: Bytes, header: Bytes, k: nat)
    requires Ideal(aead, nonce, data) && k <= RecordCount(data) && (k > 0 ==> header == nonce)
    ensures Opens(aead, header, Part(data, 0, k), 0)
  {
    hide AssociatedData, Part, Ideal, RecordCount;
    NoRecords(data, 0);
    if k > 0 { IdealOpens(aead, nonce, data, 0, k); }
  }

  lemma SealedPrefixIsAccepted(suite: Bytes -> Aead, key: Bytes, nonce: Bytes, data: Bytes, header: Bytes,
      source: Bytes, k: nat)
    requires |key| == KEY_SIZE && Ideal(suite(key), nonce, data)
    requires IsSealedPrefix(suite(key), nonce, data, header, source, k)
    ensures ReadObject(suite, key, source) == Reading(Part(data, 0, k), Accepted)
  {
    var aead := suite(key);
    var prefix := Part(data, 0, k);
    var body := Records(aead, header, prefix, 0) + END_MARK;
    PrefixOpens(aead, nonce, data, header, k);
    EndMarkIsRead(aead, header, RecordCount(prefix));
    IdealIsSized(aead, nonce, data);
    hide AssociatedData, Records, Part, ReadRecords, BigEndian, ValueOf, Header, RecordCount, Opens, Ideal, Sized;
    assert source == Header(header) + body;
    ObjectLayout(aead, header, source, body);
    ReadsThroughRecords(aead, header, prefix, END_MARK, 0);
    assert prefix + [] == prefix;
  }

  // ---- The writer ------------------------------------------------------------------------

  /** A destination that takes bytes until it is full. A write that does not fit is short and
      reports failure, and every later one fails too. */
  class Sink {
    var bytes: Bytes
    var room: nat

    constructor (room: nat)
      ensures bytes == [] && this.room == room
    {
      bytes, this.room := [], room;
    }

    method Put(p: Bytes) returns (ok: bool)
      modifies this
      ensures ok == (|p| <= old(room))
      ensures bytes == old(bytes) + (if ok then p else p[..old(room)])
      ensures room == if ok then old(room) - |p| else 0
    {
      ok := |p| <= room;
      var written := if ok then p else p[..room];
      bytes := bytes + written;
      room := room - |written|;
    }
  }

  /** `a` is a proper prefix of `b`. */
  ghost predicate ProperPrefix(a: Bytes, b: Bytes) { |a| < |b| && a == b[..|a|] }

  /** A sealed object from its full records, the buffered rest and the end mark. */
  lemma SealedFrom(aead: Aead, nonce: Bytes, full: Bytes, chunk: Bytes, index: nat)
    requires |full| % CHUNK == 0 && |chunk| <= CHUNK && index == (|full| / CHUNK) % TWO64
    ensures Sealed(aead, nonce, full + chunk) ==
            Header(nonce) + Records(aead, nonce, full, 0) +
              ((if chunk == [] then [] else Record(aead, nonce, chunk, index)) + END_MARK)
  {
    hide Records, Record, Header, BigEndian;
    if chunk == [] {
      assert full + chunk == full;
    } else {
      FlushedRecord(aead, nonce, full, chunk, index);
    }
  }

  lemma RecordNotEmpty(aead: Aead, nonce: Bytes, chunk: Bytes, index: nat)
    ensures |Record(aead, nonce, chunk, index)| > 0
  {
  }

  lemma {:induction false} RecordIndexWraps(aead: Aead, nonce: Bytes, chunk: Bytes, count: nat)
    ensures Record(aead, nonce, chunk, count % TWO64) == Record(aead, nonce, chunk, count)
  {
    assert (count % TWO64) % TWO64 == count % TWO64;
  }

  /** What one flush adds: the record of the buffered chunk, at the position the counter says. */
  lemma FlushedRecord(aead: Aead, nonce: Bytes, full: Bytes, chunk: Bytes, index: nat)
    requires |full| % CHUNK == 0 && 0 < |chunk| <= CHUNK && index == (|full| / CHUNK) % TWO64
    ensures Records(aead, nonce, full + chunk, 0) == Records(aead, nonce, full, 0) + Record(aead, nonce, chunk, index)
    ensures |chunk| == CHUNK ==>
              |full + chunk| % CHUNK == 0 && (|full + chunk| / CHUNK) % TWO64 == (index + 1) % TWO64
  {
    hide *;
    RecordsSplit(aead, nonce, full, chunk, 0);
    RecordIndexWraps(aead, nonce, chunk, |full| / CHUNK);
    OneRecord(aead, nonce, chunk, |full| / CHUNK);
    if |chunk| == CHUNK { OneMoreChunk(|full|); }
  }

  lemma OneMoreChunk(size: nat)
    requires size % CHUNK == 0
    ensures (size + CHUNK) % CHUNK == 0 && ((size + CHUNK) / CHUNK) % TWO64 == ((size / CHUNK) % TWO64 + 1) % TWO64
  {
    assert (size + CHUNK) / CHUNK == size / CHUNK + 1;
  }

  lemma OneRecord(aead: Aead, nonce: Bytes, chunk: Bytes, index: nat)
    requires 0 < |chunk| <= CHUNK
    ensures Records(aead, nonce, chunk, index) == Record(aead, nonce, chunk, index)
  {
    hide Record;
    assert chunk[..|chunk|] == chunk && chunk[|chunk|..] == [];
    assert Record(aead, nonce, chunk, index) + [] == Record(aead, nonce, chunk, index);
  }

  lemma TakeMore(before: Bytes, plaintext: Bytes, written: nat, take: nat)
    requires written + take <= |plaintext|
    ensures before + plaintext[..written] + plaintext[written..written + take] == before + plaintext[..written + take]
  {
  }

  /** Open: every write so far arrived. Complete: closed, end mark and all. Broken: a write did
      not arrive. */
  datatype Phase = Open | Complete | Broken

  class SealedWriter {
    const destination: Sink
    const aead: Aead
    const nonce: Bytes
    const buffer: array<Byte>
    var filled: nat
    var index: nat
    var closed: bool
    ghost var taken: Bytes     // the plaintext accepted so far
    ghost const base: Bytes    // what the destination held before the header
    ghost var phase: Phase

    /** What this object has put into its destination. */
    ghost function Emitted(): Bytes
      reads this, destination
      requires base <= destination.bytes
    {
      destination.bytes[|base|..]
    }

    ghost predicate Shaped()
      reads this, destination
    {
      buffer.Length == CHUNK && |nonce| == NONCE_SIZE && filled <= CHUNK && filled <= |taken| && index < TWO64 &&
      base <= destination.bytes
    }

    ghost predicate Valid()
      reads this, destination, buffer
    {
      && Shaped()
      && match phase
         case Open => !closed && filled < CHUNK && Pending()
         case Complete => closed && Emitted() == Sealed(aead, nonce, taken)
         case Broken => destination.room == 0 && (!closed ==> filled == CHUNK)
                        && ProperPrefix(Emitted(), Sealed(aead, nonce, taken))
    }

    /** The plaintext whose records have been emitted. */
    ghost function Full(): Bytes
      reads this
      requires filled <= |taken|
    {
      taken[..|taken| - filled]
    }

    /** The full records have been emitted and the rest of the plaintext is in the buffer. */
    ghost predicate Pending()
      requires Shaped()
      reads this, destination, buffer
    {
      && buffer[..filled] == taken[|taken| - filled..]
      && |Full()| % CHUNK == 0 && index == (|Full()| / CHUNK) % TWO64
      && Emitted() == Header(nonce) + Records(aead, nonce, Full(), 0)
    }

    constructor (aead: Aead, nonce: Bytes, destination: Sink)
      requires |nonce| == NONCE_SIZE
      ensures this.destination == destination && this.aead == aead && this.nonce == nonce && fresh(buffer)
      ensures Shaped() && taken == [] && filled == index == 0 && !closed && phase == Open && base == destination.bytes
    {
      this.destination, this.aead, this.nonce := destination, aead, nonce;
      buffer := new Byte[CHUNK];
      filled, index, closed := 0, 0, false;
      taken, base, phase := [], destination.bytes, Open;
    }

    /** The record the buffer holds, if it holds any plaintext. */
    ghost function Buffered(): Bytes
      reads this, buffer
      requires filled <= buffer.Length
    {
      if filled == 0 then [] else Record(aead, nonce, buffer[..filled], index)
    }

    /** Puts the buffered record; a failure leaves the buffer and the counter as they were. */
    method Flush() returns (ok: bool)
      requires Shaped()
      modifies this`filled, this`index, destination
      ensures base <= destination.bytes && index < TWO64
      ensures ok == (|old(Buffered())| <= old(destination.room))
      ensures Emitted() == old(Emitted()) + (if ok then old(Buffered()) else old(Buffered())[..old(destination.room)])
      ensures destination.room == if ok then old(destination.room) - |old(Buffered())| else 0
      ensures filled == if ok then 0 else old(filled)
      ensures index == if ok && old(filled) > 0 then (old(index) + 1) % TWO64 else old(index)
    {
      hide BigEndian, AssociatedData, Records, Header;
      if filled == 0 {
        return true;
      }
      var sealed := aead.seal(nonce, buffer[..filled], AssociatedData(nonce, index));
      ok := destination.Put(BigEndian(filled, 4));
      if ok { ok := destination.Put(sealed); }
      if ok { filled, index := 0, (index + 1) % TWO64; }
    }

    /** Copies `piece` into the free end of the buffer. */
    method Fill(piece: Bytes)
      requires Shaped() && filled + |piece| <= CHUNK && (phase == Open ==> Pending())
      modifies this`filled, this`taken, buffer
      ensures Shaped() && filled == old(filled) + |piece| && taken == old(taken) + piece
      ensures phase == Open ==> Pending()
    {
      hide Records, Header;
      ghost var before := buffer[..filled];
      forall i | 0 <= i < |piece| {
        buffer[filled + i] := piece[i];
      }
      assert buffer[..filled + |piece|] == before + piece;
      assert phase == Open ==> before == taken[|taken| - filled..];
      ghost var full := Full();
      taken, filled := taken + piece, filled + |piece|;
      assert Full() == full;
    }

    /** Flushes a full buffer and settles what the attempt made of the object. */
    method FlushFull() returns (ok: bool)
      requires Shaped() && !closed && filled == CHUNK && (phase == Open ==> Pending())
      requires phase != Open ==> Valid()
      modifies this`filled, this`index, this`phase, destination
      ensures Valid() && phase == if ok then Open else Broken
      ensures ok ==> old(phase) == Open
    {
      hide Records, Record, Header, BigEndian, AssociatedData;
      ghost var full, chunk, record := Full(), buffer[..filled], Record(aead, nonce, buffer[..filled], index);
      FlushedRecord(aead, nonce, if phase == Open then full else [], chunk, if phase == Open then index else 0);
      assert taken == full + taken[|taken| - filled..];
      assert |record| > 0 by { RecordNotEmpty(aead, nonce, chunk, index); }
      ok := Flush();
      if ok {
        assert Full() == taken;
      } else {
        phase := Broken;
        assert Sealed(aead, nonce, taken) == Header(nonce) + Records(aead, nonce, full + chunk, 0) + END_MARK ||
               old(phase) != Open;
      }
    }

    /** One round of a write: buffers `piece` and flushes the buffer once it is full. */
    method Accept(piece: Bytes) returns (ok: bool)
      requires Valid() && !closed && filled + |piece| <= CHUNK
      requires phase == Open ==> piece != []
      modifies this`filled, this`index, this`taken, this`phase, buffer, destination
      ensures Valid() && taken == old(taken) + piece && phase == (if ok then Open else Broken)
      ensures ok ==> old(phase) == Open && filled < CHUNK
      ensures !ok ==> filled == CHUNK
    {
      hide Pending, Sealed;
      assert phase == Broken ==> piece == [];
      assert phase == Broken ==> taken + piece == taken;
      Fill(piece);
      ok := true;
      if filled == CHUNK {
        ok := FlushFull();
      }
    }

    /** Accepts plaintext; what does not fill a record waits in the buffer. A failure accepts
        `written` bytes and breaks the object for good. */
    method Write(plaintext: Bytes) returns (written: nat, ok: bool)
      requires Valid()
      modifies this`filled, this`index, this`taken, this`phase, buffer, destination
      ensures Valid() && closed == old(closed)
      ensures written <= |plaintext| && taken == old(taken) + plaintext[..written]
      ensures old(closed) ==> !ok && written == 0 && phase == old(phase) && destination.bytes == old(destination.bytes)
      ensures !old(closed) && ok ==> written == |plaintext| && phase == old(phase)
      ensures !old(closed) && !ok ==> phase == Broken
      ensures !old(closed) && old(phase) == Broken ==> written == 0 && ok == (plaintext == [])
    {
      hide Pending, Sealed, Records, Record, Header, ProperPrefix;
      written := 0;
      assert plaintext[..0] == [];
      if closed {
        return 0, false;
      }
      assert filled <= CHUNK && phase == (if filled < CHUNK then Open else Broken);
      hide Valid;
      while written < |plaintext|
        invariant Valid() && !closed && filled <= CHUNK && phase == if filled < CHUNK then Open else Broken
        invariant phase == old(phase)
        invariant written <= |plaintext| && taken == old(taken) + plaintext[..written]
        invariant phase == Broken ==> written == 0
      {
        var take := Min(|plaintext| - written, CHUNK - filled);
        var piece := plaintext[written..written + take];
        TakeMore(old(taken), plaintext, written, take);
        ok := Accept(piece);
        written := written + take;
        if !ok { return; }
      }
      ok := true;
    }

    /** Flushes what is buffered and writes the end mark, once: closing again reports success
        whatever the first close reported. */
    method Close() returns (ok: bool)
      requires Valid()
      modifies this`filled, this`index, this`closed, this`phase, destination
      ensures Valid() && closed
      ensures old(closed) ==> ok && phase == old(phase) && destination.bytes == old(destination.bytes)
      ensures !old(closed) ==> phase == if ok then Complete else Broken
      ensures !old(closed) && ok ==> old(phase) == Open
    {
      hide Pending, Records, Record, Sealed, Header, BigEndian, ProperPrefix;
      if closed {
        return true;
      }
      if phase == Open { PendingIsSealed(this); }
      closed := true;
      ok := Finish();
    }

    /** The last flush and the end mark. */
    method Finish() returns (ok: bool)
      requires Shaped() && closed && phase != Complete && (phase == Broken ==> Valid() && filled > 0)
      requires phase == Open ==> Sealed(aead, nonce, taken) == Emitted() + (Buffered() + END_MARK)
      modifies this`filled, this`index, this`phase, destination
      ensures Valid() && phase == (if ok then Complete else Broken) && (ok ==> old(phase) == Open)
    {
      hide Pending, Records, Record, Sealed, BigEndian, ProperPrefix;
      ghost var emitted, record, room := Emitted(), Buffered(), destination.room;
      ghost var last := record + END_MARK;
      if filled > 0 { RecordNotEmpty(aead, nonce, buffer[..filled], index); }
      EndMarkIsZero();
      if room < |last| { CutIsProper(emitted, last, room); }
      ok := Flush();
      if !ok {
        assert record[..room] == last[..room];
      } else {
        ok := destination.Put(END_MARK);
        assert Emitted() == emitted + if ok then last else last[..room];
      }
      phase := if ok then Complete else Broken;
    }
  }

  lemma CutIsProper(before: Bytes, last: Bytes, room: nat)
    requires room < |last|
    ensures ProperPrefix(before + last[..room], before + last)
  {
  }

  /** What is left to write of an object in order: the buffered record and the end mark. */
  lemma PendingIsSealed(writer: SealedWriter)
    requires writer.Shaped() && writer.filled < CHUNK && writer.Pending()
    ensures Sealed(writer.aead, writer.nonce, writer.taken) == writer.Emitted() + (writer.Buffered() + END_MARK)
  {
    hide Records, Record, Header, BigEndian, Sealed;
    assert writer.taken == writer.Full() + writer.buffer[..writer.filled];
    SealedFrom(writer.aead, writer.nonce, writer.Full(), writer.buffer[..writer.filled], writer.index);
  }

  /** The three writes of a header, up to the first that does not arrive. */
  method PutHeader(nonce: Bytes, destination: Sink) returns (ok: bool)
    requires |nonce| == NONCE_SIZE
    modifies destination
    ensures ok == (|Header(nonce)| <= old(destination.room))
    ensures destination.bytes == old(destination.bytes) +
            (if ok then Header(nonce) else Header(nonce)[..old(destination.room)])
  {
    hide BigEndian;
    ghost var before, room, length := destination.bytes, destination.room, BigEndian(CHUNK, 4);
    HeaderPrefix(nonce, room);
    ok := destination.Put(MAGIC);
    if !ok { return; }
    ok := destination.Put(nonce);
    if !ok {
      assert destination.bytes == before + (MAGIC + nonce[..room - 6]);
      return;
    }
    ok := destination.Put(BigEndian(CHUNK, 4));
    assert destination.bytes == before + (MAGIC + nonce + if ok then length else length[..room - 18]);
  }

  /** What a full destination holds of a header. */
  lemma HeaderPrefix(nonce: Bytes, room: nat)
    requires |nonce| == NONCE_SIZE
    ensures |Header(nonce)| == 22
    ensures room < 6 ==> Header(nonce)[..room] == MAGIC[..room]
    ensures 6 <= room < 18 ==> Header(nonce)[..room] == MAGIC + nonce[..room - 6]
    ensures 18 <= room < 22 ==> Header(nonce)[..room] == MAGIC + nonce + BigEndian(CHUNK, 4)[..room - 18]
  {
    hide BigEndian;
  }

  /** Writes the header for `nonce`, the nonce drawn for this object. No writer is handed out
      when the key is not one or the header did not arrive. */
  method NewSealedWriter(suite: Bytes -> Aead, key: Bytes, nonce: Bytes, destination: Sink)
    returns (writer: SealedWriter?)
    requires |nonce| == NONCE_SIZE
    modifies destination
    ensures writer == null <==> |key| != KEY_SIZE || old(destination.room) < |Header(nonce)|
    ensures writer == null ==>
              destination.bytes == old(destination.bytes) +
                (if |key| != KEY_SIZE then [] else Header(nonce)[..old(destination.room)])
    ensures writer != null ==>
              && fresh(writer) && fresh(writer.buffer) && writer.destination == destination
              && writer.aead == suite(key) && writer.nonce == nonce && writer.base == old(destination.bytes)
              && writer.taken == [] && writer.phase == Open && !writer.closed && writer.Valid()
  {
    hide Records, Record, Sealed, BigEndian, Header, SealedWriter.Valid, SealedWriter.Pending;
    writer := null;
    if |key| != KEY_SIZE { return; }
    var made := new SealedWriter(suite(key), nonce, destination);
    var ok := PutHeader(nonce, destination);
    if !ok { return; }
    assert made.Emitted() == Header(nonce);
    FreshIsValid(made);
    writer := made;
  }

  /** A writer whose header has arrived is in order. */
  lemma FreshIsValid(writer: SealedWriter)
    requires writer.Shaped() && writer.taken == [] && writer.filled == writer.index == 0
    requires !writer.closed && writer.phase == Open && writer.Emitted() == Header(writer.nonce)
    ensures writer.Valid()
  {
    hide Header, Record, SealedWriter.Pending, Records, Sealed, ProperPrefix, BigEndian;
    assert writer.Pending() by { FreshIsPending(writer); }
  }

  lemma FreshIsPending(writer: SealedWriter)
    requires writer.Shaped() && writer.taken == [] && writer.filled == writer.index == 0
    requires writer.Emitted() == Header(writer.nonce)
    ensures writer.Pending()
  {
    hide Header, Record, Records, BigEndian, Sealed, ProperPrefix;
    EmptyRecords(writer.aead, writer.nonce, writer.nonce);
    assert writer.taken[..0] == [] && writer.taken[0..] == [] && writer.buffer[..0] == [];
    assert writer.Full() == [];
    assert Header(writer.nonce) + [] == Header(writer.nonce);
  }

  function Flat(pieces: seq<Bytes>): Bytes {
    if pieces == [] then [] else Flat(pieces[..|pieces| - 1]) + pieces[|pieces| - 1]
  }

  lemma {:induction false} FlatPrefix(pieces: seq<Bytes>, n: nat)
    requires n <= |pieces|
    ensures Flat(pieces[..n]) <= Flat(pieces)
  {
    if n < |pieces| {
      FlatPrefix(pieces[..|pieces| - 1], n);
      assert pieces[..|pieces| - 1][..n] == pieces[..n];
    } else {
      assert pieces[..n] == pieces;
    }
  }

  /** A stream copied through a writer in pieces. What is stored depends on the concatenation
      only; and when the destination fills up, what is stored unseals to a refusal that
      delivered no more than a prefix of the plaintext. */
  method SealPieces(suite: Bytes -> Aead, key: Bytes, nonce: Bytes, pieces: seq<Bytes>, destination: Sink)
    returns (ok: bool)
    requires |key| == KEY_SIZE && |nonce| == NONCE_SIZE && Correct(suite(key)) && destination.bytes == []
    modifies destination
    ensures ok ==> destination.bytes == Sealed(suite(key), nonce, Flat(pieces))
    ensures !ok ==> var reading := ReadObject(suite, key, destination.bytes);
                    reading.verdict in {NotSealed, HeaderCut, Truncated} && reading.out <= Flat(pieces)
  {
    hide SealedWriter.Valid, SealedWriter.Shaped, ReadObject, Records, Correct, BigEndian;
    var writer := NewSealedWriter(suite, key, nonce, destination);
    if writer == null {
      assert destination.bytes == Sealed(suite(key), nonce, [])[..old(destination.room)];
      CutObjectIsRefused(suite, key, nonce, [], old(destination.room));
      return false;
    }
    assert pieces[..0] == [];
    for i := 0 to |pieces|
      invariant fresh(writer) && fresh(writer.buffer) && writer.destination == destination
      invariant writer.Valid() && writer.phase == Open && !writer.closed && writer.taken == Flat(pieces[..i])
    {
      var written, done := writer.Write(pieces[i]);
      assert pieces[..i + 1][..i] == pieces[..i];
      FlatPrefix(pieces, i + 1);
      if !done {
        BrokenIsRefused(suite, key, writer, Flat(pieces));
        return false;
      }
      assert pieces[i][..written] == pieces[i];
    }
    assert pieces[..|pieces|] == pieces;
    ok := writer.Close();
    if ok { CompleteIsSealed(writer); } else { BrokenIsRefused(suite, key, writer, Flat(pieces)); }
  }

  lemma CompleteIsSealed(writer: SealedWriter)
    requires writer.Valid() && writer.phase == Complete && writer.base == []
    ensures writer.destination.bytes == Sealed(writer.aead, writer.nonce, writer.taken)
  {
    hide Sealed;
  }

  lemma BrokenIsRefused(suite: Bytes -> Aead, key: Bytes, writer: SealedWriter, all: Bytes)
    requires |key| == KEY_SIZE && Correct(suite(key)) && writer.aead == suite(key) && writer.base == []
    requires writer.Valid() && writer.phase == Broken && writer.taken <= all
    ensures var reading := ReadObject(suite, key, writer.destination.bytes);
            reading.verdict in {NotSealed, HeaderCut, Truncated} && reading.out <= all
  {
    var bytes := writer.destination.bytes;
    assert bytes[0..] == bytes;
    CutObjectIsRefused(suite, key, writer.nonce, writer.taken, |bytes|);
  }

  // ---- The reader ------------------------------------------------------------------------

  /** What reaching `room` bytes makes of a reading that goes into a destination. */
  ghost predicate Delivered(reading: Reading, before: Bytes, room: nat, verdict: Verdict, after: Bytes) {
    if |reading.out| <= room
    then verdict == reading.verdict && after == before + reading.out
    else verdict == WriteFailed && after == before + reading.out[..room]
  }

  /** Reads a sealed stream record by record into a destination. A full destination stops it;
      otherwise it delivers and reports what the format says. */
  method Unseal(suite: Bytes -> Aead, key: Bytes, source: Bytes, destination: Sink) returns (verdict: Verdict)
    modifies destination
    ensures Delivered(ReadObject(suite, key, source), old(destination.bytes), old(destination.room), verdict,
                      destination.bytes)
  {
    if |key| != KEY_SIZE { return BadKey; }
    if |source| < 6 || source[..6] != MAGIC { return NotSealed; }
    if |source| < 22 { return HeaderCut; }
    if ValueOf(source[18..22]) != CHUNK { return NotSealed; }
    verdict := UnsealRecords(suite(key), source[6..18], source[22..], destination);
  }

  /** One more record in front of what was delivered. */
  lemma DeliversAfter(record: Bytes, more: Reading, before: Bytes, room: nat, verdict: Verdict, after: Bytes)
    requires |record| <= room && Delivered(more, before + record, room - |record|, verdict, after)
    ensures Delivered(Reading(record + more.out, more.verdict), before, room, verdict, after)
  {
    if |more.out| > room - |record| {
      assert (record + more.out)[..room] == record + more.out[..room - |record|];
    }
  }

  method UnsealRecords(aead: Aead, nonce: Bytes, records: Bytes, destination: Sink) returns (verdict: Verdict)
    modifies destination
    ensures Delivered(ReadRecords(aead, nonce, records, 0), old(destination.bytes), old(destination.room), verdict,
                      destination.bytes)
  {
    hide BigEndian, ValueOf, AssociatedData, Delivered;
    var rest, index := records, 0;
    ghost var count := 0;
    while true
      invariant index == count % TWO64
      invariant forall v, after ::
        Delivered(ReadRecords(aead, nonce, rest, count), destination.bytes, destination.room, v, after) ==>
        Delivered(ReadRecords(aead, nonce, records, 0), old(destination.bytes), old(destination.room), v, after)
      decreases |rest|
    {
      ghost var reading, before, room := ReadRecords(aead, nonce, rest, count), destination.bytes, destination.room;
      DeliversNothing(reading, before, room);
      if |rest| < 4 { return Truncated; }
      var length := ValueOf(rest[..4]);
      if length == 0 { return if |rest| > 4 then TrailingBytes else Accepted; }
      if length > CHUNK { return Oversized; }
      if |rest| < 4 + length + OVERHEAD { return Truncated; }
      var sealed := rest[4..4 + length + OVERHEAD];
      PositionWraps(nonce, count);
      var result := aead.open(nonce, sealed, AssociatedData(nonce, index));
      if result.None? { return Forged; }
      rest := rest[4 + length + OVERHEAD..];
      ghost var more := ReadRecords(aead, nonce, rest, count + 1);
      assert reading == Reading(result.value + more.out, more.verdict);
      DeliversUntilFull(result.value, more, before, room);
      var ok := destination.Put(result.value);
      if !ok { return WriteFailed; }
      forall v, after | Delivered(more, destination.bytes, destination.room, v, after)
        ensures Delivered(reading, before, room, v, after)
      {
        DeliversAfter(result.value, more, before, room, v, after);
      }
      index := (index + 1) % TWO64;
      count := count + 1;
    }
  }

  lemma DeliversNothing(reading: Reading, before: Bytes, room: nat)
    ensures reading.out == [] ==> Delivered(reading, before, room, reading.verdict, before)
  {
  }

  lemma DeliversUntilFull(record: Bytes, more: Reading, before: Bytes, room: nat)
    ensures room < |record| ==>
              Delivered(Reading(record + more.out, more.verdict), before, room, WriteFailed, before + record[..room])
  {
    if room < |record| { assert (record + more.out)[..room] == record[..room]; }
  }

  lemma PositionWraps(nonce: Bytes, count: nat)
    ensures AssociatedData(nonce, count % TWO64) == AssociatedData(nonce, count)
    ensures (count % TWO64 + 1) % TWO64 == (count + 1) % TWO64
  {
    hide BigEndian;
    var q, r := count / TWO64, count % TWO64;
    assert r % TWO64 == r;
    if r + 1 < TWO64 {
      assert count + 1 == q * TWO64 + (r + 1);
    } else {
      assert count + 1 == (q + 1) * TWO64;
    }
  }

  // ---- The layout, byte by byte ----------------------------------------------------------

  /** What a record is bound to: the twelve bytes of the nonce, and its position in eight bytes. */
  lemma AssociatedDataLayout(nonce: Bytes, index: nat)
    ensures var a := AssociatedData(nonce, index);
            |a| == |nonce| + 8 && a[..|nonce|] == nonce && ValueOf(a[|nonce|..]) == index % 0x1_0000_0000_0000_0000
  {
    Index64RoundTrip(index % TWO64);
    hide BigEndian, ValueOf;
    assert AssociatedData(nonce, index)[|nonce|..] == BigEndian(index % TWO64, 8);
  }

  lemma FourBytes(n: nat)
    requires n < 0x1_0000_0000
    ensures BigEndian(n, 4) == [n / 0x100_0000 % 256, n / 0x1_0000 % 256, n / 0x100 % 256, n % 256]
  {
    var a, b, c := n / 256, n / 256 / 256, n / 256 / 256 / 256;
    assert a == n / 0x100 && b == n / 0x1_0000 && c == n / 0x100_0000;
    assert BigEndian(n, 4) == BigEndian(a, 3) + [n % 256];
    assert BigEndian(a, 3) == BigEndian(b, 2) + [a % 256];
    assert BigEndian(b, 2) == BigEndian(c, 1) + [b % 256];
    assert BigEndian(c, 1) == BigEndian(c / 256, 0) + [c % 256];
  }

  /** The first 22 bytes: the letters GAEB1 and a line end, the nonce, and 65536 in four bytes. */
  lemma HeaderLayout(nonce: Bytes)
    requires |nonce| == 12
    ensures Header(nonce) == [71, 65, 69, 66, 49, 10] + nonce + [0, 1, 0, 0]
    ensures END_MARK == [0, 0, 0, 0]
  {
    FourBytes(CHUNK);
    FourBytes(0);
    hide BigEndian;
  }

  lemma ChunkIs()
    ensures CHUNK == 65536 && OVERHEAD == 16
  {
  }

  lemma SizedIs(aead: Aead)
    requires Sized(aead)
    ensures forall n, p, a :: |aead.seal(n, p, a)| == |p| + 16
  {
  }

  lemma WholeChunks(i: nat)
    ensures (i * 65536) % CHUNK == 0 && (i * 65536) / CHUNK == i
  {
  }

  lemma WholeCount(data: Bytes, i: nat)
    requires |data| == i * 65536
    ensures RecordCount(data) == i
  {
  }

  lemma ChunkFirst(aead: Aead, nonce: Bytes, chunk: Bytes, after: Bytes, index: nat)
    requires 0 < |chunk| <= CHUNK && (|chunk| == CHUNK || after == [])
    ensures Records(aead, nonce, chunk + after, index) ==
            Record(aead, nonce, chunk, index) + Records(aead, nonce, after, index + 1)
  {
    hide Record;
    var data, take := chunk + after, Min(|chunk + after|, CHUNK);
    assert take == |chunk| && data[..take] == chunk && data[take..] == after;
  }

  lemma RecordParts(aead: Aead, nonce: Bytes, chunk: Bytes, index: nat)
    requires Sized(aead) && |chunk| <= 65536
    ensures var r := Record(aead, nonce, chunk, index);
            && |r| == 20 + |chunk| && ValueOf(r[..4]) == |chunk|
            && r[4..] == aead.seal(nonce, chunk, AssociatedData(nonce, index))
  {
    Length32RoundTrip(|chunk|);
    hide BigEndian, ValueOf, AssociatedData;
    assert Record(aead, nonce, chunk, index)[..4] == BigEndian(|chunk|, 4);
  }

  lemma SealedIs(aead: Aead, nonce: Bytes, data: Bytes)
    ensures Sealed(aead, nonce, data) == Header(nonce) + Records(aead, nonce, data, 0) + END_MARK
  {
  }

  lemma Regrouped(head: Bytes, a: Bytes, r: Bytes, b: Bytes, end: Bytes)
    ensures head + (a + (r + b)) + end == head + a + r + (b + end)
  {
  }

  lemma Inside(a: Bytes, r: Bytes, b: Bytes)
    requires |r| >= 4
    ensures (a + r + b)[|a|..|a| + 4] == r[..4] && (a + r + b)[|a| + 4..|a| + |r|] == r[4..]
  {
  }

  /** Where a record lies: after the header and the records before it, each of 65536 bytes and
      twenty more; and what it is: its length in four bytes, and the sealed chunk. */
  lemma RecordLayout(aead: Aead, nonce: Bytes, data: Bytes, i: nat)
    requires Sized(aead) && |nonce| == 12 && i * 65536 < |data|
    ensures var chunk := data[i * 65536..if |data| < (i + 1) * 65536 then |data| else (i + 1) * 65536];
            var at := 22 + i * 65556;
            && at + 20 + |chunk| <= |Sealed(aead, nonce, data)|
            && ValueOf(Sealed(aead, nonce, data)[at..at + 4]) == |chunk|
            && Sealed(aead, nonce, data)[at + 4..at + 20 + |chunk|] ==
               aead.seal(nonce, chunk, AssociatedData(nonce, i))
  {
    hide *;
    var end := if |data| < (i + 1) * 65536 then |data| else (i + 1) * 65536;
    var before, chunk, after := data[..i * 65536], data[i * 65536..end], data[end..];
    ChunkIs();
    assert data == before + (chunk + after);
    SizedIs(aead);
    WholeChunks(i);
    RecordsSplit(aead, nonce, before, chunk + after, 0);
    ChunkFirst(aead, nonce, chunk, after, i);
    RecordsSize(aead, nonce, before, 0);
    WholeCount(before, i);
    RecordParts(aead, nonce, chunk, i);
    var head, a, r, b := Header(nonce), Records(aead, nonce, before, 0), Record(aead, nonce, chunk, i),
                         Records(aead, nonce, after, i + 1);
    HeaderLayout(nonce);
    SealedIs(aead, nonce, data);
    Inside(head + a, r, b + END_MARK);
    Regrouped(head, a, r, b, END_MARK);
  }

  lemma StopsAt(aead: Aead, nonce: Bytes, rest: Bytes, index: nat)
    ensures |rest| < 4 ==> ReadRecords(aead, nonce, rest, index) == Reading([], Truncated)
    ensures |rest| >= 4 && ValueOf(rest[..4]) > 65536 ==>
              ReadRecords(aead, nonce, rest, index) == Reading([], Oversized)
    ensures |rest| >= 4 && 0 < ValueOf(rest[..4]) <= 65536 && |rest| < 20 + ValueOf(rest[..4]) ==>
              ReadRecords(aead, nonce, rest, index) == Reading([], Truncated)
    ensures |rest| >= 4 && 0 < ValueOf(rest[..4]) <= 65536 && |rest| >= 20 + ValueOf(rest[..4]) &&
            aead.open(nonce, rest[4..20 + ValueOf(rest[..4])], AssociatedData(nonce, index)).None? ==>
              ReadRecords(aead, nonce, rest, index) == Reading([], Forged)
  {
    hide ValueOf, AssociatedData;
  }

  /** What is refused behind an honest header and honest records, and for what: the records before
      it are delivered. */
  lemma RefusedAfter(suite: Bytes -> Aead, key: Bytes, nonce: Bytes, data: Bytes, rest: Bytes)
    requires |key| == 32 && |nonce| == 12 && Correct(suite(key))
    ensures var aead := suite(key);
            var reading := ReadObject(suite, key, Header(nonce) + (Records(aead, nonce, data, 0) + rest));
            && (|rest| < 4 ==> reading == Reading(data, Truncated))
            && (|rest| >= 4 && ValueOf(rest[..4]) > 65536 ==> reading == Reading(data, Oversized))
            && (|rest| >= 4 && 0 < ValueOf(rest[..4]) <= 65536 ==>
                  var end := 20 + ValueOf(rest[..4]);
                  && (|rest| < end ==> reading == Reading(data, Truncated))
                  && (|rest| >= end &&
                      aead.open(nonce, rest[4..end], AssociatedData(nonce, RecordCount(data))).None? ==>
                        reading == Reading(data, Forged)))
  {
    hide *;
    var aead := suite(key);
    var body := Records(aead, nonce, data, 0) + rest;
    CorrectIsSized(aead);
    CorrectOpens(aead, nonce, data, 0);
    BehindHeader(suite, key, nonce, body);
    ReadsThroughRecords(aead, nonce, data, rest, 0);
    StopsAt(aead, nonce, rest, RecordCount(data));
    assert data + [] == data;
  }

  lemma BehindHeader(suite: Bytes -> Aead, key: Bytes, nonce: Bytes, body: Bytes)
    requires |key| == 32 && |nonce| == 12
    ensures ReadObject(suite, key, Header(nonce) + body) == ReadRecords(suite(key), nonce, body, 0)
  {
    ObjectLayout(suite(key), nonce, Header(nonce) + body, body);
    hide Header, ValueOf, ReadRecords;
  }

  /** What is refused before the first record. */
  lemma RefusedHeader(suite: Bytes -> Aead, key: Bytes, source: Bytes)
    ensures |key| != 32 ==> ReadObject(suite, key, source) == Reading([], BadKey)
    ensures |key| == 32 && !([71, 65, 69, 66, 49, 10] <= source) ==>
              ReadObject(suite, key, source) == Reading([], NotSealed)
    ensures |key| == 32 && [71, 65, 69, 66, 49, 10] <= source ==>
              && (|source| < 22 ==> ReadObject(suite, key, source) == Reading([], HeaderCut))
              && (|source| >= 22 && ValueOf(source[18..22]) != 65536 ==>
                    ReadObject(suite, key, source) == Reading([], NotSealed))
              && (|source| >= 22 && ValueOf(source[18..22]) == 65536 ==>
                    ReadObject(suite, key, source) == ReadRecords(suite(key), source[6..18], source[22..], 0))
  {
    hide ValueOf, ReadRecords;
  }
}
