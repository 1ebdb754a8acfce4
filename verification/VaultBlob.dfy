/** The chunked encrypted blob: its writer, its streaming reader, and an ideal cipher between them. */
module VaultBlob {
  import opened Basics
  import opened BigEndian

  const TAG_LEN := 16
  const MAGIC: seq<Byte> := [0x49, 0x4C, 0x4D, 0x56, 0x31]  // ILMV1
  const NONCE_PREFIX_LEN := 16
  const BLOB_HEADER_LEN := 25
  const CHUNK_SIZE := 1_048_576
  const MAX_ASSET_BYTES := 134_217_728
  const MAX_ENCRYPTED_BLOB_BYTES := 135_266_304

  datatype Error = InvalidVaultBlob | Io

  /** A call to the cipher, without its plaintext. */
  datatype Box = Box(nonce: seq<Byte>, aad: seq<Byte>, ciphertext: seq<Byte>)

  function Header(prefix: seq<Byte>): (h: seq<Byte>)
    ensures |prefix| == NONCE_PREFIX_LEN ==> |h| == BLOB_HEADER_LEN
  {
    MAGIC + prefix + Bytes(CHUNK_SIZE, 4)
  }

  function ChunkNonce(prefix: seq<Byte>, index: nat): seq<Byte> { prefix + Bytes(index, 8) }

  function FlagByte(last: bool): Byte { if last then 1 else 0 }

  function ChunkAad(blob: seq<Byte>, header: seq<Byte>, index: nat, last: bool): seq<Byte> {
    blob + header + Bytes(index, 8) + [FlagByte(last)]
  }

  /** For one blob the additional data tells header, position and finality apart. */
  lemma AadInjective(blob: seq<Byte>, h: seq<Byte>, i: nat, f: bool, k: seq<Byte>, j: nat, g: bool)
    requires |h| == |k| && i < Pow(256, 8) && j < Pow(256, 8)
    requires ChunkAad(blob, h, i, f) == ChunkAad(blob, k, j, g)
    ensures h == k && i == j && f == g
  {
    var x, y := ChunkAad(blob, h, i, f), ChunkAad(blob, k, j, g);
    var n := |blob| + |h|;
    assert h == x[|blob|..n] && k == y[|blob|..n];
    assert Bytes(i, 8) == x[n..n + 8] && Bytes(j, 8) == y[n..n + 8];
    assert x[n + 8] == FlagByte(f) && y[n + 8] == FlagByte(g);
    BytesInjective(i, j, 8);
  }

  // ----- chunks of a plaintext -----

  /** `div_ceil(CHUNK_SIZE).max(1)`. */
  function ChunkCount(n: nat): (count: nat)
    ensures count >= 1 && (count - 1) * CHUNK_SIZE <= n <= count * CHUNK_SIZE
    ensures n > 0 ==> (count - 1) * CHUNK_SIZE < n
  {
    if n == 0 then 1 else (n + CHUNK_SIZE - 1) / CHUNK_SIZE
  }

  function Chunk(p: seq<Byte>, i: nat): (c: seq<Byte>)
    requires i < ChunkCount(|p|)
    ensures |c| <= CHUNK_SIZE
  {
    if i + 1 == ChunkCount(|p|) then p[i * CHUNK_SIZE..] else p[i * CHUNK_SIZE..(i + 1) * CHUNK_SIZE]
  }

  function BoxOf(blob: seq<Byte>, prefix: seq<Byte>, p: seq<Byte>, ciphertexts: seq<seq<Byte>>, i: nat): Box
    requires i < ChunkCount(|p|) && i < |ciphertexts|
  {
    Box(ChunkNonce(prefix, i), ChunkAad(blob, Header(prefix), i, i + 1 == ChunkCount(|p|)), ciphertexts[i])
  }

  /** Exactly the chunks of `p` have been sealed, in this order. */
  ghost predicate Seals(sealed: map<Box, seq<Byte>>, blob: seq<Byte>, prefix: seq<Byte>, p: seq<Byte>,
                        ciphertexts: seq<seq<Byte>>, count: nat)
  {
    && count == |ciphertexts| <= ChunkCount(|p|)
    && (forall i :: 0 <= i < count ==>
          && |ciphertexts[i]| == |Chunk(p, i)| + TAG_LEN
          && BoxOf(blob, prefix, p, ciphertexts, i) in sealed
          && sealed[BoxOf(blob, prefix, p, ciphertexts, i)] == Chunk(p, i))
    && (forall b :: b in sealed ==> exists i :: 0 <= i < count && b == BoxOf(blob, prefix, p, ciphertexts, i))
  }

  function Record(ciphertext: seq<Byte>, last: bool): seq<Byte> {
    [FlagByte(last)] + Bytes(|ciphertext|, 4) + ciphertext
  }

  /** The records of the first `k` chunks of `total`. */
  function Records(ciphertexts: seq<seq<Byte>>, total: nat, k: nat): seq<Byte>
    requires k <= |ciphertexts|
  {
    if k == 0 then [] else Records(ciphertexts, total, k - 1) + Record(ciphertexts[k - 1], k == total)
  }

  function BlobBytes(prefix: seq<Byte>, ciphertexts: seq<seq<Byte>>): seq<Byte> {
    Header(prefix) + Records(ciphertexts, |ciphertexts|, |ciphertexts|)
  }

  lemma {:induction false} RecordsOfPrefix(xs: seq<seq<Byte>>, ys: seq<seq<Byte>>, total: nat, k: nat)
    requires k <= |xs| <= |ys| && xs == ys[..|xs|]
    ensures Records(xs, total, k) == Records(ys, total, k)
  {
    if k != 0 {
      RecordsOfPrefix(xs, ys, total, k - 1);
    }
  }

  lemma {:induction false} RecordsPrefix(ciphertexts: seq<seq<Byte>>, total: nat, j: nat, k: nat)
    requires j <= k <= |ciphertexts|
    ensures Records(ciphertexts, total, j) <= Records(ciphertexts, total, k)
    decreases k
  {
    if j < k {
      RecordsPrefix(ciphertexts, total, j, k - 1);
    }
  }

  lemma ChunkLength(p: seq<Byte>, i: nat)
    requires i < ChunkCount(|p|)
    ensures |Chunk(p, i)| == if i + 1 == ChunkCount(|p|) then |p| - i * CHUNK_SIZE else CHUNK_SIZE
  {
  }

  lemma RecordLength(ciphertext: seq<Byte>, last: bool)
    ensures |Record(ciphertext, last)| == 5 + |ciphertext|
  {
  }

  /** The length of one ciphertext: a full chunk, or what is left for the last one, and the tag. */
  lemma SealedLength(sealed: map<Box, seq<Byte>>, blob: seq<Byte>, prefix: seq<Byte>, p: seq<Byte>,
                     ciphertexts: seq<seq<Byte>>, count: nat, i: nat)
    requires Seals(sealed, blob, prefix, p, ciphertexts, count) && i < count
    ensures count == |ciphertexts| <= ChunkCount(|p|)
    ensures |ciphertexts[i]| == TAG_LEN + if i + 1 == ChunkCount(|p|) then |p| - i * CHUNK_SIZE else CHUNK_SIZE
  {
    hide BoxOf, Chunk, ChunkCount;
    ChunkLength(p, i);
  }

  /** 21 bytes of framing a chunk. */
  lemma {:induction false} RecordsLength(sealed: map<Box, seq<Byte>>, blob: seq<Byte>, prefix: seq<Byte>, p: seq<Byte>,
                                         ciphertexts: seq<seq<Byte>>, count: nat, k: nat)
    requires Seals(sealed, blob, prefix, p, ciphertexts, count) && k <= count
    ensures k <= |ciphertexts|
    ensures |Records(ciphertexts, ChunkCount(|p|), k)| == 21 * k + if k == ChunkCount(|p|) then |p| else k * CHUNK_SIZE
  {
    hide Seals, Record, Chunk, ChunkCount;
    if k != 0 {
      SealedLength(sealed, blob, prefix, p, ciphertexts, count, k - 1);
      RecordsLength(sealed, blob, prefix, p, ciphertexts, count, k - 1);
      RecordLength(ciphertexts[k - 1], k == ChunkCount(|p|));
    }
  }

  /** One file key.  Ideal encryption: a box opens only if this key sealed it, to what was sealed. */
  class FileKey {
    var sealed: map<Box, seq<Byte>>

    constructor ()
      ensures sealed == map[]
    {
      sealed := map[];
    }

    method Encrypt(nonce: seq<Byte>, plaintext: seq<Byte>, aad: seq<Byte>) returns (ciphertext: seq<Byte>)
      requires forall b :: b in sealed ==> b.nonce != nonce || b.aad != aad
      modifies this
      ensures |ciphertext| == |plaintext| + TAG_LEN
      ensures sealed == old(sealed)[Box(nonce, aad, ciphertext) := plaintext]
    {
      ciphertext := seq(|plaintext| + TAG_LEN, i => 0);
      sealed := sealed[Box(nonce, aad, ciphertext) := plaintext];
    }

    method Decrypt(nonce: seq<Byte>, ciphertext: seq<Byte>, aad: seq<Byte>) returns (r: Result<seq<Byte>, Error>)
      ensures r == if Box(nonce, aad, ciphertext) in sealed then Ok(sealed[Box(nonce, aad, ciphertext)]) else Err(InvalidVaultBlob)
    {
      var b := Box(nonce, aad, ciphertext);
      r := if b in sealed then Ok(sealed[b]) else Err(InvalidVaultBlob);
    }
  }

  lemma {:induction false} ByteWidth(n: nat)
    ensures n < 0x1_0000_0000 ==> n < Pow(256, 8)
  {
    assert Pow(256, 2) == 65536 && Pow(256, 4) == 65536 * 65536;
    assert Pow(256, 5) >= 0x1_0000_0000 && Pow(256, 6) >= 0x1_0000_0000 && Pow(256, 7) >= 0x1_0000_0000;
  }

  lemma NonceFresh(prefix: seq<Byte>, i: nat, j: nat)
    requires i < j < 0x1_0000_0000
    ensures ChunkNonce(prefix, i) != ChunkNonce(prefix, j)
  {
    ByteWidth(i);
    ByteWidth(j);
    if Bytes(i, 8) == Bytes(j, 8) {
      BytesInjective(i, j, 8);
    }
    assert ChunkNonce(prefix, i)[|prefix|..] == Bytes(i, 8) && ChunkNonce(prefix, j)[|prefix|..] == Bytes(j, 8);
  }

  lemma SealsNext(sealed: map<Box, seq<Byte>>, blob: seq<Byte>, prefix: seq<Byte>, p: seq<Byte>,
                  ciphertexts: seq<seq<Byte>>, c: seq<Byte>, count: nat)
    requires Seals(sealed, blob, prefix, p, ciphertexts, count) && count < ChunkCount(|p|) < 0x1_0000_0000
    requires |c| == |Chunk(p, count)| + TAG_LEN
    ensures var more := ciphertexts + [c];
      Seals(sealed[BoxOf(blob, prefix, p, more, count) := Chunk(p, count)], blob, prefix, p, more, count + 1)
  {
    hide BoxOf, Chunk, ChunkCount;
    var more := ciphertexts + [c];
    var last := BoxOf(blob, prefix, p, more, count);
    var out := sealed[last := Chunk(p, count)];
    BoxesBefore(blob, prefix, p, ciphertexts, c);
    forall b | b in out ensures exists i :: 0 <= i < count + 1 && b == BoxOf(blob, prefix, p, more, i) {
      if b != last {
        var i :| 0 <= i < count && b == BoxOf(blob, prefix, p, ciphertexts, i);
        assert b == BoxOf(blob, prefix, p, more, i);
      }
    }
  }

  lemma BoxesBefore(blob: seq<Byte>, prefix: seq<Byte>, p: seq<Byte>, ciphertexts: seq<seq<Byte>>, c: seq<Byte>)
    requires |ciphertexts| < ChunkCount(|p|) < 0x1_0000_0000
    ensures forall i :: 0 <= i < |ciphertexts| ==>
      BoxOf(blob, prefix, p, ciphertexts + [c], i) == BoxOf(blob, prefix, p, ciphertexts, i)
      && BoxOf(blob, prefix, p, ciphertexts, i) != BoxOf(blob, prefix, p, ciphertexts + [c], |ciphertexts|)
  {
    forall i | 0 <= i < |ciphertexts|
      ensures BoxOf(blob, prefix, p, ciphertexts, i) != BoxOf(blob, prefix, p, ciphertexts + [c], |ciphertexts|)
    {
      NonceFresh(prefix, i, |ciphertexts|);
    }
  }

  lemma AppendRecord(output: seq<Byte>, header: seq<Byte>, ciphertexts: seq<seq<Byte>>, c: seq<Byte>, total: nat)
    requires output == header + Records(ciphertexts, total, |ciphertexts|)
    ensures output + [FlagByte(|ciphertexts| + 1 == total)] + Bytes(|c|, 4) + c
            == header + Records(ciphertexts + [c], total, |ciphertexts| + 1)
  {
    var n, more := |ciphertexts|, ciphertexts + [c];
    RecordsOfPrefix(ciphertexts, more, total, n);
    assert Records(more, total, n + 1) == Records(ciphertexts, total, n) + Record(c, n + 1 == total);
    Regroup(output, [FlagByte(n + 1 == total)], Bytes(|c|, 4), c);
    hide Records, Bytes;
    Regroup(header, Records(ciphertexts, total, n), Record(c, n + 1 == total), []);
  }

  lemma Regroup(a: seq<Byte>, x: seq<Byte>, y: seq<Byte>, z: seq<Byte>)
    ensures a + x + y + z == a + (x + y + z)
    ensures a + x + y == a + (x + y)
  {
    assert a + x + y + z == a + (x + y + z);
  }

  lemma NothingSealed(blob: seq<Byte>, prefix: seq<Byte>, p: seq<Byte>, count: nat)
    ensures Seals(map[], blob, prefix, p, [], 0)
    ensures Header(prefix) + Records([], count, 0) == Header(prefix)
  {
  }

  /** One chunk: sealed, framed and appended to the output. */
  method SealChunk(blob: seq<Byte>, key: FileKey, prefix: seq<Byte>, chunk: seq<Byte>, index: nat, last: bool, output: seq<Byte>,
                   ghost p: seq<Byte>, ghost ciphertexts: seq<seq<Byte>>)
    returns (longer: seq<Byte>, ghost more: seq<seq<Byte>>)
    requires Seals(key.sealed, blob, prefix, p, ciphertexts, index) && index < ChunkCount(|p|) < 0x1_0000_0000
    requires chunk == Chunk(p, index) && last == (index + 1 == ChunkCount(|p|))
    requires |ciphertexts| == index && output == Header(prefix) + Records(ciphertexts, ChunkCount(|p|), index)
    modifies key
    ensures Seals(key.sealed, blob, prefix, p, more, index + 1)
    ensures |more| == index + 1 && longer == Header(prefix) + Records(more, ChunkCount(|p|), index + 1)
  {
    hide Seals, Records, Header, Chunk, ChunkCount;
    ghost var before := key.sealed;
    FreshBox(before, blob, prefix, p, ciphertexts, index);
    var ciphertext := key.Encrypt(ChunkNonce(prefix, index), chunk, ChunkAad(blob, Header(prefix), index, last));
    more := ciphertexts + [ciphertext];
    SealsNext(before, blob, prefix, p, ciphertexts, ciphertext, index);
    AppendRecord(output, Header(prefix), ciphertexts, ciphertext, ChunkCount(|p|));
    longer := output + [FlagByte(last)] + Bytes(|ciphertext|, 4) + ciphertext;
  }

  /** `encrypt_reader_to_writer`: `source` is what the reader yields, `length` what the caller announced. */
  method Encrypt(blob: seq<Byte>, key: FileKey, prefix: seq<Byte>, source: seq<Byte>, length: nat)
    returns (r: Result<seq<Byte>, Error>, ghost ciphertexts: seq<seq<Byte>>)
    requires key.sealed == map[] && |prefix| == NONCE_PREFIX_LEN
    modifies key
    ensures r.Ok? <==> length <= MAX_ASSET_BYTES && |source| == length
    ensures r.Ok? ==>
      && Seals(key.sealed, blob, prefix, source, ciphertexts, ChunkCount(|source|))
      && r.value == BlobBytes(prefix, ciphertexts)
      && |r.value| == 25 + |source| + 21 * ChunkCount(|source|)
      && BLOB_HEADER_LEN + 5 + TAG_LEN <= |r.value| <= MAX_ENCRYPTED_BLOB_BYTES
  {
    hide Seals, Records, Header;
    ciphertexts := [];
    if length > MAX_ASSET_BYTES {
      return Err(InvalidVaultBlob), ciphertexts;
    }
    var output := Header(prefix);
    var count := ChunkCount(length);
    var remaining, position := length, 0;
    // What a reader that fails early would have had to yield.
    ghost var p := if |source| >= length then source[..length] else source + seq(length - |source|, i => 0);
    NothingSealed(blob, prefix, p, count);
    for index := 0 to count
      invariant remaining == length - position && position <= |source|
      invariant position == if index == count then length else index * CHUNK_SIZE
      invariant |ciphertexts| == index && Seals(key.sealed, blob, prefix, p, ciphertexts, index)
      invariant output == Header(prefix) + Records(ciphertexts, count, index)
    {
      var size := if remaining < CHUNK_SIZE then remaining else CHUNK_SIZE;
      if size != 0 && position + size > |source| {
        return Err(Io), ciphertexts;
      }
      var chunk := source[position..position + size];
      assert chunk == Chunk(p, index);
      position, remaining := position + size, remaining - size;
      output, ciphertexts := SealChunk(blob, key, prefix, chunk, index, index + 1 == count, output, p, ciphertexts);
    }
    if position < |source| {
      return Err(InvalidVaultBlob), ciphertexts;
    }
    assert p == source;
    RecordsLength(key.sealed, blob, prefix, p, ciphertexts, count, count);
    r := Ok(output);
  }

  lemma FreshBox(sealed: map<Box, seq<Byte>>, blob: seq<Byte>, prefix: seq<Byte>, p: seq<Byte>, ciphertexts: seq<seq<Byte>>, count: nat)
    requires Seals(sealed, blob, prefix, p, ciphertexts, count) && count < 0x1_0000_0000
    ensures forall b :: b in sealed ==> b.nonce != ChunkNonce(prefix, count)
  {
    forall b | b in sealed ensures b.nonce != ChunkNonce(prefix, count) {
      var i :| 0 <= i < count && b == BoxOf(blob, prefix, p, ciphertexts, i);
      NonceFresh(prefix, i, count);
    }
  }

  // ----- the reader -----

  /** `u32::from_be_bytes`. */
  function Number(bytes: seq<Byte>): nat { Value(256, bytes) }

  lemma {:induction false} NumberOfBytes(x: nat, n: nat)
    requires x < Pow(256, n)
    ensures Number(Bytes(x, n)) == x
    decreases n
  {
    if n != 0 {
      assert Bytes(x, n)[..n - 1] == Bytes(x / 256, n - 1);
      NumberOfBytes(x / 256, n - 1);
    }
  }

  /** Record `i` of a blob, where the reader finds it. */
  lemma RecordAt(file: seq<Byte>, prefix: seq<Byte>, ciphertexts: seq<seq<Byte>>, i: nat)
    requires i < |ciphertexts| && file == BlobBytes(prefix, ciphertexts)
    ensures var at := |Header(prefix)| + |Records(ciphertexts, |ciphertexts|, i)|;
      var c := ciphertexts[i];
      && at + 5 + |c| == |Header(prefix)| + |Records(ciphertexts, |ciphertexts|, i + 1)| <= |file|
      && file[at] == FlagByte(i + 1 == |ciphertexts|)
      && file[at + 1..at + 5] == Bytes(|c|, 4) && file[at + 5..at + 5 + |c|] == c
  {
    var n := |ciphertexts|;
    var head := Header(prefix) + Records(ciphertexts, n, i);
    var c, last := ciphertexts[i], i + 1 == n;
    RecordsPrefix(ciphertexts, n, i + 1, n);
    RecordsNext(ciphertexts, i);
    hide Records, Header, Bytes;
    PrefixThrough(Header(prefix), Records(ciphertexts, n, i), Record(c, last), Records(ciphertexts, n, n));
    InTheMiddle(file, head, [FlagByte(last)], Bytes(|c|, 4), c);
  }

  lemma PrefixThrough(header: seq<Byte>, done: seq<Byte>, next: seq<Byte>, all: seq<Byte>)
    requires done + next <= all
    ensures header + done + next <= header + all
  {
    assert header + done + next == header + (done + next);
  }

  lemma InTheMiddle(file: seq<Byte>, head: seq<Byte>, x: seq<Byte>, y: seq<Byte>, z: seq<Byte>)
    requires head + (x + y + z) <= file && |x| == 1
    ensures var at := |head|;
      |file| >= at + 1 + |y| + |z| && file[at] == x[0]
      && file[at + 1..at + 1 + |y|] == y && file[at + 1 + |y|..at + 1 + |y| + |z|] == z
  {
    var all := head + (x + y + z);
    assert all == head + x + y + z;
    assert file[..|all|] == all;
  }

  /** What opens under the writer's key is the next chunk, with the writer's header and finality. */
  lemma OpenedChunk(sealed: map<Box, seq<Byte>>, blob: seq<Byte>, prefix: seq<Byte>, p: seq<Byte>, ciphertexts: seq<seq<Byte>>,
                    header: seq<Byte>, noncePrefix: seq<Byte>, index: nat, last: bool, c: seq<Byte>)
    requires Seals(sealed, blob, prefix, p, ciphertexts, ChunkCount(|p|)) && |prefix| == NONCE_PREFIX_LEN
    requires |header| == BLOB_HEADER_LEN && index < 0x1_0000_0000 && ChunkCount(|p|) < 0x1_0000_0000
    requires Box(ChunkNonce(noncePrefix, index), ChunkAad(blob, header, index, last), c) in sealed
    ensures index < ChunkCount(|p|) && header == Header(prefix) && last == (index + 1 == ChunkCount(|p|)) && c == ciphertexts[index]
    ensures sealed[Box(ChunkNonce(noncePrefix, index), ChunkAad(blob, header, index, last), c)] == Chunk(p, index)
  {
    var b := Box(ChunkNonce(noncePrefix, index), ChunkAad(blob, header, index, last), c);
    var i :| 0 <= i < ChunkCount(|p|) && b == BoxOf(blob, prefix, p, ciphertexts, i);
    ByteWidth(i);
    ByteWidth(index);
    AadInjective(blob, header, index, last, Header(prefix), i, i + 1 == ChunkCount(|p|));
  }

  lemma CiphertextLength(sealed: map<Box, seq<Byte>>, blob: seq<Byte>, prefix: seq<Byte>, p: seq<Byte>, ciphertexts: seq<seq<Byte>>, i: nat)
    requires Seals(sealed, blob, prefix, p, ciphertexts, ChunkCount(|p|)) && i < ChunkCount(|p|)
    ensures |ciphertexts| == ChunkCount(|p|) && TAG_LEN <= |ciphertexts[i]| <= CHUNK_SIZE + TAG_LEN
    ensures Number(Bytes(|ciphertexts[i]|, 4)) == |ciphertexts[i]|
  {
    assert Pow(256, 2) == 65536 && Pow(256, 3) == 65536 * 256 && Pow(256, 4) == 65536 * 65536;
    assert |ciphertexts[i]| == |Chunk(p, i)| + TAG_LEN;
    NumberOfBytes(|ciphertexts[i]|, 4);
  }

  lemma InBox(sealed: map<Box, seq<Byte>>, blob: seq<Byte>, prefix: seq<Byte>, p: seq<Byte>, ciphertexts: seq<seq<Byte>>, i: nat)
    requires Seals(sealed, blob, prefix, p, ciphertexts, ChunkCount(|p|)) && i < ChunkCount(|p|)
    ensures |ciphertexts| == ChunkCount(|p|)
    ensures Box(ChunkNonce(prefix, i), ChunkAad(blob, Header(prefix), i, i + 1 == |ciphertexts|), ciphertexts[i]) in sealed
  {
    assert BoxOf(blob, prefix, p, ciphertexts, i) in sealed;
  }

  /** Chunks follow one another and every one but the last is full. */
  lemma ChunkEnds(p: seq<Byte>, i: nat)
    requires i < ChunkCount(|p|)
    ensures i + 1 < ChunkCount(|p|) ==> |Chunk(p, i)| == CHUNK_SIZE
    ensures i * CHUNK_SIZE <= |p|
    ensures p[..i * CHUNK_SIZE] + Chunk(p, i) == if i + 1 == ChunkCount(|p|) then p else p[..(i + 1) * CHUNK_SIZE]
  {
  }

  /** `Number` has one preimage of four bytes. */
  lemma SliceIsRecord(file: seq<Byte>, at: nat, length: nat)
    requires at + 5 + length <= |file| && file[at] <= 1 && length == Number(file[at + 1..at + 5]) <= CHUNK_SIZE + TAG_LEN
    ensures file[..at + 5 + length] == file[..at] + Record(file[at + 5..at + 5 + length], file[at] == 1)
  {
    var bytes, c := file[at + 1..at + 5], file[at + 5..at + 5 + length];
    assert Pow(256, 2) == 65536 && Pow(256, 3) == 65536 * 256 && Pow(256, 4) == 65536 * 65536;
    NumberOfBytes(length, 4);
    ValueInjective(256, bytes, Bytes(length, 4));
    hide Bytes, Number, Pow;
    var whole := file[..at + 5 + length];
    assert whole == file[..at] + whole[at..];
    assert whole[at..] == [file[at]] + bytes + c;
  }

  lemma RecordsNext(ciphertexts: seq<seq<Byte>>, i: nat)
    requires i < |ciphertexts|
    ensures Records(ciphertexts, |ciphertexts|, i + 1)
            == Records(ciphertexts, |ciphertexts|, i) + Record(ciphertexts[i], i + 1 == |ciphertexts|)
  {
  }

  lemma HeaderParts(file: seq<Byte>, prefix: seq<Byte>, ciphertexts: seq<seq<Byte>>)
    requires file == BlobBytes(prefix, ciphertexts) && |prefix| == NONCE_PREFIX_LEN
    ensures |file| >= BLOB_HEADER_LEN && file[..BLOB_HEADER_LEN] == Header(prefix) && file[5..21] == prefix
  {
    assert file[5..21] == Header(prefix)[5..21];
  }

  lemma HeaderFirst(file: seq<Byte>, ciphertexts: seq<seq<Byte>>)
    requires |file| >= BLOB_HEADER_LEN
    ensures |Records(ciphertexts, |ciphertexts|, 0)| == 0
    ensures file[..BLOB_HEADER_LEN] == file[..BLOB_HEADER_LEN] + Records(ciphertexts, |ciphertexts|, 0)
  {
  }

  lemma ConsumedNext(file: seq<Byte>, before: nat, after: nat, header: seq<Byte>, ciphertexts: seq<seq<Byte>>, i: nat)
    requires after <= before <= |file| && i < |ciphertexts|
    requires file[..|file| - before] == header + Records(ciphertexts, |ciphertexts|, i)
    requires file[..|file| - after] == file[..|file| - before] + Record(ciphertexts[i], i + 1 == |ciphertexts|)
    ensures file[..|file| - after] == header + Records(ciphertexts, |ciphertexts|, i + 1)
  {
    RecordsNext(ciphertexts, i);
  }

  lemma NothingYielded(plain: seq<Byte>)
    ensures [] == plain[..0 * CHUNK_SIZE] <= plain
  {
  }

  lemma WholeLength(file: seq<Byte>, prefix: seq<Byte>, ciphertexts: seq<seq<Byte>>)
    requires file == BlobBytes(prefix, ciphertexts) && |prefix| == NONCE_PREFIX_LEN
    ensures |file| == BLOB_HEADER_LEN + |Records(ciphertexts, |ciphertexts|, |ciphertexts|)|
  {
  }

  lemma HeaderFields(file: seq<Byte>, prefix: seq<Byte>, rest: seq<Byte>)
    requires file == Header(prefix) + rest && |prefix| == NONCE_PREFIX_LEN
    ensures |file| == BLOB_HEADER_LEN + |rest| && file[..5] == MAGIC && file[21..25] == Bytes(CHUNK_SIZE, 4)
  {
    var size := Bytes(CHUNK_SIZE, 4);
    hide Bytes;
    assert file == MAGIC + (prefix + (size + rest));
  }

  /** The writer's output passes the checks made before the first chunk. */
  lemma WrittenPasses(sealed: map<Box, seq<Byte>>, blob: seq<Byte>, prefix: seq<Byte>, p: seq<Byte>, ciphertexts: seq<seq<Byte>>)
    requires |prefix| == NONCE_PREFIX_LEN && |p| <= MAX_ASSET_BYTES
    requires Seals(sealed, blob, prefix, p, ciphertexts, ChunkCount(|p|))
    ensures var file := BlobBytes(prefix, ciphertexts);
      && |file| == 25 + |p| + 21 * ChunkCount(|p|)
      && BLOB_HEADER_LEN + 5 + TAG_LEN <= |file| <= MAX_ENCRYPTED_BLOB_BYTES
      && file[..5] == MAGIC && Number(file[21..25]) == CHUNK_SIZE
  {
    assert |ciphertexts| == ChunkCount(|p|);
    RecordsLength(sealed, blob, prefix, p, ciphertexts, |ciphertexts|, |ciphertexts|);
    hide Seals, Records, Bytes;
    HeaderFields(BlobBytes(prefix, ciphertexts), prefix, Records(ciphertexts, |ciphertexts|, |ciphertexts|));
    assert Pow(256, 2) == 65536 && Pow(256, 3) == 65536 * 256 && Pow(256, 4) == 65536 * 65536;
    NumberOfBytes(CHUNK_SIZE, 4);
  }

  lemma FewChunks(n: nat)
    requires n <= MAX_ASSET_BYTES
    ensures ChunkCount(n) < 0x1_0000_0000
  {
  }

  class VaultBlobReader {
    const file: seq<Byte>
    const blob: seq<Byte>
    const key: FileKey
    const header: seq<Byte>
    const noncePrefix: seq<Byte>
    var encryptedRemaining: nat
    var plaintextTotal: nat
    var index: nat
    var finished: bool

    // What the writer sealed under this key, and what has been yielded so far.
    ghost const prefix: seq<Byte>
    ghost const plain: seq<Byte>
    ghost const ciphertexts: seq<seq<Byte>>
    ghost var yielded: seq<Byte>
    ghost var failed: bool

    ghost predicate Written()
      reads key
    {
      && |prefix| == NONCE_PREFIX_LEN && |plain| <= MAX_ASSET_BYTES
      && Seals(key.sealed, blob, prefix, plain, ciphertexts, ChunkCount(|plain|))
    }

    /** The file is the one the writer wrote. */
    ghost predicate Intact() {
      file == BlobBytes(prefix, ciphertexts)
    }

    ghost predicate Valid()
      reads this, key
    {
      && Written()
      && |header| == BLOB_HEADER_LEN <= |file| && encryptedRemaining <= |file| - BLOB_HEADER_LEN
      && index < ChunkCount(|plain|) == |ciphertexts| && plaintextTotal == |yielded| && yielded <= plain
      && (!finished ==> !failed && yielded == plain[..index * CHUNK_SIZE])
      && (finished && !failed ==> yielded == plain)
      && (Intact() ==> !failed && header == Header(prefix) && noncePrefix == prefix)
      && (Intact() && !finished ==> |file| - encryptedRemaining == BLOB_HEADER_LEN + |Records(ciphertexts, |ciphertexts|, index)|)
      && (!failed && !finished ==> Consumed(index))
      && (!failed && finished ==> encryptedRemaining == 0 && Consumed(index + 1) && index + 1 == |ciphertexts|)
    }

    /** What has been accepted so far is, byte for byte, what the writer wrote. */
    ghost predicate Consumed(chunks: nat)
      reads `encryptedRemaining
    {
      && encryptedRemaining <= |file| && chunks <= |ciphertexts|
      && file[..|file| - encryptedRemaining] == header + Records(ciphertexts, |ciphertexts|, chunks)
      && (chunks > 0 ==> header == Header(prefix))
    }

    /** `blob_reader` after its checks of length and header. */
    constructor (file: seq<Byte>, blob: seq<Byte>, key: FileKey, ghost prefix: seq<Byte>, ghost plain: seq<Byte>,
                 ghost ciphertexts: seq<seq<Byte>>)
      requires BLOB_HEADER_LEN <= |file|
      requires |prefix| == NONCE_PREFIX_LEN && |plain| <= MAX_ASSET_BYTES
      requires Seals(key.sealed, blob, prefix, plain, ciphertexts, ChunkCount(|plain|))
      ensures Valid() && !finished && yielded == [] && this.file == file && this.blob == blob && this.key == key
      ensures this.prefix == prefix && this.plain == plain && this.ciphertexts == ciphertexts
    {
      this.file, this.blob, this.key := file, blob, key;
      this.header, this.noncePrefix := file[..BLOB_HEADER_LEN], file[5..21];
      this.encryptedRemaining := |file| - BLOB_HEADER_LEN;
      this.plaintextTotal, this.index, this.finished := 0, 0, false;
      this.prefix, this.plain, this.ciphertexts, this.yielded, this.failed := prefix, plain, ciphertexts, [], false;
      new;
      hide Seals, Valid;
      AtStart();
    }

    lemma AtStart()
      requires Written() && |file| >= BLOB_HEADER_LEN && header == file[..BLOB_HEADER_LEN] && noncePrefix == file[5..21]
      requires encryptedRemaining == |file| - BLOB_HEADER_LEN && plaintextTotal == 0 && index == 0 && yielded == []
      requires !finished && !failed
      ensures Valid()
    {
      hide Seals, Bytes, Chunk, ChunkCount, Header, Records, BlobBytes, ChunkNonce, ChunkAad;
      InBox(key.sealed, blob, prefix, plain, ciphertexts, 0);
      HeaderFirst(file, ciphertexts);
      NothingYielded(plain);
      if Intact() {
        HeaderParts(file, prefix, ciphertexts);
      }
    }

    /** The framing of one record: its flag, its length and that many bytes. */
    method ReadRecord() returns (r: Result<(bool, seq<Byte>), Error>)
      requires Valid() && !finished
      modifies this`encryptedRemaining
      ensures encryptedRemaining <= old(encryptedRemaining)
      ensures r.Ok? ==>
        file[..|file| - encryptedRemaining] == file[..|file| - old(encryptedRemaining)] + Record(r.value.1, r.value.0)
      ensures Intact() ==>
        && r == Ok((index + 1 == |ciphertexts|, ciphertexts[index]))
        && |file| - encryptedRemaining == BLOB_HEADER_LEN + |Records(ciphertexts, |ciphertexts|, index + 1)|
    {
      hide Seals, Records, Header, BlobBytes, Bytes, Number, Pow, Chunk, ChunkCount;
      CiphertextLength(key.sealed, blob, prefix, plain, ciphertexts, index);
      if Intact() {
        RecordAt(file, prefix, ciphertexts, index);
      }
      if encryptedRemaining < 5 {
        return Err(InvalidVaultBlob);
      }
      var at := |file| - encryptedRemaining;
      encryptedRemaining := encryptedRemaining - 5;
      if file[at] > 1 {
        return Err(InvalidVaultBlob);
      }
      var length := Number(file[at + 1..at + 5]);
      if length < TAG_LEN || length > CHUNK_SIZE + TAG_LEN || length > encryptedRemaining {
        return Err(InvalidVaultBlob);
      }
      encryptedRemaining := encryptedRemaining - length;
      SliceIsRecord(file, at, length);
      r := Ok((file[at] == 1, file[at + 5..at + 5 + length]));
    }

    /** One record, opened: what opens is the next chunk of the plaintext. */
    method OpenRecord() returns (r: Result<(bool, seq<Byte>), Error>)
      requires Valid() && !finished
      modifies this`encryptedRemaining
      ensures encryptedRemaining <= old(encryptedRemaining)
      ensures r.Ok? ==>
        && r.value == (index + 1 == ChunkCount(|plain|), Chunk(plain, index)) && Consumed(index + 1)
        && (Intact() ==> |file| - encryptedRemaining == BLOB_HEADER_LEN + |Records(ciphertexts, |ciphertexts|, index + 1)|)
      ensures r.Err? ==> !Intact()
    {
      hide Seals, Records, Header, BlobBytes, ChunkAad, ChunkNonce, Chunk, ChunkCount;
      var record := ReadRecord();
      if record.Err? {
        return Err(record.error);
      }
      var (last, ciphertext) := record.value;
      InBox(key.sealed, blob, prefix, plain, ciphertexts, index);
      var unsealed := key.Decrypt(ChunkNonce(noncePrefix, index), ciphertext, ChunkAad(blob, header, index, last));
      if unsealed.Err? {
        return Err(InvalidVaultBlob);
      }
      FewChunks(|plain|);
      OpenedChunk(key.sealed, blob, prefix, plain, ciphertexts, header, noncePrefix, index, last, ciphertext);
      ConsumedNext(file, old(encryptedRemaining), encryptedRemaining, header, ciphertexts, index);
      r := Ok((last, unsealed.value));
    }

    /** A chunk read without error is the next chunk of the plaintext, and an intact file gives no error. */
    method ReadChunk() returns (r: Result<seq<Byte>, Error>)
      requires Valid() && !finished
      modifies this
      ensures encryptedRemaining <= old(encryptedRemaining)
      ensures r.Ok? ==>
        && Valid() && !failed && r.value == Chunk(plain, old(index)) && yielded == old(yielded) + r.value
        && finished == (old(index) + 1 == ChunkCount(|plain|)) && index == (if finished then old(index) else old(index) + 1)
      ensures r.Err? ==> !Intact() && unchanged(`yielded, `plaintextTotal, `index, `finished, `failed)
    {
      hide Seals, Records, Header, BlobBytes, Chunk, ChunkCount, Consumed;
      var record := OpenRecord();
      if record.Err? {
        return Err(record.error);
      }
      var (last, plaintext) := record.value;
      ChunkEnds(plain, index);
      if Intact() && last { WholeLength(file, prefix, ciphertexts); }
      if (!last && |plaintext| != CHUNK_SIZE) || (last && encryptedRemaining != 0) {
        return Err(InvalidVaultBlob);
      }
      if plaintextTotal + |plaintext| > MAX_ASSET_BYTES {
        return Err(InvalidVaultBlob);
      }
      plaintextTotal := plaintextTotal + |plaintext|;
      yielded := yielded + plaintext;
      if last {
        finished := true;
      } else {
        index := index + 1;
      }
      r := Ok(plaintext);
    }

    /** `Iterator::next`: after an error or the last chunk there is no more. */
    method Next() returns (item: Option<Result<seq<Byte>, Error>>)
      requires Valid()
      modifies this
      ensures Valid()
      ensures old(finished) ==> item.None? && unchanged(this)
      ensures !old(finished) ==> item.Some?
      ensures item.Some? && item.value.Ok? ==> !failed && yielded == old(yielded) + item.value.value
      ensures item.Some? && item.value.Err? ==> finished && failed && yielded == old(yielded)
      ensures finished || index == old(index) + 1
    {
      hide Seals, Records, Header, BlobBytes, Chunk, ChunkCount;
      if finished {
        return None;
      }
      var r := ReadChunk();
      if r.Err? {
        finished, failed := true, true;
      }
      item := Some(r);
    }

    /** All chunks, up to the first error. */
    method ReadAll() returns (out: seq<Byte>, error: Option<Error>)
      requires Valid() && !finished && yielded == []
      modifies this
      ensures Valid() && finished && out == yielded && failed == error.Some?
      ensures out <= plain && (error.None? ==> out == plain)
      ensures error.None? <==> Intact()
    {
      hide Written, Records, Header, BlobBytes, ChunkCount;
      out, error := [], None;
      while !finished
        invariant Valid() && out == yielded && failed == error.Some?
        decreases !finished, |ciphertexts| - index
      {
        var item := Next();
        match item.value
        case Ok(chunk) => out := out + chunk;
        case Err(e) => error := Some(e);
      }
      if error.None? {
        AcceptedIsIntact();
      }
    }

    lemma AcceptedIsIntact()
      requires Valid() && finished && !failed
      ensures Intact()
    {
      assert file[..|file|] == file;
    }
  }

  /** `blob_reader` and `read_blob`: the whole plaintext, and exactly from the file that was written. */
  method Decrypt(file: seq<Byte>, blob: seq<Byte>, key: FileKey, ghost prefix: seq<Byte>, ghost plain: seq<Byte>,
                 ghost ciphertexts: seq<seq<Byte>>) returns (r: Result<seq<Byte>, Error>)
    requires |prefix| == NONCE_PREFIX_LEN && |plain| <= MAX_ASSET_BYTES
    requires Seals(key.sealed, blob, prefix, plain, ciphertexts, ChunkCount(|plain|))
    ensures r.Ok? <==> file == BlobBytes(prefix, ciphertexts)
    ensures r.Ok? ==> r.value == plain
  {
    WrittenPasses(key.sealed, blob, prefix, plain, ciphertexts);
    if |file| < BLOB_HEADER_LEN + 5 + TAG_LEN || |file| > MAX_ENCRYPTED_BLOB_BYTES {
      return Err(InvalidVaultBlob);
    }
    if file[..5] != MAGIC || Number(file[21..25]) != CHUNK_SIZE {
      return Err(InvalidVaultBlob);
    }
    var reader := new VaultBlobReader(file, blob, key, prefix, plain, ciphertexts);
    hide Seals, BlobBytes;
    var out, error := reader.ReadAll();
    r := if error.Some? then Err(error.value) else Ok(out);
  }
}
