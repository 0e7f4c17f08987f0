/** Producing the encrypted stream: whole, from any byte offset, and in the browser. */
module E2EEncrypt {
  import opened Basics
  import opened ByteReaders
  import opened E2EFormat

  datatype StreamError = NegativeOffset | MetadataTooLarge | StreamTooShort

  // ----- chunk boundaries -----

  /** Dropping `i` sealed chunks leaves the chunks of the plaintext without its first `i` slices. */
  lemma {:induction false} ChunksFrom(a: Aead, prefix: Prefix, plain: bytes, counter: uint32, i: nat)
    requires Sized(a)
    requires i == 0 || i * CHUNK_SIZE < |plain|
    ensures i * CHUNK_CIPHER_SIZE <= |Chunks(a, prefix, plain, counter)|
    ensures Chunks(a, prefix, plain, counter)[i * CHUNK_CIPHER_SIZE..]
         == Chunks(a, prefix, plain[i * CHUNK_SIZE..], (counter + i) % UINT32)
    decreases i
  {
    var all := Chunks(a, prefix, plain, counter);
    if i == 0 {
      assert plain[0..] == plain && all[0..] == all;
    } else {
      var first := a.seal(Nonce(prefix, counter, false), plain[..CHUNK_SIZE]);
      var tail := plain[CHUNK_SIZE..];
      ChunksMore(a, prefix, plain, counter);
      ChunksFrom(a, prefix, tail, Next(counter), i - 1);
      CounterStep(counter, i);
      DropPrefix(first, Chunks(a, prefix, tail, Next(counter)), i * CHUNK_CIPHER_SIZE);
      assert tail[(i - 1) * CHUNK_SIZE..] == plain[i * CHUNK_SIZE..];
    }
  }

  // ----- the chunk loop -----

  /** The goroutine body of `chunks`: header first, then every chunk from `counter` on. */
  method WriteChunks(a: Aead, prefix: Prefix, src: ByteReader, header: bytes, counter: uint32) returns (out: bytes)
    modifies src
    ensures out == header + Chunks(a, prefix, old(src.Rest()), counter)
  {
    ghost var whole := header + Chunks(a, prefix, src.Rest(), counter);
    out := header;
    var buf := new byte[CHUNK_SIZE];
    var c := counter;
    var final := false;
    while !final
      invariant whole == if final then out else out + Chunks(a, prefix, src.Rest(), c)
      decreases !final, |src.Rest()|
    {
      ghost var rest := src.Rest();
      var n, status := src.ReadFull(buf);
      if status != Full {
        final := true;
      } else {
        final := src.AtEnd();
      }
      ChunksStep(a, prefix, rest, c, n, final);
      out := out + a.seal(Nonce(prefix, c, final), buf[..n]);
      c := Next(c);
    }
  }

  method Reader(s: Stream, src: ByteReader) returns (r: Result<bytes, StreamError>)
    modifies src
    ensures r == if s.HeaderFits() then Ok(s.Ciphertext(old(src.Rest()))) else Err(MetadataTooLarge)
  {
    if !s.HeaderFits() {
      return Err(MetadataTooLarge);
    }
    var out := WriteChunks(s.aead, s.prefix, src, s.Header(), 1);
    r := Ok(out);
  }

  // ----- restarting at a byte offset -----

  function Discard(b: bytes, n: nat): Result<bytes, StreamError> {
    if n <= |b| then Ok(b[n..]) else Err(StreamTooShort)
  }

  /** Which chunk an offset at or past the header falls in. */
  function ChunkIndex(s: Stream, offset: nat): nat
    requires s.HeaderFits() && |s.Header()| <= offset
  {
    (offset - |s.Header()|) / CHUNK_CIPHER_SIZE
  }

  /** The first counter of a restart: the 32-bit arithmetic of the source. */
  function ResumeCounter(index: nat): uint32 {
    Next(index % UINT32)
  }

  function StreamFrom(s: Stream, plain: bytes, offset: int): Result<bytes, StreamError> {
    if offset < 0 then Err(NegativeOffset)
    else if !s.HeaderFits() then Err(MetadataTooLarge)
    else if offset < |s.Header()| then Discard(s.Ciphertext(plain), offset)
    else
      var index := ChunkIndex(s, offset);
      Discard(Chunks(s.aead, s.prefix, From(plain, index * CHUNK_SIZE), ResumeCounter(index)),
              offset - |s.Header()| - index * CHUNK_CIPHER_SIZE)
  }

  method ReaderFrom(s: Stream, src: ByteReader, offset: int) returns (r: Result<bytes, StreamError>)
    requires Sized(s.aead)
    modifies src
    ensures r == StreamFrom(s, src.data, offset)
    ensures s.HeaderFits() && 0 <= offset < |s.Ciphertext(src.data)| ==> r == Ok(s.Ciphertext(src.data)[offset..])
  {
    ExactInside(s, src.data, offset);
    if offset < 0 {
      return Err(NegativeOffset);
    }
    if !s.HeaderFits() {
      return Err(MetadataTooLarge);
    }
    var header := s.Header();
    var counter: uint32, plainOffset, skip := 1, 0, offset;
    if offset >= |header| {
      var index := (offset - |header|) / CHUNK_CIPHER_SIZE;
      counter := Next(index % UINT32);
      plainOffset := index * CHUNK_SIZE;
      skip := offset - |header| - index * CHUNK_CIPHER_SIZE;
      header := [];
    }
    src.Seek(plainOffset);
    StreamFromIs(s, src.data, offset, header, counter, plainOffset, skip);
    var out := WriteChunks(s.aead, s.prefix, src, header, counter);
    if skip > 0 {
      if skip > |out| {
        return Err(StreamTooShort);
      }
      out := out[skip..];
    }
    r := Ok(out);
  }

  lemma ExactInside(s: Stream, plain: bytes, offset: int)
    requires Sized(s.aead)
    ensures s.HeaderFits() && 0 <= offset < |s.Ciphertext(plain)| ==> StreamFrom(s, plain, offset) == Ok(s.Ciphertext(plain)[offset..])
  {
    if s.HeaderFits() && 0 <= offset < |s.Ciphertext(plain)| {
      StreamFromIsSuffix(s, plain, offset);
    }
  }

  /** The restart in the terms of its variables: what is written, and how much of it is discarded. */
  lemma StreamFromIs(s: Stream, plain: bytes, offset: nat, header: bytes, counter: uint32, plainOffset: nat, skip: nat)
    requires s.HeaderFits()
    requires if offset < |s.Header()| then header == s.Header() && counter == 1 && plainOffset == 0 && skip == offset
      else header == [] && counter == ResumeCounter(ChunkIndex(s, offset)) && plainOffset == ChunkIndex(s, offset) * CHUNK_SIZE
           && skip == offset - |s.Header()| - ChunkIndex(s, offset) * CHUNK_CIPHER_SIZE
    ensures var out := header + Chunks(s.aead, s.prefix, From(plain, plainOffset), counter);
      StreamFrom(s, plain, offset) == Discard(out, skip) && (skip == 0 ==> Discard(out, skip) == Ok(out))
  {
    var out := header + Chunks(s.aead, s.prefix, From(plain, plainOffset), counter);
    assert out[0..] == out && From(plain, 0) == plain;
    assert header == [] ==> out == Chunks(s.aead, s.prefix, From(plain, plainOffset), counter);
  }

  lemma ResumeCounterIsShifted(index: nat)
    ensures ResumeCounter(index) == (1 + index) % UINT32
  {
  }

  /** Restarting at any offset inside the ciphertext continues the same ciphertext. */
  lemma StreamFromIsSuffix(s: Stream, plain: bytes, offset: nat)
    requires Sized(s.aead) && s.HeaderFits() && offset < |s.Ciphertext(plain)|
    ensures StreamFrom(s, plain, offset) == Ok(s.Ciphertext(plain)[offset..])
  {
    var header := s.Header();
    if offset >= |header| {
      var payload := Chunks(s.aead, s.prefix, plain, 1);
      var index := ChunkIndex(s, offset);
      var skip := offset - |header| - index * CHUNK_CIPHER_SIZE;
      OffsetLandsInAChunk(s, plain, index, skip);
      ChunksFrom(s.aead, s.prefix, plain, 1, index);
      ResumeCounterIsShifted(index);
      DropPrefix(header, payload, offset);
      assert payload[index * CHUNK_CIPHER_SIZE..][skip..] == payload[offset - |header|..];
    }
  }

  lemma OffsetLandsInAChunk(s: Stream, plain: bytes, index: nat, skip: nat)
    requires Sized(s.aead)
    requires index * CHUNK_CIPHER_SIZE + skip < |Chunks(s.aead, s.prefix, plain, 1)|
    ensures index == 0 || index * CHUNK_SIZE < |plain|
  {
    ChunksLength(s.aead, s.prefix, plain, 1);
    if index > 0 && |plain| <= index * CHUNK_SIZE {
      ChunkCountBound(|plain|, index);
    }
  }

  lemma ChunkCountBound(n: nat, k: nat)
    requires k > 0 && n <= k * CHUNK_SIZE
    ensures ChunkCount(n) <= k
  {
  }

  /**
   Where the restart differs from the ciphertext: exactly at its end, when the
   plaintext is a non-zero whole number of chunks. An extra chunk comes out.
   */
  predicate ExtraChunkAt(s: Stream, plain: bytes, offset: nat)
    requires s.HeaderFits()
  {
    offset == |s.Ciphertext(plain)| && |plain| > 0 && |plain| % CHUNK_SIZE == 0
  }

  lemma RestartIsExactIff(s: Stream, plain: bytes, offset: nat)
    requires Sized(s.aead) && s.HeaderFits() && offset <= |s.Ciphertext(plain)|
    ensures StreamFrom(s, plain, offset) == Ok(s.Ciphertext(plain)[offset..]) <==> !ExtraChunkAt(s, plain, offset)
    ensures ExtraChunkAt(s, plain, offset) ==>
      StreamFrom(s, plain, offset)
      == Ok(s.aead.seal(Nonce(s.prefix, ResumeCounter(|plain| / CHUNK_SIZE), true), []))
  {
    if offset < |s.Ciphertext(plain)| {
      StreamFromIsSuffix(s, plain, offset);
    } else {
      RestartAtEnd(s, plain);
      assert s.Ciphertext(plain)[offset..] == [];
    }
  }

  lemma RestartAtEnd(s: Stream, plain: bytes)
    requires Sized(s.aead) && s.HeaderFits()
    ensures var end := |s.Ciphertext(plain)|;
      StreamFrom(s, plain, end) ==
      if |plain| > 0 && |plain| % CHUNK_SIZE == 0
      then Ok(s.aead.seal(Nonce(s.prefix, ResumeCounter(|plain| / CHUNK_SIZE), true), []))
      else Ok([])
  {
    var end, header := |s.Ciphertext(plain)|, s.Header();
    var index, rest := |plain| / CHUNK_SIZE, |plain| % CHUNK_SIZE;
    EncryptedSizesAgree(s, plain);
    var counter := ResumeCounter(index);
    if |plain| > 0 && rest == 0 {
      assert end - |header| == index * CHUNK_CIPHER_SIZE;
      assert ChunkIndex(s, end) == index;
      assert From(plain, index * CHUNK_SIZE) == [];
      ChunksLast(s.aead, s.prefix, [], counter);
    } else {
      assert end - |header| == index * CHUNK_CIPHER_SIZE + rest + TAG_SIZE;
      assert ChunkIndex(s, end) == index;
      var tail := From(plain, index * CHUNK_SIZE);
      assert |tail| == rest;
      ChunksLast(s.aead, s.prefix, tail, counter);
      assert |Chunks(s.aead, s.prefix, tail, counter)| == rest + TAG_SIZE;
    }
  }

  /** At and past the end there is one chunk to seal at most: what is left of the plaintext, or nothing. */
  lemma OneChunkLeft(s: Stream, plain: bytes, offset: nat)
    requires Sized(s.aead) && s.HeaderFits() && offset >= |s.Ciphertext(plain)|
    ensures offset >= |s.Header()| && |From(plain, ChunkIndex(s, offset) * CHUNK_SIZE)| <= CHUNK_SIZE
  {
    ChunksLength(s.aead, s.prefix, plain, 1);
    var index := ChunkIndex(s, offset);
    assert index + 1 >= ChunkCount(|plain|);
  }

  /** The restart past the end: an error, but for the offsets that fall into that one chunk. */
  lemma RestartPastTheEnd(s: Stream, plain: bytes, offset: nat)
    requires Sized(s.aead) && s.HeaderFits() && offset >= |s.Ciphertext(plain)|
    ensures var left := From(plain, ChunkIndex(s, offset) * CHUNK_SIZE);
      var skip := (offset - |s.Header()|) % CHUNK_CIPHER_SIZE;
      StreamFrom(s, plain, offset) ==
      if skip <= |left| + TAG_SIZE
      then Ok(s.aead.seal(Nonce(s.prefix, ResumeCounter(ChunkIndex(s, offset)), true), left)[skip..])
      else Err(StreamTooShort)
  {
    OneChunkLeft(s, plain, offset);
    var index := ChunkIndex(s, offset);
    ChunksLast(s.aead, s.prefix, From(plain, index * CHUNK_SIZE), ResumeCounter(index));
  }

  /** The errors that come before any byte, and what the header has room for. */
  lemma RestartErrors(s: Stream, plain: bytes, offset: int)
    requires Sized(s.aead)
    ensures StreamFrom(s, plain, offset) == Err(NegativeOffset) <==> offset < 0
    ensures StreamFrom(s, plain, offset) == Err(MetadataTooLarge) <==> offset >= 0 && |s.meta| + 16 > 65535
    ensures s.HeaderFits() <==> |s.meta| + 16 <= 65535
  {
  }

  /** A plaintext of exactly one chunk, restarted at its ciphertext's length, yields a chunk that is not there. */
  lemma ExtraChunkHappens(s: Stream)
    requires Sized(s.aead) && s.HeaderFits()
    ensures var plain := seq(65536, _ => 0);
      var end := |s.Ciphertext(plain)|;
      && ExtraChunkAt(s, plain, end)
      && StreamFrom(s, plain, end) == Ok(s.aead.seal(Nonce(s.prefix, 2, true), []))
      && StreamFrom(s, plain, end) != Ok(s.Ciphertext(plain)[end..])
  {
    var plain := seq(65536, _ => 0);
    RestartIsExactIff(s, plain, |s.Ciphertext(plain)|);
    assert ResumeCounter(1) == 2;
  }

  // ----- nonces over any set of restarts -----

  /** The chunk a restart begins with. */
  function FirstChunk(s: Stream, offset: nat): nat
    requires s.HeaderFits()
  {
    if offset < |s.Header()| then 0 else ChunkIndex(s, offset)
  }

  /** Everything one ReaderFrom call seals: the metadata again, then its chunks. */
  function RestartLog(s: Stream, plain: bytes, offset: nat): seq<Message>
    requires s.HeaderFits()
  {
    var index := FirstChunk(s, offset);
    [s.MetaMessage()] + Messages(s.prefix, From(plain, index * CHUNK_SIZE), ResumeCounter(index))
  }

  /** And what it hands out is made of exactly those: the header and the chunks sealed, less the bytes in front. */
  lemma RestartHandsOutItsLog(s: Stream, plain: bytes, offset: nat)
    requires s.HeaderFits()
    ensures var sealed := SealAll(s.aead, RestartLog(s, plain, offset)[1..]);
      RestartLog(s, plain, offset)[0] == s.MetaMessage()
      && StreamFrom(s, plain, offset) ==
         if offset < |s.Header()| then Discard(s.Header() + sealed, offset)
         else Discard(sealed, (offset - |s.Header()|) % CHUNK_CIPHER_SIZE)
  {
    assert RestartLog(s, plain, offset)[1..]
        == Messages(s.prefix, From(plain, FirstChunk(s, offset) * CHUNK_SIZE), ResumeCounter(FirstChunk(s, offset)));
  }

  /** Payload message number `k`, wherever the restart that seals it began. */
  function ChunkNumber(s: Stream, plain: bytes, k: uint32): Message
    requires k > 0
  {
    Message(Nonce(s.prefix, k, |plain| <= k * CHUNK_SIZE),
            plain[Min((k - 1) * CHUNK_SIZE, |plain|) .. Min(k * CHUNK_SIZE, |plain|)])
  }

  lemma SliceOfTail(plain: bytes, start: nat, from: nat, to: nat)
    requires from <= to && from <= |From(plain, start)|
    ensures From(plain, start)[from .. Min(to, |From(plain, start)|)]
         == plain[Min(start + from, |plain|) .. Min(start + to, |plain|)]
    ensures |From(plain, start)| <= to <==> |plain| <= start + to
  {
    var tail := From(plain, start);
    if start <= |plain| {
      assert tail[from .. Min(to, |tail|)] == plain[start + from .. Min(start + to, |plain|)];
    }
  }

  /** The `i`-th message after restarting at chunk `index` is payload message `index + 1 + i`. */
  lemma ShiftedMessage(s: Stream, plain: bytes, index: nat, i: nat)
    requires index + 1 + i < UINT32 && i * CHUNK_SIZE <= |From(plain, index * CHUNK_SIZE)|
    ensures NthMessage(s.prefix, From(plain, index * CHUNK_SIZE), index + 1, i) == ChunkNumber(s, plain, index + 1 + i)
  {
    SliceOfTail(plain, index * CHUNK_SIZE, i * CHUNK_SIZE, (i + 1) * CHUNK_SIZE);
    var k := index + 1 + i;
    assert index * CHUNK_SIZE + i * CHUNK_SIZE == (k - 1) * CHUNK_SIZE;
    assert index * CHUNK_SIZE + (i + 1) * CHUNK_SIZE == k * CHUNK_SIZE;
    assert (index + 1 + i) % UINT32 == k;
  }

  lemma RestartCount(plain: bytes, index: nat)
    requires index + 1 < UINT32 && ChunkCount(|plain|) < UINT32
    ensures index + ChunkCount(|From(plain, index * CHUNK_SIZE)|) < UINT32
  {
  }

  lemma RestartMessage(s: Stream, plain: bytes, index: nat, tail: bytes, i: nat)
    requires index + 1 < UINT32 && ChunkCount(|plain|) < UINT32 && tail == From(plain, index * CHUNK_SIZE)
    requires i < |Messages(s.prefix, tail, index + 1)|
    ensures index + 1 + i < UINT32
    ensures Messages(s.prefix, tail, index + 1)[i] == ChunkNumber(s, plain, index + 1 + i)
  {
    MessageCount(s.prefix, tail, index + 1);
    RestartCount(plain, index);
    MessageAt(s.prefix, tail, index + 1, i);
    ShiftedMessage(s, plain, index, i);
  }

  lemma RestartLogMember(s: Stream, plain: bytes, offset: nat, m: Message) returns (k: uint32)
    requires s.HeaderFits() && ChunkCount(|plain|) < UINT32 && FirstChunk(s, offset) + 1 < UINT32
    requires m in RestartLog(s, plain, offset)
    ensures m == if k == 0 then s.MetaMessage() else ChunkNumber(s, plain, k)
  {
    var index := FirstChunk(s, offset);
    if m == s.MetaMessage() {
      k := 0;
    } else {
      k := PayloadMember(s, plain, index, m);
    }
  }

  lemma PayloadMember(s: Stream, plain: bytes, index: nat, m: Message) returns (k: uint32)
    requires index + 1 < UINT32 && ChunkCount(|plain|) < UINT32
    requires m in Messages(s.prefix, From(plain, index * CHUNK_SIZE), index + 1)
    ensures k > 0 && m == ChunkNumber(s, plain, k)
  {
    var tail := From(plain, index * CHUNK_SIZE);
    var payload := Messages(s.prefix, tail, index + 1);
    var i :| 0 <= i < |payload| && payload[i] == m;
    RestartMessage(s, plain, index, tail, i);
    k := index + 1 + i;
  }

  /**
   Over any restarts of one stream at any offsets, even past the end, a nonce is
   only ever paired with one plaintext chunk and one final marker.
   */
  lemma NoncePairing(s: Stream, plain: bytes, offset: nat, offset': nat, m: Message, m': Message)
    requires s.HeaderFits() && ChunkCount(|plain|) < UINT32
    requires FirstChunk(s, offset) + 1 < UINT32 && FirstChunk(s, offset') + 1 < UINT32
    requires m in RestartLog(s, plain, offset) && m' in RestartLog(s, plain, offset')
    requires m.nonce.Bytes() == m'.nonce.Bytes()
    ensures m == m'
  {
    var k := RestartLogMember(s, plain, offset, m);
    var k' := RestartLogMember(s, plain, offset', m');
    NonceBytesInjective(m.nonce, m'.nonce);
  }

  // ----- the browser's encryption -----

  /** `encrypt` in the browser: the chunk count is known before the loop. */
  method BrowserEncrypt(s: Stream, data: bytes) returns (r: Result<bytes, StreamError>)
    requires Sized(s.aead)
    ensures r == if s.HeaderFits() then Ok(s.Ciphertext(data)) else Err(MetadataTooLarge)
  {
    var sealedMeta := s.aead.seal(Nonce(s.prefix, 0, false), s.meta);
    if |sealedMeta| > 0xffff {
      return Err(MetadataTooLarge);
    }
    var parts := MAGIC + s.prefix + BigEndian16(|sealedMeta|) + sealedMeta;
    var chunkCount := Max(1, (|data| + CHUNK_SIZE - 1) / CHUNK_SIZE);
    var i := 0;
    HeaderIsFirst(s, data);
    while i < chunkCount
      invariant 0 <= i <= chunkCount
      invariant SealedSoFar(s, data, i, parts)
    {
      var start := i * CHUNK_SIZE;
      var slice := data[start .. Min(start + CHUNK_SIZE, |data|)];
      var final := i == chunkCount - 1;
      SealsOneMore(s, data, i, parts);
      parts := parts + s.aead.seal(Nonce(s.prefix, (i + 1) % UINT32, final), slice);
      i := i + 1;
    }
    r := Ok(parts);
  }

  /** The parts and what is left to seal add up to the ciphertext. */
  predicate SealedSoFar(s: Stream, data: bytes, i: nat, parts: bytes)
    requires s.HeaderFits() && i <= ChunkCount(|data|)
  {
    s.Ciphertext(data) ==
    if i == ChunkCount(|data|) then parts else parts + Chunks(s.aead, s.prefix, From(data, i * CHUNK_SIZE), (1 + i) % UINT32)
  }

  lemma HeaderIsFirst(s: Stream, data: bytes)
    requires s.HeaderFits()
    ensures SealedSoFar(s, data, 0, s.Header())
  {
    assert From(data, 0) == data;
  }

  lemma SealsOneMore(s: Stream, data: bytes, i: nat, parts: bytes)
    requires s.HeaderFits() && i < ChunkCount(|data|) && SealedSoFar(s, data, i, parts)
    ensures i * CHUNK_SIZE <= |data|
    ensures var slice := data[i * CHUNK_SIZE .. Min(i * CHUNK_SIZE + CHUNK_SIZE, |data|)];
      SealedSoFar(s, data, i + 1, parts + s.aead.seal(Nonce(s.prefix, (i + 1) % UINT32, i == ChunkCount(|data|) - 1), slice))
  {
    BrowserLast(|data|, i);
    BrowserSeals(s, data, i, i == ChunkCount(|data|) - 1);
  }

  /** The last chunk is the one that reaches the end, and every one but the first has bytes. */
  lemma BrowserLast(n: nat, i: nat)
    requires i < ChunkCount(n)
    ensures i == ChunkCount(n) - 1 <==> n <= (i + 1) * CHUNK_SIZE
    ensures i > 0 ==> i * CHUNK_SIZE < n
  {
  }

  /** One turn of the browser's loop seals one chunk of what is left. */
  lemma BrowserSeals(s: Stream, data: bytes, i: nat, final: bool)
    requires i == 0 || i * CHUNK_SIZE < |data|
    requires final == (|data| <= (i + 1) * CHUNK_SIZE)
    ensures Chunks(s.aead, s.prefix, data[i * CHUNK_SIZE..], (1 + i) % UINT32)
         == s.aead.seal(Nonce(s.prefix, (i + 1) % UINT32, final), data[i * CHUNK_SIZE .. Min((i + 1) * CHUNK_SIZE, |data|)])
          + (if final then [] else Chunks(s.aead, s.prefix, data[(i + 1) * CHUNK_SIZE..], (1 + (i + 1)) % UINT32))
  {
    var rest, slice := data[i * CHUNK_SIZE..], data[i * CHUNK_SIZE .. Min((i + 1) * CHUNK_SIZE, |data|)];
    assert rest[..|slice|] == slice && (!final ==> rest[|slice|..] == data[(i + 1) * CHUNK_SIZE..]);
    ChunksStep(s.aead, s.prefix, rest, (1 + i) % UINT32, |slice|, final);
    CounterAdvances(i);
  }
}
