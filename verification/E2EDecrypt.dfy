/** Decrypting the stream: by lookahead in Go, by division of the length in the browser. */
module E2EDecrypt {
  import opened Basics
  import opened ByteReaders
  import opened E2EFormat

  // ----- what a ciphertext means -----

  /** The bytes released, and whether the stream ended cleanly or in ErrWrongKey. */
  datatype Outcome = Outcome(plain: bytes, clean: bool)

  datatype DecryptError = NotEncrypted | NewerFormat | WrongKey

  datatype Opened = Opened(meta: bytes, body: Outcome)

  function Release(p: bytes, later: Outcome): Outcome {
    Outcome(p + later.plain, later.clean)
  }

  /** Chunk after chunk; the last one is the one nothing follows. */
  function OpenChunks(a: Aead, prefix: Prefix, c: bytes, counter: uint32): Outcome
    decreases |c|
  {
    if c == [] then Outcome([], false)
    else if |c| <= CHUNK_CIPHER_SIZE then
      match a.open(Nonce(prefix, counter, true), c)
      case None => Outcome([], false)
      case Some(p) => Outcome(p, true)
    else
      match a.open(Nonce(prefix, counter, false), c[..CHUNK_CIPHER_SIZE])
      case None => Outcome([], false)
      case Some(p) => Release(p, OpenChunks(a, prefix, c[CHUNK_CIPHER_SIZE..], Next(counter)))
  }

  lemma ReleaseMore(p: bytes, q: bytes, o: Outcome)
    ensures Release(p, Release(q, o)) == Release(p + q, o)
  {
    assert p + (q + o.plain) == (p + q) + o.plain;
  }

  /** One step of decryption, in the terms both decrypters use: a size and a marker. */
  lemma OpenStep(a: Aead, prefix: Prefix, c: bytes, counter: uint32, size: nat, final: bool)
    requires 0 < size <= |c| && size == Min(CHUNK_CIPHER_SIZE, |c|) && final == (|c| <= CHUNK_CIPHER_SIZE)
    ensures OpenChunks(a, prefix, c, counter) ==
      match a.open(Nonce(prefix, counter, final), c[..size])
      case None => Outcome([], false)
      case Some(p) =>
        if final then Outcome(p, true)
        else Release(p, OpenChunks(a, prefix, c[size..], Next(counter)))
  {
    if final {
      assert c[..size] == c;
    }
  }

  function HeaderPrefix(c: bytes): Prefix
    requires |c| >= HEADER_SIZE
  {
    c[4..11]
  }

  function HeaderMetaLen(c: bytes): nat
    requires |c| >= HEADER_SIZE
  {
    ReadBigEndian16(c[11..13])
  }

  /** Decryption of a whole ciphertext; `parses` says which bytes are metadata JSON. */
  function Decrypt(a: Aead, parses: bytes -> bool, c: bytes): Result<Opened, DecryptError> {
    if |c| < HEADER_SIZE then Err(NotEncrypted)
    else if c[..4] != MAGIC then Err(NewerFormat)
    else
      var metaEnd := HEADER_SIZE + HeaderMetaLen(c);
      if |c| < metaEnd then Err(WrongKey)
      else
        match a.open(Nonce(HeaderPrefix(c), 0, false), c[HEADER_SIZE..metaEnd])
        case None => Err(WrongKey)
        case Some(meta) =>
          if !parses(meta) then Err(WrongKey)
          else Ok(Opened(meta, OpenChunks(a, HeaderPrefix(c), c[metaEnd..], 1)))
  }

  /** The metadata is all there, opens under the key, and is metadata. */
  predicate MetadataOpens(a: Aead, parses: bytes -> bool, c: bytes)
    requires |c| >= 13
  {
    var end := 13 + c[11] as nat * 256 + c[12] as nat;
    end <= |c| && var meta := a.open(Nonce(c[4..11], 0, false), c[13..end]); meta.Some? && parses(meta.value)
  }

  /** Each error by its own condition: too short, another format, and everything that a wrong key can cause. */
  lemma ErrorsIff(a: Aead, parses: bytes -> bool, c: bytes)
    ensures var d := Decrypt(a, parses, c);
      var short, other := |c| < 13, |c| >= 13 && c[..4] != MAGIC;
      && (d == Err(NotEncrypted) <==> short)
      && (d == Err(NewerFormat) <==> other)
      && (d.Ok? <==> !short && !other && MetadataOpens(a, parses, c))
      && (d == Err(WrongKey) <==> !short && !other && !d.Ok?)
  {
    if |c| >= 13 {
      assert c[11..13] == [c[11], c[12]];
    }
  }

  // ----- the streaming reader -----

  datatype ReadError = Nil | EOF | Failed

  class E2EReader {
    const aead: Aead
    const prefix: Prefix
    const reader: ByteReader
    var counter: uint32
    var pending: bytes
    var done: bool
    var err: bool

    constructor (aead: Aead, prefix: Prefix, reader: ByteReader)
      ensures this.reader == reader && this.aead == aead && this.prefix == prefix
      ensures ToCome() == OpenChunks(aead, prefix, reader.Rest(), 1)
    {
      this.aead := aead;
      this.prefix := prefix;
      this.reader := reader;
      counter := 1;
      pending := [];
      done := false;
      err := false;
      new;
      assert Release([], OpenChunks(aead, prefix, reader.Rest(), 1)) == OpenChunks(aead, prefix, reader.Rest(), 1);
    }

    /** Everything this reader will still release, and how it will end. */
    ghost function ToCome(): Outcome
      reads this, reader
    {
      Release(pending, AfterPending())
    }

    ghost function AfterPending(): Outcome
      reads this, reader
    {
      if err then Outcome([], false)
      else if done then Outcome([], true)
      else OpenChunks(aead, prefix, reader.Rest(), counter)
    }

    /** Reads and opens one chunk; the caller has used up the previous one. */
    method NextChunk() returns (failed: bool)
      requires pending == [] && !err && !done
      modifies this, reader
      ensures err == old(err)
      ensures failed ==> old(ToCome()) == Outcome([], false) && pending == []
      ensures !failed ==> ToCome() == old(ToCome())
      ensures !failed ==> done || |reader.Rest()| < |old(reader.Rest())|
    {
      ghost var rest := reader.Rest();
      var buf := new byte[CHUNK_CIPHER_SIZE];
      var n, status := reader.ReadFull(buf);
      if status == EndOfFile {
        return true;
      }
      var final := true;
      if status == Full {
        final := reader.AtEnd();
      }
      OpenStep(aead, prefix, rest, counter, n, final);
      match aead.open(Nonce(prefix, counter, final), buf[..n])
      case None => return true;
      case Some(plain) =>
        counter := Next(counter);
        pending := plain;
        done := final;
        failed := false;
    }

    /** One Read call with a buffer of any size. */
    method Read(p: array<byte>) returns (n: nat, status: ReadError)
      modifies this, reader, p
      ensures status == Nil ==> n <= p.Length && old(ToCome()) == Release(p[..n], ToCome())
      ensures status == Nil && p.Length > 0 ==> n > 0
      ensures status != Nil ==> n == 0 && old(ToCome()) == ToCome() == Outcome([], status == EOF)
    {
      ghost var goal := ToCome();
      while |pending| == 0
        invariant ToCome() == goal
        decreases if err || done then 0 else 1 + |reader.Rest()|
      {
        if err {
          return 0, Failed;
        }
        if done {
          return 0, EOF;
        }
        var failed := NextChunk();
        if failed {
          err := true;
          return 0, Failed;
        }
      }
      n, status := Min(p.Length, |pending|), Nil;
      ReleaseMore(pending[..n], pending[n..], AfterPending());
      assert pending == pending[..n] + pending[n..];
      forall i | 0 <= i < n {
        p[i] := pending[i];
      }
      assert p[..n] == pending[..n];
      pending := pending[n..];
    }
  }

  /** Reading to the end, with any schedule of non-empty buffers. */
  method ReadAll(r: E2EReader, size: nat -> nat) returns (out: bytes, status: ReadError)
    requires forall i: nat :: size(i) > 0
    modifies r, r.reader
    ensures out == old(r.ToCome()).plain
    ensures status == if old(r.ToCome()).clean then EOF else Failed
  {
    ghost var goal := r.ToCome();
    out, status := [], Nil;
    var i: nat := 0;
    while status == Nil
      invariant goal == Release(out, r.ToCome())
      invariant status != Nil ==> r.ToCome() == Outcome([], status == EOF)
      decreases status == Nil, |r.ToCome().plain|
    {
      var buf := new byte[size(i)];
      var n: nat;
      n, status := r.Read(buf);
      if status == Nil {
        ReleaseMore(out, buf[..n], r.ToCome());
        out := out + buf[..n];
      }
      i := i + 1;
    }
  }

  /** E2EDecrypt: checks the header and the metadata, then hands out the reader. */
  method Open(a: Aead, parses: bytes -> bool, src: ByteReader)
    returns (meta: Result<bytes, DecryptError>, r: E2EReader?)
    modifies src
    ensures meta.Err? <==> r == null
    ensures match Decrypt(a, parses, old(src.Rest()))
            case Err(e) => meta == Err(e)
            case Ok(o) => meta == Ok(o.meta) && r != null && fresh(r) && r.reader == src && r.ToCome() == o.body
  {
    ghost var c := src.Rest();
    var header := new byte[HEADER_SIZE];
    r := null;
    var n, status := src.ReadFull(header);
    if status != Full {
      return Err(NotEncrypted), null;
    }
    assert header[..] == c[..HEADER_SIZE];
    assert header[..4] == c[..4] && header[4..11] == c[4..11] && header[11..13] == c[11..13];
    if header[..4] != MAGIC {
      return Err(NewerFormat), null;
    }
    var prefix: Prefix := header[4..11];
    var metaLen := ReadBigEndian16(header[11..13]);
    var metaBuf := new byte[metaLen];
    ghost var afterHeader := src.Rest();
    n, status := src.ReadFull(metaBuf);
    if status != Full {
      return Err(WrongKey), null;
    }
    assert metaBuf[..] == metaBuf[..n] == afterHeader[..metaLen] == c[HEADER_SIZE .. HEADER_SIZE + metaLen];
    assert src.Rest() == c[HEADER_SIZE + metaLen..];
    match a.open(Nonce(prefix, 0, false), metaBuf[..])
    case None => return Err(WrongKey), null;
    case Some(plain) =>
      if !parses(plain) {
        return Err(WrongKey), null;
      }
      r := new E2EReader(a, prefix, src);
      meta := Ok(plain);
  }

  // ----- decrypting undoes encrypting -----

  lemma {:induction false} OpenSealed(a: Aead, prefix: Prefix, plain: bytes, counter: uint32)
    requires Sized(a) && OpensLog(a, Messages(prefix, plain, counter))
    ensures OpenChunks(a, prefix, Chunks(a, prefix, plain, counter), counter) == Outcome(plain, true)
    decreases |plain|
  {
    var c, m := Chunks(a, prefix, plain, counter), Messages(prefix, plain, counter)[0];
    assert a.open(m.nonce, a.seal(m.nonce, m.plain)) == Some(m.plain);
    if |plain| <= CHUNK_SIZE {
      ChunksLast(a, prefix, plain, counter);
    } else {
      var first := a.seal(Nonce(prefix, counter, false), plain[..CHUNK_SIZE]);
      var tail := Chunks(a, prefix, plain[CHUNK_SIZE..], Next(counter));
      ChunksMore(a, prefix, plain, counter);
      ChunksLength(a, prefix, plain[CHUNK_SIZE..], Next(counter));
      assert c[..CHUNK_CIPHER_SIZE] == first && c[CHUNK_CIPHER_SIZE..] == tail;
      OpenSealed(a, prefix, plain[CHUNK_SIZE..], Next(counter));
      assert plain[..CHUNK_SIZE] + plain[CHUNK_SIZE..] == plain;
    }
  }

  lemma HeaderLayout(s: Stream, rest: bytes)
    requires s.HeaderFits()
    ensures var c := s.Header() + rest;
      && |c| >= HEADER_SIZE && c[..4] == MAGIC && HeaderPrefix(c) == s.prefix && HeaderMetaLen(c) == |s.SealedMeta()|
      && |c| == HEADER_SIZE + HeaderMetaLen(c) + |rest|
      && c[HEADER_SIZE .. HEADER_SIZE + HeaderMetaLen(c)] == s.SealedMeta()
      && c[HEADER_SIZE + HeaderMetaLen(c)..] == rest
  {
    var c, n := s.Header() + rest, |s.SealedMeta()|;
    assert c == MAGIC + s.prefix + BigEndian16(n) + s.SealedMeta() + rest;
    assert c[4..11] == s.prefix && c[11..13] == BigEndian16(n);
    assert ReadBigEndian16(BigEndian16(n)) == n;
  }

  /** Every plaintext of every length comes back, with its metadata. */
  lemma RoundTrip(s: Stream, plain: bytes, parses: bytes -> bool)
    requires Sized(s.aead) && OpensLog(s.aead, s.Log(plain)) && s.HeaderFits() && parses(s.meta)
    ensures Decrypt(s.aead, parses, s.Ciphertext(plain)) == Ok(Opened(s.meta, Outcome(plain, true)))
  {
    HeaderLayout(s, Chunks(s.aead, s.prefix, plain, 1));
    assert s.MetaMessage() in s.Log(plain);
    OpenSealed(s.aead, s.prefix, plain, 1);
  }

  // ----- authenticity -----

  /** Which of the sealed payload messages a nonce can open. */
  lemma LoggedMessage(s: Stream, plain: bytes, prefix: Prefix, counter: uint32, final: bool, p: bytes) returns (i: nat)
    requires ChunkCount(|plain|) < UINT32
    requires Message(Nonce(prefix, counter, final), p) in s.Log(plain)
    ensures prefix == s.prefix && i == counter && i <= ChunkCount(|plain|)
    ensures i == 0 ==> p == s.meta && !final
    ensures i > 0 ==>
      && (i - 1) * CHUNK_SIZE <= |plain|
      && final == (|plain| <= i * CHUNK_SIZE)
      && p == plain[(i - 1) * CHUNK_SIZE .. Min(i * CHUNK_SIZE, |plain|)]
  {
    var log := s.Log(plain);
    i :| 0 <= i < |log| && log[i] == Message(Nonce(prefix, counter, final), p);
    LogAt(s, plain, i);
    MessageCount(s.prefix, plain, 1);
  }

  /**
   Authenticity of the payload alone: the key may have sealed other metadata, but
   no other chunks.
   */
  ghost predicate IdealPayload(s: Stream, plain: bytes) {
    forall n: Nonce, c :: n.counter > 0 && s.aead.open(n, c).Some? ==>
      Message(n, s.aead.open(n, c).value) in s.Log(plain) && c == s.aead.seal(n, s.aead.open(n, c).value)
  }

  /** Under the log of one encryption, whatever opens is a logged message, unaltered. */
  lemma OpensOnlyLogged(s: Stream, plain: bytes, prefix: Prefix, counter: uint32, final: bool, c: bytes, p: bytes)
    requires Ideal(s.aead, s.Log(plain)) || (IdealPayload(s, plain) && counter > 0)
    requires ChunkCount(|plain|) < UINT32
    requires s.aead.open(Nonce(prefix, counter, final), c) == Some(p)
    ensures prefix == s.prefix && counter <= ChunkCount(|plain|)
    ensures c == s.aead.seal(Nonce(s.prefix, counter, final), p)
    ensures counter == 0 ==> p == s.meta && !final
    ensures counter > 0 ==> IsSlice(plain, counter - 1, final, p)
  {
    var i := LoggedMessage(s, plain, prefix, counter, final, p);
  }

  /** `p` is slice `k` of the plaintext, and `final` says whether it is the last. */
  predicate IsSlice(plain: bytes, k: nat, final: bool, p: bytes) {
    && k * CHUNK_SIZE <= |plain|
    && final == (|plain| <= (k + 1) * CHUNK_SIZE)
    && p == plain[k * CHUNK_SIZE .. Min((k + 1) * CHUNK_SIZE, |plain|)]
  }

  lemma LastSlice(a: Aead, prefix: Prefix, plain: bytes, k: nat, p: bytes, counter: uint32)
    requires IsSlice(plain, k, true, p)
    ensures p == plain[k * CHUNK_SIZE..]
    ensures Chunks(a, prefix, plain[k * CHUNK_SIZE..], counter) == a.seal(Nonce(prefix, counter, true), p)
  {
    assert p == plain[k * CHUNK_SIZE..];
    ChunksLast(a, prefix, p, counter);
  }

  lemma InnerSlice(a: Aead, prefix: Prefix, plain: bytes, k: nat, p: bytes, counter: uint32)
    requires IsSlice(plain, k, false, p)
    ensures k + 1 < ChunkCount(|plain|) && (k + 1) * CHUNK_SIZE < |plain|
    ensures plain[k * CHUNK_SIZE..] == p + plain[(k + 1) * CHUNK_SIZE..]
    ensures Chunks(a, prefix, plain[k * CHUNK_SIZE..], counter)
         == a.seal(Nonce(prefix, counter, false), p) + Chunks(a, prefix, plain[(k + 1) * CHUNK_SIZE..], Next(counter))
  {
    var rest := plain[k * CHUNK_SIZE..];
    AnotherChunk(|plain|, k);
    assert p == rest[..CHUNK_SIZE] && rest[CHUNK_SIZE..] == plain[(k + 1) * CHUNK_SIZE..];
    ChunksMore(a, prefix, rest, counter);
  }

  /** Released bytes are a prefix of `rest`; a clean end means the input was exactly `sealed`. */
  predicate Authentic(o: Outcome, rest: bytes, c: bytes, sealed: bytes) {
    && o.plain <= rest
    && (o.clean ==> o.plain == rest && c == sealed)
  }

  lemma AuthenticStep(o: Outcome, rest: bytes, c: bytes, sealed: bytes, p: bytes, first: bytes)
    requires Authentic(o, rest, c, sealed)
    ensures Authentic(Release(p, o), p + rest, first + c, first + sealed)
  {
    assert p + rest == p + (o.plain + rest[|o.plain|..]);
  }

  /** What the sealed stream still has to offer after `k` chunks. */
  function SealedFrom(s: Stream, plain: bytes, k: nat): bytes
    requires k + 1 < UINT32 && k * CHUNK_SIZE <= |plain|
  {
    Chunks(s.aead, s.prefix, plain[k * CHUNK_SIZE..], k + 1)
  }

  lemma FinalChunk(s: Stream, plain: bytes, c: bytes, k: nat, p: bytes)
    requires IdealPayload(s, plain) && ChunkCount(|plain|) < UINT32
    requires k < ChunkCount(|plain|) && k * CHUNK_SIZE <= |plain|
    requires s.aead.open(Nonce(s.prefix, k + 1, true), c) == Some(p)
    ensures p == plain[k * CHUNK_SIZE..] && c == SealedFrom(s, plain, k)
  {
    OpensOnlyLogged(s, plain, s.prefix, k + 1, true, c, p);
    LastSlice(s.aead, s.prefix, plain, k, p, k + 1);
  }

  lemma InnerChunk(s: Stream, plain: bytes, first: bytes, k: nat, p: bytes)
    requires IdealPayload(s, plain) && ChunkCount(|plain|) < UINT32
    requires k < ChunkCount(|plain|)
    requires s.aead.open(Nonce(s.prefix, k + 1, false), first) == Some(p)
    ensures k + 1 < ChunkCount(|plain|) && (k + 1) * CHUNK_SIZE < |plain|
    ensures plain[k * CHUNK_SIZE..] == p + plain[(k + 1) * CHUNK_SIZE..]
    ensures SealedFrom(s, plain, k) == first + SealedFrom(s, plain, k + 1)
  {
    OpensOnlyLogged(s, plain, s.prefix, k + 1, false, first, p);
    InnerSlice(s.aead, s.prefix, plain, k, p, k + 1);
  }

  /** What the induction below claims of the input `c` after `k` chunks. */
  predicate AuthenticFrom(s: Stream, plain: bytes, c: bytes, k: nat)
    requires k + 1 < UINT32 && k * CHUNK_SIZE <= |plain|
  {
    Authentic(OpenChunks(s.aead, s.prefix, c, k + 1), plain[k * CHUNK_SIZE..], c, SealedFrom(s, plain, k))
  }

  lemma OpenInner(s: Stream, c: bytes, k: nat, p: bytes)
    requires k + 2 < UINT32 && |c| > CHUNK_CIPHER_SIZE
    requires s.aead.open(Nonce(s.prefix, k + 1, false), c[..CHUNK_CIPHER_SIZE]) == Some(p)
    ensures OpenChunks(s.aead, s.prefix, c, k + 1)
         == Release(p, OpenChunks(s.aead, s.prefix, c[CHUNK_CIPHER_SIZE..], k + 2))
  {
    OpenStep(s.aead, s.prefix, c, k + 1, CHUNK_CIPHER_SIZE, false);
  }

  lemma AuthenticInner(s: Stream, plain: bytes, c: bytes, k: nat, p: bytes)
    requires IdealPayload(s, plain) && ChunkCount(|plain|) < UINT32
    requires k + 1 < ChunkCount(|plain|) && (k + 1) * CHUNK_SIZE <= |plain| && |c| > CHUNK_CIPHER_SIZE
    requires s.aead.open(Nonce(s.prefix, k + 1, false), c[..CHUNK_CIPHER_SIZE]) == Some(p)
    requires AuthenticFrom(s, plain, c[CHUNK_CIPHER_SIZE..], k + 1)
    ensures AuthenticFrom(s, plain, c, k)
  {
    var first, later := c[..CHUNK_CIPHER_SIZE], c[CHUNK_CIPHER_SIZE..];
    InnerChunk(s, plain, first, k, p);
    OpenInner(s, c, k, p);
    AuthenticStep(OpenChunks(s.aead, s.prefix, later, k + 2), plain[(k + 1) * CHUNK_SIZE..], later,
                  SealedFrom(s, plain, k + 1), p, first);
    assert c == first + later;
  }

  lemma AuthenticLast(s: Stream, plain: bytes, c: bytes, k: nat)
    requires IdealPayload(s, plain) && ChunkCount(|plain|) < UINT32
    requires k < ChunkCount(|plain|) && k * CHUNK_SIZE <= |plain| && |c| <= CHUNK_CIPHER_SIZE
    ensures AuthenticFrom(s, plain, c, k)
  {
    if c != [] {
      var chunk := s.aead.open(Nonce(s.prefix, k + 1, true), c);
      if chunk.Some? {
        FinalChunk(s, plain, c, k, chunk.value);
      }
    }
  }

  /**
   Under a key whose only sealed messages are one encryption, chunks `k + 1`
   on release a prefix of what is left of the plaintext, and end cleanly only
   on exactly the sealed chunks.
   */
  lemma {:induction false} OnlyTheSealedChunks(s: Stream, plain: bytes, c: bytes, k: nat)
    requires IdealPayload(s, plain) && ChunkCount(|plain|) < UINT32
    requires k < ChunkCount(|plain|) && k * CHUNK_SIZE <= |plain|
    ensures AuthenticFrom(s, plain, c, k)
    decreases |c|
  {
    if |c| <= CHUNK_CIPHER_SIZE {
      AuthenticLast(s, plain, c, k);
    } else {
      var first := c[..CHUNK_CIPHER_SIZE];
      OpenStep(s.aead, s.prefix, c, k + 1, CHUNK_CIPHER_SIZE, false);
      var chunk := s.aead.open(Nonce(s.prefix, k + 1, false), first);
      if chunk.Some? {
        InnerChunk(s, plain, first, k, chunk.value);
        OnlyTheSealedChunks(s, plain, c[CHUNK_CIPHER_SIZE..], k + 1);
        AuthenticInner(s, plain, c, k, chunk.value);
      }
    }
  }

  lemma AnotherChunk(n: nat, k: nat)
    requires n > (k + 1) * CHUNK_SIZE
    ensures k + 1 < ChunkCount(n)
  {
  }

  /**
   The strong claim: whatever bytes arrive, a clean end means they are exactly
   the ciphertext; anything else ends in an error, having released only a
   prefix of the plaintext.
   */
  lemma AcceptsOnlyWhatWasSealed(s: Stream, plain: bytes, parses: bytes -> bool, c: bytes)
    requires Ideal(s.aead, s.Log(plain)) && s.HeaderFits() && ChunkCount(|plain|) < UINT32
    ensures match Decrypt(s.aead, parses, c)
            case Err(_) => true
            case Ok(o) =>
              && o.meta == s.meta
              && o.body.plain <= plain
              && (o.body.clean ==> o.body.plain == plain && c == s.Ciphertext(plain))
  {
    var d := Decrypt(s.aead, parses, c);
    if d.Ok? {
      var prefix, metaEnd := HeaderPrefix(c), HEADER_SIZE + HeaderMetaLen(c);
      var sealed, rest := c[HEADER_SIZE..metaEnd], c[metaEnd..];
      OpensOnlyLogged(s, plain, prefix, 0, false, sealed, d.value.meta);
      assert plain[0..] == plain;
      OnlyTheSealedChunks(s, plain, rest, 0);
      BigEndian16RoundTrip(c[11..13]);
      assert c == c[..4] + c[4..11] + c[11..13] + sealed + rest;
      assert c == s.Header() + rest;
    }
  }

  /**
   Both halves for one cipher: the input ends cleanly if and only if it is the
   ciphertext, and then it gives back the metadata and the plaintext.
   */
  lemma DecryptsCleanlyIff(s: Stream, plain: bytes, parses: bytes -> bool, c: bytes)
    requires Sized(s.aead) && OpensLog(s.aead, s.Log(plain)) && Ideal(s.aead, s.Log(plain))
    requires s.HeaderFits() && parses(s.meta) && ChunkCount(|plain|) < UINT32
    ensures var d := Decrypt(s.aead, parses, c);
      && (d.Ok? && d.value.body.clean <==> c == s.Ciphertext(plain))
      && (c == s.Ciphertext(plain) ==> d == Ok(Opened(s.meta, Outcome(plain, true))))
  {
    AcceptsOnlyWhatWasSealed(s, plain, parses, c);
    RoundTrip(s, plain, parses);
  }

  /** Behind the header of the stream, whatever else the key has sealed metadata for: clean exactly on the sealed chunks. */
  lemma CleanBehindHeaderIff(s: Stream, plain: bytes, parses: bytes -> bool, rest: bytes)
    requires Sized(s.aead) && OpensLog(s.aead, s.Log(plain)) && IdealPayload(s, plain)
    requires s.HeaderFits() && parses(s.meta) && ChunkCount(|plain|) < UINT32
    ensures var d := Decrypt(s.aead, parses, s.Header() + rest);
      d.Ok? && (d.value.body.clean <==> rest == Chunks(s.aead, s.prefix, plain, 1))
  {
    HeaderLayout(s, rest);
    assert s.MetaMessage() in s.Log(plain);
    assert plain[0..] == plain;
    OnlyTheSealedChunks(s, plain, rest, 0);
    OpenSealed(s.aead, s.prefix, plain, 1);
  }

  // ----- the browser -----

  /** `decrypt` in the browser: the chunk layout comes from the remaining length. */
  method BrowserDecrypt(a: Aead, parses: bytes -> bool, c: bytes) returns (r: Result<(bytes, bytes), DecryptError>)
    requires Sized(a)
    ensures match Decrypt(a, parses, c)
            case Err(_) => r.Err?
            case Ok(o) => if o.body.clean then r == Ok((o.meta, o.body.plain)) else r.Err?
  {
    if |c| < HEADER_SIZE {
      return Err(NotEncrypted);
    }
    if c[..4] != MAGIC {
      return Err(NewerFormat);
    }
    var prefix: Prefix := c[4..11];
    var metaLen := ReadBigEndian16(c[11..13]);
    var metaEnd := HEADER_SIZE + metaLen;
    if metaEnd > |c| {
      return Err(WrongKey);
    }
    var metaJson := a.open(Nonce(prefix, 0, false), c[HEADER_SIZE..metaEnd]);
    if metaJson.None? || !parses(metaJson.value) {
      return Err(WrongKey);
    }
    var body := BrowserOpenChunks(a, prefix, c[metaEnd..]);
    r := if body.Ok? then Ok((metaJson.value, body.value)) else Err(WrongKey);
  }

  /** The rest of `decrypt`: count the chunks by division, then open each. */
  method BrowserOpenChunks(a: Aead, prefix: Prefix, c: bytes) returns (r: Result<bytes, DecryptError>)
    requires Sized(a)
    ensures var o := OpenChunks(a, prefix, c, 1);
      if o.clean then r == Ok(o.plain) else r.Err?
  {
    var fullChunks, rest := |c| / CHUNK_CIPHER_SIZE, |c| % CHUNK_CIPHER_SIZE;
    if rest != 0 && rest < TAG_SIZE {
      ShortTailFails(a, prefix, c, 1);
      return Err(WrongKey);
    }
    var chunkCount := if rest > 0 then fullChunks + 1 else fullChunks;
    if chunkCount == 0 {
      return Err(WrongKey);
    }
    var parts, offset, i := [], 0, 0;
    assert Release([], OpenChunks(a, prefix, c, 1)) == OpenChunks(a, prefix, c, 1) && c[0..] == c;
    while i < chunkCount
      invariant 0 <= i <= chunkCount && 0 <= offset <= |c|
      invariant ReadSoFar(a, prefix, c, chunkCount, i, offset, parts)
    {
      var size := if i == chunkCount - 1 && rest > 0 then rest else CHUNK_CIPHER_SIZE;
      var final := i == chunkCount - 1;
      BrowserNext(a, prefix, c, chunkCount, i, offset, size, parts);
      var chunk := c[offset .. offset + size];
      var plain := a.open(Nonce(prefix, (i + 1) % UINT32, final), chunk);
      if plain.None? {
        return Err(WrongKey);
      }
      parts := parts + plain.value;
      offset := offset + size;
      i := i + 1;
    }
    r := Ok(parts);
  }

  /** What the parts and the rest of the input still add up to. */
  predicate ReadSoFar(a: Aead, prefix: Prefix, c: bytes, chunkCount: nat, i: nat, offset: nat, parts: bytes)
    requires offset <= |c|
  {
    var goal := OpenChunks(a, prefix, c, 1);
    if i >= chunkCount then goal == Outcome(parts, true)
    else
      offset == i * CHUNK_CIPHER_SIZE
      && goal == Release(parts, OpenChunks(a, prefix, c[offset..], (1 + i) % UINT32))
  }

  lemma BrowserNext(a: Aead, prefix: Prefix, c: bytes, chunkCount: nat, i: nat, offset: nat, size: nat, parts: bytes)
    requires i < chunkCount && chunkCount == |c| / CHUNK_CIPHER_SIZE + (if |c| % CHUNK_CIPHER_SIZE > 0 then 1 else 0)
    requires offset <= |c| && ReadSoFar(a, prefix, c, chunkCount, i, offset, parts)
    requires size == if i == chunkCount - 1 && |c| % CHUNK_CIPHER_SIZE > 0 then |c| % CHUNK_CIPHER_SIZE else CHUNK_CIPHER_SIZE
    ensures offset + size <= |c|
    ensures match a.open(Nonce(prefix, (i + 1) % UINT32, i == chunkCount - 1), c[offset .. offset + size])
            case None => !OpenChunks(a, prefix, c, 1).clean
            case Some(p) => ReadSoFar(a, prefix, c, chunkCount, i + 1, offset + size, parts + p)
  {
    BrowserLayout(|c|, chunkCount, i);
    BrowserTurn(a, prefix, c, i, offset, size, i == chunkCount - 1, parts);
  }

  /** What a turn adds to the parts. */
  lemma BrowserTurn(a: Aead, prefix: Prefix, c: bytes, i: nat, offset: nat, size: nat, final: bool, parts: bytes)
    requires 0 < size && offset + size <= |c| && size == Min(CHUNK_CIPHER_SIZE, |c| - offset)
    requires final == (|c| - offset <= CHUNK_CIPHER_SIZE)
    ensures Release(parts, OpenChunks(a, prefix, c[offset..], (1 + i) % UINT32)) ==
      match a.open(Nonce(prefix, (i + 1) % UINT32, final), c[offset .. offset + size])
      case None => Outcome(parts, false)
      case Some(p) =>
        if final then Outcome(parts + p, true)
        else Release(parts + p, OpenChunks(a, prefix, c[offset + size..], (1 + (i + 1)) % UINT32))
  {
    BrowserStep(a, prefix, c, i, offset, size, final);
    var plain := a.open(Nonce(prefix, (i + 1) % UINT32, final), c[offset .. offset + size]);
    if plain.Some? {
      ReleaseMore(parts, plain.value, OpenChunks(a, prefix, c[offset + size..], (1 + (i + 1)) % UINT32));
    } else {
      assert parts + [] == parts;
    }
  }

  /** One turn of the browser's loop, as the format reads it. */
  lemma BrowserStep(a: Aead, prefix: Prefix, c: bytes, i: nat, offset: nat, size: nat, final: bool)
    requires 0 < size && offset + size <= |c| && size == Min(CHUNK_CIPHER_SIZE, |c| - offset)
    requires final == (|c| - offset <= CHUNK_CIPHER_SIZE)
    ensures OpenChunks(a, prefix, c[offset..], (1 + i) % UINT32) ==
      match a.open(Nonce(prefix, (i + 1) % UINT32, final), c[offset .. offset + size])
      case None => Outcome([], false)
      case Some(p) =>
        if final then Outcome(p, true)
        else Release(p, OpenChunks(a, prefix, c[offset + size..], (1 + (i + 1)) % UINT32))
  {
    assert c[offset..][..size] == c[offset .. offset + size] && c[offset..][size..] == c[offset + size..];
    OpenStep(a, prefix, c[offset..], (1 + i) % UINT32, size, final);
    CounterAdvances(i);
  }

  /** The chunk sizes found by division tile the input, and only the last reaches its end. */
  lemma BrowserLayout(n: nat, chunkCount: nat, i: nat)
    requires i < chunkCount && chunkCount == n / CHUNK_CIPHER_SIZE + (if n % CHUNK_CIPHER_SIZE > 0 then 1 else 0)
    ensures var size := if i == chunkCount - 1 && n % CHUNK_CIPHER_SIZE > 0 then n % CHUNK_CIPHER_SIZE else CHUNK_CIPHER_SIZE;
      var offset := i * CHUNK_CIPHER_SIZE;
      && offset + size <= n && (i == chunkCount - 1 <==> n - offset <= CHUNK_CIPHER_SIZE)
      && (i == chunkCount - 1 ==> offset + size == n)
  {
  }

  /** A trailing chunk shorter than a tag never opens. */
  lemma {:induction false} ShortTailFails(a: Aead, prefix: Prefix, c: bytes, counter: uint32)
    requires Sized(a) && 0 < |c| % CHUNK_CIPHER_SIZE < TAG_SIZE
    ensures !OpenChunks(a, prefix, c, counter).clean
    decreases |c|
  {
    if |c| > CHUNK_CIPHER_SIZE {
      ShortTailFails(a, prefix, c[CHUNK_CIPHER_SIZE..], Next(counter));
    }
  }
}
