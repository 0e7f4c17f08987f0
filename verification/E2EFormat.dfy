/**
 The end-to-end encrypted stream: header, sealed metadata, then chunks sealed
 under nonce = prefix, counter, final marker.
 */
module E2EFormat {
  import opened Basics

  const MAGIC: bytes := [0x53, 0x54, 0x45, 0x31]
  const NONCE_PREFIX_SIZE := 7
  const CHUNK_SIZE := 65536
  const TAG_SIZE := 16
  const HEADER_SIZE := 13
  const CHUNK_CIPHER_SIZE := 65552
  const UINT16 := 0x1_0000
  const UINT32 := 0x1_0000_0000

  type Prefix = p: bytes | |p| == NONCE_PREFIX_SIZE witness [0, 0, 0, 0, 0, 0, 0]

  type uint32 = n: nat | n < UINT32

  /** The constants of the format, in its own terms. */
  lemma Constants()
    ensures |MAGIC| == 4 && forall i | 0 <= i < 4 :: MAGIC[i] as char == "STE1"[i]
    ensures NONCE_PREFIX_SIZE == 12 - 4 - 1 && HEADER_SIZE == |MAGIC| + NONCE_PREFIX_SIZE + 2
    ensures CHUNK_SIZE == 64 * 1024 && TAG_SIZE == 16 && CHUNK_CIPHER_SIZE == CHUNK_SIZE + TAG_SIZE
  {
  }

  // ----- big-endian integers and nonces -----

  function BigEndian16(n: nat): (b: bytes)
    requires n < UINT16
    ensures |b| == 2
  {
    [(n / 256) as byte, (n % 256) as byte]
  }

  function ReadBigEndian16(b: bytes): (n: nat)
    requires |b| == 2
    ensures n < UINT16
  {
    b[0] as nat * 256 + b[1] as nat
  }

  lemma BigEndian16RoundTrip(b: bytes)
    requires |b| == 2
    ensures BigEndian16(ReadBigEndian16(b)) == b
  {
    var n := ReadBigEndian16(b);
    assert n / 256 == b[0] as nat && n % 256 == b[1] as nat;
  }

  function BigEndian32(n: uint32): (b: bytes)
    ensures |b| == 4
  {
    var n1 := n / 256;
    var n2 := n1 / 256;
    [(n2 / 256) as byte, (n2 % 256) as byte, (n1 % 256) as byte, (n % 256) as byte]
  }

  lemma BigEndian32Injective(m: uint32, n: uint32)
    requires BigEndian32(m) == BigEndian32(n)
    ensures m == n
  {
    var b, b' := BigEndian32(m), BigEndian32(n);
    assert b[0] == b'[0] && b[1] == b'[1];
    assert m / 256 / 256 == n / 256 / 256;
    assert b[2] == b'[2];
    assert m / 256 == n / 256;
    assert b[3] == b'[3];
  }

  /** The nonce of one chunk: which stream, which chunk, and whether it is the last. */
  datatype Nonce = Nonce(prefix: Prefix, counter: uint32, final: bool) {

    /** The twelve bytes handed to the cipher. */
    function Bytes(): (b: bytes)
      ensures |b| == 12
    {
      prefix + BigEndian32(counter) + [if final then 1 else 0]
    }
  }

  /** Where each part stands: the prefix, the counter with its highest byte first, the marker. */
  lemma NonceLayout(n: Nonce)
    ensures var b := n.Bytes();
      && b[..7] == n.prefix
      && b[7] as nat * 0x100_0000 + b[8] as nat * 0x1_0000 + b[9] as nat * 0x100 + b[10] as nat == n.counter
      && b[11] == if n.final then 1 else 0
  {
    BigEndian32Value(n.counter);
    assert n.Bytes()[7..11] == BigEndian32(n.counter);
  }

  lemma BigEndian32Value(n: uint32)
    ensures var b := BigEndian32(n);
      b[0] as nat * 0x100_0000 + b[1] as nat * 0x1_0000 + b[2] as nat * 0x100 + b[3] as nat == n
  {
    var n1 := n / 256;
    var n2 := n1 / 256;
    assert n == n1 * 256 + n % 256 && n1 == n2 * 256 + n1 % 256 && n2 == n2 / 256 * 256 + n2 % 256;
  }

  lemma BigEndian16Value(n: nat)
    requires n < UINT16
    ensures var b := BigEndian16(n); b[0] as nat * 0x100 + b[1] as nat == n && ReadBigEndian16(b) == n
  {
  }

  /** The twelve bytes determine the stream prefix, the chunk number and the marker. */
  lemma NonceBytesInjective(m: Nonce, n: Nonce)
    requires m.Bytes() == n.Bytes()
    ensures m == n
  {
    assert m.Bytes()[..7] == m.prefix && n.Bytes()[..7] == n.prefix;
    assert m.Bytes()[7..11] == BigEndian32(m.counter) && n.Bytes()[7..11] == BigEndian32(n.counter);
    assert m.Bytes()[11] == (if m.final then 1 else 0) && n.Bytes()[11] == (if n.final then 1 else 0);
    BigEndian32Injective(m.counter, n.counter);
  }

  // ----- the cipher, through the interface of section 2 of RFC 5116 -----

  /** Seal and open under one fixed key, with empty associated data. */
  datatype Aead = Aead(seal: (Nonce, bytes) -> bytes, open: (Nonce, bytes) -> Option<bytes>)

  datatype Message = Message(nonce: Nonce, plain: bytes)

  /** A sealed message is exactly one tag longer than its plaintext. */
  ghost predicate Sized(a: Aead) {
    && (forall n, p :: |a.seal(n, p)| == |p| + TAG_SIZE)
    && (forall n, c :: a.open(n, c).Some? ==> |c| == |a.open(n, c).value| + TAG_SIZE)
  }

  /** Opening undoes sealing, for the messages that were sealed. */
  ghost predicate OpensLog(a: Aead, log: seq<Message>) {
    forall m <- log :: a.open(m.nonce, a.seal(m.nonce, m.plain)) == Some(m.plain)
  }

  /** Authenticity: only messages in the log of sealed messages ever open. */
  ghost predicate Ideal(a: Aead, log: seq<Message>) {
    forall n, c :: a.open(n, c).Some? ==>
      Message(n, a.open(n, c).value) in log && c == a.seal(n, a.open(n, c).value)
  }

  /** A cipher that is ideal for a given log, with a constant tag: the three demands go together. */
  function LogCipher(log: seq<Message>): Aead {
    var tag: bytes := seq(TAG_SIZE, _ => 0);
    Aead((n: Nonce, p: bytes) => p + tag,
         (n: Nonce, c: bytes) =>
           if |c| >= TAG_SIZE && c[|c| - TAG_SIZE..] == tag && Message(n, c[..|c| - TAG_SIZE]) in log
           then Some(c[..|c| - TAG_SIZE]) else None)
  }

  lemma IdealCiphersExist(log: seq<Message>)
    ensures Sized(LogCipher(log)) && OpensLog(LogCipher(log), log) && Ideal(LogCipher(log), log)
  {
    var a := LogCipher(log);
    forall m <- log ensures a.open(m.nonce, a.seal(m.nonce, m.plain)) == Some(m.plain) {
      var c := a.seal(m.nonce, m.plain);
      assert c[..|c| - TAG_SIZE] == m.plain && c[|c| - TAG_SIZE..] == seq(TAG_SIZE, _ => 0);
    }
    forall n, c | a.open(n, c).Some?
      ensures Message(n, a.open(n, c).value) in log && c == a.seal(n, a.open(n, c).value)
    {
      assert c == c[..|c| - TAG_SIZE] + c[|c| - TAG_SIZE..];
    }
  }

  /** The cipher as the libraries offer it: over nonces that are byte strings. */
  datatype WireCipher = WireCipher(seal: (bytes, bytes) -> bytes, open: (bytes, bytes) -> Option<bytes>) {

    function ForNonces(): Aead {
      Aead((n: Nonce, p: bytes) => seal(n.Bytes(), p), (n: Nonce, c: bytes) => open(n.Bytes(), c))
    }

    ghost predicate Authentic(log: seq<Message>) {
      forall n, c :: open(n, c).Some? ==>
        exists m <- log :: n == m.nonce.Bytes() && open(n, c).value == m.plain && c == seal(n, m.plain)
    }
  }

  /** Since nonce bytes are injective, authenticity over byte strings is authenticity over nonces. */
  lemma WireAuthenticity(w: WireCipher, log: seq<Message>)
    requires w.Authentic(log)
    ensures Ideal(w.ForNonces(), log)
  {
    var a := w.ForNonces();
    forall n, c | a.open(n, c).Some?
      ensures Message(n, a.open(n, c).value) in log && c == a.seal(n, a.open(n, c).value)
    {
      assert w.open(n.Bytes(), c).Some?;
      var m :| m in log && n.Bytes() == m.nonce.Bytes() && w.open(n.Bytes(), c).value == m.plain
               && c == w.seal(n.Bytes(), m.plain);
      NonceBytesInjective(n, m.nonce);
    }
  }

  // ----- what one encryption seals -----

  function Next(counter: uint32): uint32 {
    (counter + 1) % UINT32
  }

  /** The payload messages from `counter` on; the last one carries the marker. */
  function Messages(prefix: Prefix, plain: bytes, counter: uint32): (ms: seq<Message>)
    ensures |ms| > 0
    decreases |plain|
  {
    if |plain| <= CHUNK_SIZE then
      [Message(Nonce(prefix, counter, true), plain)]
    else
      [Message(Nonce(prefix, counter, false), plain[..CHUNK_SIZE])]
      + Messages(prefix, plain[CHUNK_SIZE..], Next(counter))
  }

  function SealAll(a: Aead, ms: seq<Message>): bytes {
    if ms == [] then [] else a.seal(ms[0].nonce, ms[0].plain) + SealAll(a, ms[1..])
  }

  /** The sealed payload from `counter` on. */
  function Chunks(a: Aead, prefix: Prefix, plain: bytes, counter: uint32): bytes {
    SealAll(a, Messages(prefix, plain, counter))
  }

  lemma ChunksLast(a: Aead, prefix: Prefix, plain: bytes, counter: uint32)
    requires |plain| <= CHUNK_SIZE
    ensures Chunks(a, prefix, plain, counter) == a.seal(Nonce(prefix, counter, true), plain)
  {
    var ms := Messages(prefix, plain, counter);
    assert SealAll(a, ms[1..]) == [];
  }

  lemma ChunksMore(a: Aead, prefix: Prefix, plain: bytes, counter: uint32)
    requires |plain| > CHUNK_SIZE
    ensures Chunks(a, prefix, plain, counter)
         == a.seal(Nonce(prefix, counter, false), plain[..CHUNK_SIZE])
          + Chunks(a, prefix, plain[CHUNK_SIZE..], Next(counter))
  {
    var ms := Messages(prefix, plain, counter);
    assert ms[1..] == Messages(prefix, plain[CHUNK_SIZE..], Next(counter));
  }

  /** Both cases at once, in terms of the size of the first slice and its marker. */
  lemma ChunksStep(a: Aead, prefix: Prefix, plain: bytes, counter: uint32, size: nat, final: bool)
    requires size == Min(CHUNK_SIZE, |plain|) && final == (|plain| <= CHUNK_SIZE)
    ensures Chunks(a, prefix, plain, counter)
         == a.seal(Nonce(prefix, counter, final), plain[..size])
          + (if final then [] else Chunks(a, prefix, plain[size..], Next(counter)))
  {
    if final {
      ChunksLast(a, prefix, plain, counter);
      assert plain[..size] == plain;
    } else {
      ChunksMore(a, prefix, plain, counter);
    }
  }

  /** One encryption of one file. The metadata is kept as its JSON bytes. */
  datatype Stream = Stream(aead: Aead, prefix: Prefix, meta: bytes) {

    function MetaMessage(): Message {
      Message(Nonce(prefix, 0, false), meta)
    }

    /** Everything the stream seals for a plaintext: its log under the key. */
    function Log(plain: bytes): seq<Message> {
      [MetaMessage()] + Messages(prefix, plain, 1)
    }

    function SealedMeta(): bytes {
      aead.seal(Nonce(prefix, 0, false), meta)
    }

    predicate HeaderFits() {
      |meta| <= CHUNK_SIZE && |SealedMeta()| < UINT16
    }

    function Header(): bytes
      requires HeaderFits()
    {
      MAGIC + prefix + BigEndian16(|SealedMeta()|) + SealedMeta()
    }

    /** The whole ciphertext: what a download has to hand back. */
    function Ciphertext(plain: bytes): bytes
      requires HeaderFits()
    {
      Header() + Chunks(aead, prefix, plain, 1)
    }
  }

  // ----- lengths -----

  /** Number of payload chunks: an empty file still has one. */
  function ChunkCount(n: nat): (k: nat)
    ensures k >= 1
  {
    Max(1, (n + CHUNK_SIZE - 1) / CHUNK_SIZE)
  }

  lemma ChunkCountStep(n: nat)
    requires n > CHUNK_SIZE
    ensures ChunkCount(n) == 1 + ChunkCount(n - CHUNK_SIZE)
  {
  }

  lemma {:induction false} ChunksLength(a: Aead, prefix: Prefix, plain: bytes, counter: uint32)
    requires Sized(a)
    ensures |Chunks(a, prefix, plain, counter)| == |plain| + ChunkCount(|plain|) * TAG_SIZE
    decreases |plain|
  {
    if |plain| <= CHUNK_SIZE {
      ChunksLast(a, prefix, plain, counter);
      assert ChunkCount(|plain|) == 1;
    } else {
      var tail := plain[CHUNK_SIZE..];
      ChunksMore(a, prefix, plain, counter);
      ChunksLength(a, prefix, tail, Next(counter));
      ChunkCountStep(|plain|);
      assert |a.seal(Nonce(prefix, counter, false), plain[..CHUNK_SIZE])| == CHUNK_CIPHER_SIZE;
    }
  }

  /** E2EEncryptedSize in the Go client, given the length of the metadata JSON. */
  function GoEncryptedSize(n: nat, metaLen: nat): nat {
    var full, rest := n / CHUNK_SIZE, n % CHUNK_SIZE;
    HEADER_SIZE + (metaLen + TAG_SIZE) + full * CHUNK_CIPHER_SIZE
    + (if rest > 0 || full == 0 then rest + TAG_SIZE else 0)
  }

  /** encryptedSize in the browser. */
  function BrowserEncryptedSize(n: nat, metaLen: nat): nat {
    HEADER_SIZE + metaLen + TAG_SIZE + n + ChunkCount(n) * TAG_SIZE
  }

  /** Both closed forms are the length the chunk loop really produces. */
  lemma EncryptedSizesAgree(s: Stream, plain: bytes)
    requires Sized(s.aead) && s.HeaderFits()
    ensures |s.Ciphertext(plain)| == GoEncryptedSize(|plain|, |s.meta|)
    ensures |s.Ciphertext(plain)| == BrowserEncryptedSize(|plain|, |s.meta|)
    ensures |s.Header()| == HEADER_SIZE + |s.meta| + TAG_SIZE
  {
    ChunksLength(s.aead, s.prefix, plain, 1);
  }

  // ----- nonces -----

  /** Message number `i`, in closed form: its slice, its counter, its marker. */
  function NthMessage(prefix: Prefix, plain: bytes, counter: uint32, i: nat): Message
    requires i * CHUNK_SIZE <= |plain|
  {
    Message(Nonce(prefix, (counter + i) % UINT32, |plain| <= (i + 1) * CHUNK_SIZE),
            plain[i * CHUNK_SIZE .. Min((i + 1) * CHUNK_SIZE, |plain|)])
  }

  lemma CounterStep(counter: uint32, i: nat)
    requires i > 0
    ensures (Next(counter) + (i - 1)) % UINT32 == (counter + i) % UINT32
  {
    if counter == UINT32 - 1 {
      assert counter + i == UINT32 + (i - 1);
    }
  }

  lemma CounterAdvances(i: nat)
    ensures Next((1 + i) % UINT32) == (1 + (i + 1)) % UINT32
  {
  }

  lemma NthMessageStep(prefix: Prefix, plain: bytes, counter: uint32, i: nat)
    requires i > 0 && i * CHUNK_SIZE <= |plain|
    ensures NthMessage(prefix, plain[CHUNK_SIZE..], Next(counter), i - 1) == NthMessage(prefix, plain, counter, i)
  {
    CounterStep(counter, i);
    var tail, from, to := plain[CHUNK_SIZE..], i * CHUNK_SIZE, Min((i + 1) * CHUNK_SIZE, |plain|);
    assert tail[from - CHUNK_SIZE .. to - CHUNK_SIZE] == plain[from .. to];
  }

  lemma FirstMessage(prefix: Prefix, plain: bytes, counter: uint32)
    ensures Messages(prefix, plain, counter)[0] == NthMessage(prefix, plain, counter, 0)
  {
    assert plain[0 .. |plain|] == plain;
    assert counter % UINT32 == counter;
  }

  lemma {:induction false} MessageAt(prefix: Prefix, plain: bytes, counter: uint32, i: nat)
    requires i < |Messages(prefix, plain, counter)|
    ensures i * CHUNK_SIZE <= |plain|
    ensures Messages(prefix, plain, counter)[i] == NthMessage(prefix, plain, counter, i)
    decreases i
  {
    if i == 0 {
      FirstMessage(prefix, plain, counter);
    } else {
      var tail := Messages(prefix, plain[CHUNK_SIZE..], Next(counter));
      assert Messages(prefix, plain, counter)[1..] == tail;
      assert Messages(prefix, plain, counter)[i] == tail[i - 1];
      MessageAt(prefix, plain[CHUNK_SIZE..], Next(counter), i - 1);
      NthMessageStep(prefix, plain, counter, i);
    }
  }

  lemma {:induction false} MessageCount(prefix: Prefix, plain: bytes, counter: uint32)
    ensures |Messages(prefix, plain, counter)| == ChunkCount(|plain|)
    decreases |plain|
  {
    if |plain| > CHUNK_SIZE {
      MessageCount(prefix, plain[CHUNK_SIZE..], Next(counter));
      ChunkCountStep(|plain|);
    }
  }

  lemma LogAt(s: Stream, plain: bytes, i: nat)
    requires i < |s.Log(plain)| && ChunkCount(|plain|) < UINT32
    ensures i < UINT32
    ensures i == 0 ==> s.Log(plain)[i] == s.MetaMessage()
    ensures i > 0 ==> (i - 1) * CHUNK_SIZE <= |plain| && s.Log(plain)[i] == NthMessage(s.prefix, plain, 1, i - 1)
    ensures s.Log(plain)[i].nonce == Nonce(s.prefix, i, i > 0 && |plain| <= i * CHUNK_SIZE)
  {
    MessageCount(s.prefix, plain, 1);
    if i > 0 {
      MessageAt(s.prefix, plain, 1, i - 1);
      assert s.Log(plain)[i] == Messages(s.prefix, plain, 1)[i - 1];
    }
  }

  /** Every nonce of one encryption is used once (section 2.1 of RFC 5116). */
  lemma NoncesDistinct(s: Stream, plain: bytes, i: nat, j: nat)
    requires ChunkCount(|plain|) < UINT32
    requires i < j < |s.Log(plain)|
    ensures s.Log(plain)[i].nonce.Bytes() != s.Log(plain)[j].nonce.Bytes()
  {
    LogAt(s, plain, i);
    LogAt(s, plain, j);
    if s.Log(plain)[i].nonce.Bytes() == s.Log(plain)[j].nonce.Bytes() {
      NonceBytesInjective(s.Log(plain)[i].nonce, s.Log(plain)[j].nonce);
    }
  }
}
