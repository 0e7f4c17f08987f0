/**
 What becomes of an interrupted encrypted upload when the client that takes it up
 again asks for another name, chunk by chunk as the client sends them.
 */
module ResumeNames {
  import opened Basics
  import opened ContentRange
  import opened E2EFormat
  import opened E2EEncrypt
  import E2EDecrypt
  import opened PendingUploads
  import opened SessionSpool
  import opened ResumeRuns
  import UploadClient

  const CHUNK := UploadClient.UPLOAD_CHUNK_SIZE

  /** Smaller files are not uploaded through a session. */
  const RESUMABLE_THRESHOLD := 16777216

  // ----- from every offset -----

  lemma SameHeaderSameMeta(s: Stream, s': Stream, plain: bytes)
    requires s.HeaderFits() && s'.HeaderFits() && s.aead == s'.aead && s.prefix == s'.prefix
    requires OpensLog(s.aead, [s.MetaMessage(), s'.MetaMessage()])
    requires s.Ciphertext(plain) == s'.Ciphertext(plain)
    ensures s.meta == s'.meta
  {
    E2EDecrypt.HeaderLayout(s, Chunks(s.aead, s.prefix, plain, 1));
    E2EDecrypt.HeaderLayout(s', Chunks(s.aead, s.prefix, plain, 1));
    assert s.SealedMeta() == s'.SealedMeta();
    assert s.MetaMessage() in [s.MetaMessage(), s'.MetaMessage()] && s'.MetaMessage() in [s.MetaMessage(), s'.MetaMessage()];
  }

  /**
   A run that takes up an encrypted upload under some name sends the session's own
   bytes from every offset if and only if that name has the same metadata bytes.
   */
  lemma ContinuesIff(env: Env, r: Run, u: Entry)
    requires EnvOk(env) && r.key == u.key && r.e2eKey == u.e2eKey != "" && r.e2ePrefix == u.e2ePrefix
    requires HasSource(env, u.e2eKey, u.e2ePrefix, u.name)
    requires OpensLog(env.cipher(u.e2eKey), [StreamFor(env, u.e2eKey, u.e2ePrefix, u.name).MetaMessage(),
                                             StreamFor(env, u.e2eKey, u.e2ePrefix, r.name).MetaMessage()])
    ensures (forall offset: nat | offset < |EntrySource(env, u)| ::
              ChunkSource(env, r, offset) == Some(EntrySource(env, u)[offset..]))
       <==> env.meta(r.name) == env.meta(u.name)
  {
    var source := EntrySource(env, u);
    SourceLength(env, u.key, u.e2eKey, u.e2ePrefix, u.name);
    if env.meta(r.name) == env.meta(u.name) {
      forall offset: nat | offset < |source| ensures ChunkSource(env, r, offset) == Some(source[offset..]) {
        OwnBytesIff(env, r, u, offset);
      }
    } else if ChunkSource(env, r, 0) == Some(source[0..]) {
      var s, s' := StreamFor(env, u.e2eKey, u.e2ePrefix, u.name), StreamFor(env, u.e2eKey, u.e2ePrefix, r.name);
      assert source[0..] == source;
      assert s'.Ciphertext(env.content(u.key))[0..] == s'.Ciphertext(env.content(u.key));
      SameHeaderSameMeta(s, s', env.content(u.key));
    }
  }

  // ----- the client's chunks -----

  /** Chunk after chunk to the end, every body delivered as far as the source goes. */
  function SendRest(run: nat, start: nat, total: nat): seq<Event>
    decreases total - start
  {
    if start >= total then []
    else
      var n := Min(CHUNK, total - start);
      [Send(run, start, n, total, CALM.(arrived := n))] + SendRest(run, start + n, total)
  }

  /** What a run's stream supplies for those chunks, if each of them is filled. */
  function Supplied(env: Env, r: Run, start: nat, total: nat): Option<bytes>
    decreases total - start
  {
    if start >= total then Some([])
    else
      var n := Min(CHUNK, total - start);
      match ChunkSource(env, r, start)
      case None => None
      case Some(body) =>
        if |body| < n then None
        else
          match Supplied(env, r, start + n, total)
          case None => None
          case Some(later) => Some(body[..n] + later)
  }

  predicate Running(w: World, run: nat, id: nat, total: nat) {
    && run in w.runs && w.runs[run].session == id && id in w.sessions
    && var s := w.sessions[id].spool; s.total == total && s.sidecar && s.linked && s.objects == [] && s.data != []
  }

  lemma AfterOne(env: Env, w: World, e: Event, es: seq<Event>)
    ensures After(env, w, [e] + es) == After(env, Step(env, w, e), es)
  {
    assert ([e] + es)[1..] == es;
  }

  /** Chunks past the end of the spool are turned away, one and all. */
  lemma {:induction false} StuckRest(env: Env, w: World, run: nat, id: nat, start: nat, total: nat)
    requires Running(w, run, id, total) && start > |w.sessions[id].spool.data|
    ensures After(env, w, SendRest(run, start, total)) == w
    decreases total - start
  {
    if start < total {
      var n := Min(CHUNK, total - start);
      var e := Send(run, start, n, total, CALM.(arrived := n));
      assert Step(env, w, e) == w;
      AfterOne(env, w, e, SendRest(run, start + n, total));
      StuckRest(env, w, run, id, start + n, total);
    }
  }

  /** One chunk: appended if the source fills it, and otherwise as if it had not been sent. */
  lemma OneChunk(env: Env, w: World, run: nat, id: nat, start: nat, n: nat, total: nat)
    requires Running(w, run, id, total) && start == |w.sessions[id].spool.data| && n > 0 && start + n <= total
    ensures var s, body := w.sessions[id], ChunkSource(env, w.runs[run], start);
      var w' := Step(env, w, Send(run, start, n, total, CALM.(arrived := n)));
      if body.None? || |body.value| < n then w' == w
      else
        var data := s.spool.data + body.value[..n];
        w' == w.(sessions := w.sessions[id := s.(spool :=
          if start + n < total then s.spool.(data := data) else Spool(total, false, false, data, [data]))])
  {
    var s, body := w.sessions[id], ChunkSource(env, w.runs[run], start);
    if body.Some? {
      if |body.value| < n {
        ShortChunk(s.spool, start, n, body.value);
      } else {
        WholeChunk(s.spool, start, n, body.value);
        var data := s.spool.data + body.value[..n];
        assert s.spool.objects + [data] == [data];
        assert data != [];
      }
    }
  }

  /** The session afterwards: it has stored what it held and the rest behind it, if there is a rest. */
  predicate Stores(w: World, last: World, id: nat, rest: Option<bytes>)
    requires id in w.sessions
  {
    && id in last.sessions
    && last.sessions[id].entry == w.sessions[id].entry && last.sessions[id].writer == w.sessions[id].writer
    && last.sessions[id].spool.objects == if rest.None? then [] else [w.sessions[id].spool.data + rest.value]
  }

  /** The world with the next chunk in place. */
  function Advanced(w: World, id: nat, chunk: bytes): World
    requires id in w.sessions
  {
    var s := w.sessions[id];
    w.(sessions := w.sessions[id := s.(spool := s.spool.(data := s.spool.data + chunk))])
  }

  lemma StoresOneMore(w: World, last: World, id: nat, chunk: bytes, rest: Option<bytes>)
    requires id in w.sessions && Stores(Advanced(w, id, chunk), last, id, rest)
    ensures Stores(w, last, id, if rest.None? then None else Some(chunk + rest.value))
  {
    if rest.Some? {
      assert w.sessions[id].spool.data + (chunk + rest.value) == (w.sessions[id].spool.data + chunk) + rest.value;
    }
  }

  lemma LastChunkStores(env: Env, w: World, run: nat, id: nat, start: nat, n: nat, total: nat)
    requires Running(w, run, id, total) && start == |w.sessions[id].spool.data| && n > 0 && start + n == total
    requires ChunkSource(env, w.runs[run], start).Some? && |ChunkSource(env, w.runs[run], start).value| >= n
    ensures Stores(w, Step(env, w, Send(run, start, n, total, CALM.(arrived := n))), id,
                   Some(ChunkSource(env, w.runs[run], start).value[..n]))
  {
    OneChunk(env, w, run, id, start, n, total);
  }

  /** A chunk that cannot be filled is the end of it. */
  lemma RestStuck(env: Env, w: World, run: nat, id: nat, start: nat, n: nat, total: nat)
    requires Running(w, run, id, total) && start == |w.sessions[id].spool.data| && n > 0 && start + n <= total
    requires ChunkSource(env, w.runs[run], start).None? || |ChunkSource(env, w.runs[run], start).value| < n
    ensures var e := Send(run, start, n, total, CALM.(arrived := n));
      Stores(w, After(env, Step(env, w, e), SendRest(run, start + n, total)), id, None)
  {
    OneChunk(env, w, run, id, start, n, total);
    StuckRest(env, w, run, id, start + n, total);
  }

  /** A chunk that is filled, and then whatever the rest came to. */
  lemma RestMore(env: Env, w: World, run: nat, id: nat, start: nat, n: nat, total: nat)
    requires Running(w, run, id, total) && start == |w.sessions[id].spool.data|
    requires n == Min(CHUNK, total - start) > 0 && start + n < total
    requires ChunkSource(env, w.runs[run], start).Some? && |ChunkSource(env, w.runs[run], start).value| >= n
    requires var w' := Advanced(w, id, ChunkSource(env, w.runs[run], start).value[..n]);
      Stores(w', After(env, w', SendRest(run, start + n, total)), id, Supplied(env, w.runs[run], start + n, total))
    ensures var e := Send(run, start, n, total, CALM.(arrived := n));
      Stores(w, After(env, Step(env, w, e), SendRest(run, start + n, total)), id, Supplied(env, w.runs[run], start, total))
  {
    var chunk := ChunkSource(env, w.runs[run], start).value[..n];
    NextChunk(env, w, run, id, start, n, total);
    StoresOneMore(w, After(env, Advanced(w, id, chunk), SendRest(run, start + n, total)), id, chunk,
                  Supplied(env, w.runs[run], start + n, total));
  }

  lemma RestLast(env: Env, w: World, run: nat, id: nat, start: nat, n: nat, total: nat)
    requires Running(w, run, id, total) && start == |w.sessions[id].spool.data|
    requires n == Min(CHUNK, total - start) > 0 && start + n == total
    requires ChunkSource(env, w.runs[run], start).Some? && |ChunkSource(env, w.runs[run], start).value| >= n
    ensures var e := Send(run, start, n, total, CALM.(arrived := n));
      Stores(w, After(env, Step(env, w, e), SendRest(run, start + n, total)), id, Supplied(env, w.runs[run], start, total))
  {
    var chunk := ChunkSource(env, w.runs[run], start).value[..n];
    LastChunkStores(env, w, run, id, start, n, total);
    assert chunk + [] == chunk;
  }

  lemma RestUnfolds(env: Env, w: World, run: nat, start: nat, n: nat, total: nat)
    requires start < total && n == Min(CHUNK, total - start)
    ensures After(env, w, SendRest(run, start, total))
         == After(env, Step(env, w, Send(run, start, n, total, CALM.(arrived := n))), SendRest(run, start + n, total))
  {
    AfterOne(env, w, Send(run, start, n, total, CALM.(arrived := n)), SendRest(run, start + n, total));
  }

  /** The rest is stored exactly if the run's stream supplies all of it. */
  lemma {:induction false} RestOutcome(env: Env, w: World, run: nat, id: nat, start: nat, total: nat)
    requires Running(w, run, id, total) && start == |w.sessions[id].spool.data| < total
    ensures Stores(w, After(env, w, SendRest(run, start, total)), id, Supplied(env, w.runs[run], start, total))
    decreases total - start
  {
    var n, body := Min(CHUNK, total - start), ChunkSource(env, w.runs[run], start);
    RestUnfolds(env, w, run, start, n, total);
    if body.None? || |body.value| < n {
      RestStuck(env, w, run, id, start, n, total);
    } else if start + n < total {
      NextChunk(env, w, run, id, start, n, total);
      RestOutcome(env, Advanced(w, id, body.value[..n]), run, id, start + n, total);
      RestMore(env, w, run, id, start, n, total);
    } else {
      RestLast(env, w, run, id, start, n, total);
    }
  }

  lemma NextChunk(env: Env, w: World, run: nat, id: nat, start: nat, n: nat, total: nat)
    requires Running(w, run, id, total) && start == |w.sessions[id].spool.data| && n > 0 && start + n < total
    requires ChunkSource(env, w.runs[run], start).Some? && |ChunkSource(env, w.runs[run], start).value| >= n
    ensures Step(env, w, Send(run, start, n, total, CALM.(arrived := n)))
         == Advanced(w, id, ChunkSource(env, w.runs[run], start).value[..n])
    ensures Running(Advanced(w, id, ChunkSource(env, w.runs[run], start).value[..n]), run, id, total)
  {
    OneChunk(env, w, run, id, start, n, total);
  }

  // ----- two runs of one upload -----

  /** The first run sends one chunk and dies; the second takes the session up under its own name. */
  function TwoRuns(key: string, first: string, second: string, e2eKey: string, prefix: bytes, total: nat): seq<Event>
    requires total > CHUNK
  {
    var u := Entry(key, 0, first, total, e2eKey, prefix, 0);
    [Start(0, [], key, first, true, false, e2eKey, prefix, 0, 0),
     Send(0, 0, CHUNK, total, CALM.(arrived := CHUNK)),
     Die(0),
     Start(1, [u], key, second, true, false, e2eKey, prefix, 1, 0)] + SendRest(1, CHUNK, total)
  }

  predicate Interruptible(env: Env, key: string, first: string, e2eKey: string, prefix: bytes) {
    && e2eKey != "" && env.parsesKey(e2eKey) && ValidPrefix(prefix)
    && HasSource(env, e2eKey, prefix, first) && |Source(env, key, e2eKey, prefix, first)| > CHUNK
  }

  /** The session when the second run has taken it up. */
  function TakenUp(env: Env, key: string, first: string, second: string, e2eKey: string, prefix: bytes): World
    requires Interruptible(env, key, first, e2eKey, prefix)
  {
    var source := Source(env, key, e2eKey, prefix, first);
    var u := Entry(key, 0, first, |source|, e2eKey, prefix, 0);
    World({u}, map[0 := Session(u, Spool(|source|, true, true, source[..CHUNK], []), first)],
          map[1 := Run(key, second, 0, e2eKey, prefix)])
  }

  lemma FirstRun(env: Env, key: string, first: string, second: string, e2eKey: string, prefix: bytes)
    requires EnvOk(env) && Interruptible(env, key, first, e2eKey, prefix)
    ensures var source := Source(env, key, e2eKey, prefix, first);
      var es, u := TwoRuns(key, first, second, e2eKey, prefix, |source|), Entry(key, 0, first, |source|, e2eKey, prefix, 0);
      var w := Step(env, NEW_WORLD, es[0]);
      && w == World({u}, map[0 := NewSession(u)], map[0 := Run(key, first, 0, e2eKey, prefix)])
      && Step(env, w, es[1])
         == w.(sessions := map[0 := Session(u, Spool(|source|, true, true, source[..CHUNK], []), first)])
  {
    var source := Source(env, key, e2eKey, prefix, first);
    var s := StreamFor(env, e2eKey, prefix, first);
    EncryptedSizesAgree(s, env.content(key));
    StreamFromIsSuffix(s, env.content(key), 0);
    WholeChunk(Spool(|source|, true, true, [], []), 0, CHUNK, source[0..]);
    assert source[0..][..CHUNK] == source[..CHUNK] && [] + source[..CHUNK] == source[..CHUNK];
  }

  lemma TakingUp(env: Env, key: string, first: string, second: string, e2eKey: string, prefix: bytes)
    requires EnvOk(env) && Interruptible(env, key, first, e2eKey, prefix)
    ensures var total := |Source(env, key, e2eKey, prefix, first)|;
      After(env, NEW_WORLD, TwoRuns(key, first, second, e2eKey, prefix, total))
      == After(env, TakenUp(env, key, first, second, e2eKey, prefix), SendRest(1, CHUNK, total))
  {
    var total := |Source(env, key, e2eKey, prefix, first)|;
    var es, rest := TwoRuns(key, first, second, e2eKey, prefix, total), SendRest(1, CHUNK, total);
    FirstRun(env, key, first, second, e2eKey, prefix);
    var w2 := Step(env, Step(env, NEW_WORLD, es[0]), es[1]);
    var w3 := Step(env, w2, es[2]);
    assert w3 == w2.(runs := map[]);
    assert Step(env, w3, es[3]) == TakenUp(env, key, first, second, e2eKey, prefix);
    TwoSteps(env, NEW_WORLD, es[0], es[1], [es[2], es[3]] + rest);
    TwoSteps(env, w2, es[2], es[3], rest);
    assert es == [es[0], es[1]] + ([es[2], es[3]] + rest);
  }

  lemma TwoSteps(env: Env, w: World, e: Event, e': Event, rest: seq<Event>)
    ensures After(env, w, [e, e'] + rest) == After(env, Step(env, Step(env, w, e), e'), rest)
  {
    AfterOne(env, w, e, [e'] + rest);
    AfterOne(env, Step(env, w, e), e', rest);
    assert [e, e'] + rest == [e] + ([e'] + rest);
  }

  /** What is stored is the first chunk of the one stream and what the other supplies behind it, or nothing. */
  lemma TwoNamesMix(env: Env, key: string, first: string, second: string, e2eKey: string, prefix: bytes)
    requires EnvOk(env) && Interruptible(env, key, first, e2eKey, prefix)
    ensures var source := Source(env, key, e2eKey, prefix, first);
      var last := After(env, NEW_WORLD, TwoRuns(key, first, second, e2eKey, prefix, |source|));
      && 0 in last.sessions
      && last.sessions[0].entry == Entry(key, 0, first, |source|, e2eKey, prefix, 0) && last.sessions[0].writer == first
      && var rest := Supplied(env, Run(key, second, 0, e2eKey, prefix), CHUNK, |source|);
         last.sessions[0].spool.objects == if rest.None? then [] else [source[..CHUNK] + rest.value]
  {
    TakingUp(env, key, first, second, e2eKey, prefix);
    RestOutcome(env, TakenUp(env, key, first, second, e2eKey, prefix), 1, 0, CHUNK, |Source(env, key, e2eKey, prefix, first)|);
  }

  // ----- what the second stream supplies -----

  lemma {:induction false} SuppliedInside(env: Env, r: Run, start: nat, total: nat)
    requires EnvOk(env) && r.e2eKey != "" && HasSource(env, r.e2eKey, r.e2ePrefix, r.name)
    requires start <= total <= |Source(env, r.key, r.e2eKey, r.e2ePrefix, r.name)|
    ensures Supplied(env, r, start, total) == Some(Source(env, r.key, r.e2eKey, r.e2ePrefix, r.name)[start..total])
    decreases total - start
  {
    var other := Source(env, r.key, r.e2eKey, r.e2ePrefix, r.name);
    if start < total {
      var n := Min(CHUNK, total - start);
      StreamFromIsSuffix(StreamFor(env, r.e2eKey, r.e2ePrefix, r.name), env.content(r.key), start);
      SuppliedInside(env, r, start + n, total);
      assert other[start..][..n] + other[start + n..total] == other[start..total];
    } else {
      assert other[start..total] == [];
    }
  }

  /** Restarted at its very end, the stream yields a sealed empty chunk that is long enough for what is missing. */
  predicate EndYields(env: Env, r: Run, missing: nat)
    requires HasSource(env, r.e2eKey, r.e2ePrefix, r.name) && r.e2eKey != ""
  {
    var s := StreamFor(env, r.e2eKey, r.e2ePrefix, r.name);
    ExtraChunkAt(s, env.content(r.key), |s.Ciphertext(env.content(r.key))|) && missing <= TAG_SIZE
  }

  lemma AtItsEnd(env: Env, r: Run, total: nat)
    requires EnvOk(env) && r.e2eKey != "" && HasSource(env, r.e2eKey, r.e2ePrefix, r.name)
    requires |Source(env, r.key, r.e2eKey, r.e2ePrefix, r.name)| < total
    ensures var end := |Source(env, r.key, r.e2eKey, r.e2ePrefix, r.name)|;
      Supplied(env, r, end, total) == None <==> !EndYields(env, r, total - end)
  {
    var s, end := StreamFor(env, r.e2eKey, r.e2ePrefix, r.name), |Source(env, r.key, r.e2eKey, r.e2ePrefix, r.name)|;
    var n := Min(CHUNK, total - end);
    RestartIsExactIff(s, env.content(r.key), end);
    assert s.Ciphertext(env.content(r.key))[end..] == [];
    assert Supplied(env, r, end + n, total) == Some([]) || n == CHUNK;
  }

  /** A stream that ends too early does not supply the rest, but for the chunk its end can yield. */
  lemma {:induction false} SuppliedShortIff(env: Env, r: Run, start: nat, total: nat)
    requires EnvOk(env) && r.e2eKey != "" && HasSource(env, r.e2eKey, r.e2ePrefix, r.name)
    requires start <= |Source(env, r.key, r.e2eKey, r.e2ePrefix, r.name)| < total
    ensures var end := |Source(env, r.key, r.e2eKey, r.e2ePrefix, r.name)|;
      Supplied(env, r, start, total) == None <==> (end - start) % CHUNK != 0 || !EndYields(env, r, total - end)
    decreases total - start
  {
    var other := Source(env, r.key, r.e2eKey, r.e2ePrefix, r.name);
    if start == |other| {
      AtItsEnd(env, r, total);
    } else {
      var n := Min(CHUNK, total - start);
      StreamFromIsSuffix(StreamFor(env, r.e2eKey, r.e2ePrefix, r.name), env.content(r.key), start);
      if start + n <= |other| {
        SuppliedShortIff(env, r, start + n, total);
        AlignedNext(|other| - start);
      }
    }
  }

  lemma AlignedNext(n: nat)
    requires n >= CHUNK
    ensures n % CHUNK == 0 <==> (n - CHUNK) % CHUNK == 0
  {
  }

  lemma ChunkIsPastHeader(env: Env, e2eKey: string, prefix: bytes, name: string)
    requires EnvOk(env) && ValidPrefix(prefix) && StreamFor(env, e2eKey, prefix, name).HeaderFits()
    ensures PastHeader(env, name, CHUNK)
  {
    HeaderSizes(env, e2eKey, prefix, name);
  }

  /** The objects that the two runs leave. */
  function Objects(env: Env, key: string, first: string, second: string, e2eKey: string, prefix: bytes): seq<bytes>
    requires Interruptible(env, key, first, e2eKey, prefix)
  {
    var last := After(env, NEW_WORLD, TwoRuns(key, first, second, e2eKey, prefix, |Source(env, key, e2eKey, prefix, first)|));
    if 0 in last.sessions then last.sessions[0].spool.objects else []
  }

  lemma ObjectsAre(env: Env, key: string, first: string, second: string, e2eKey: string, prefix: bytes)
    requires EnvOk(env) && Interruptible(env, key, first, e2eKey, prefix)
    ensures var source := Source(env, key, e2eKey, prefix, first);
      var rest := Supplied(env, Run(key, second, 0, e2eKey, prefix), CHUNK, |source|);
      Objects(env, key, first, second, e2eKey, prefix) == if rest.None? then [] else [source[..CHUNK] + rest.value]
  {
    TwoNamesMix(env, key, first, second, e2eKey, prefix);
  }

  /** The two lengths differ as the metadata does. */
  lemma LengthsDiffer(env: Env, key: string, first: string, second: string, e2eKey: string, prefix: bytes)
    requires EnvOk(env) && e2eKey != "" && HasSource(env, e2eKey, prefix, first) && HasSource(env, e2eKey, prefix, second)
    ensures |Source(env, key, e2eKey, prefix, first)| - |Source(env, key, e2eKey, prefix, second)|
         == |env.meta(first)| - |env.meta(second)|
  {
    SourceLength(env, key, e2eKey, prefix, first);
    SourceLength(env, key, e2eKey, prefix, second);
  }

  /** A name whose metadata is no shorter: the first chunk of the one stream and the bytes of the other behind it. */
  lemma LongerIsMixed(env: Env, key: string, first: string, second: string, e2eKey: string, prefix: bytes)
    requires EnvOk(env) && Interruptible(env, key, first, e2eKey, prefix) && HasSource(env, e2eKey, prefix, second)
    requires |env.meta(second)| >= |env.meta(first)|
    ensures var source, other := Source(env, key, e2eKey, prefix, first), Source(env, key, e2eKey, prefix, second);
      |source| <= |other| && Objects(env, key, first, second, e2eKey, prefix) == [source[..CHUNK] + other[CHUNK..|source|]]
  {
    ObjectsAre(env, key, first, second, e2eKey, prefix);
    LengthsDiffer(env, key, first, second, e2eKey, prefix);
    SuppliedInside(env, Run(key, second, 0, e2eKey, prefix), CHUNK, |Source(env, key, e2eKey, prefix, first)|);
  }

  /** The same length: the stored object is the first stream, whole. */
  lemma SameLengthIsStored(env: Env, key: string, first: string, second: string, e2eKey: string, prefix: bytes)
    requires EnvOk(env) && Interruptible(env, key, first, e2eKey, prefix) && HasSource(env, e2eKey, prefix, second)
    requires |env.meta(second)| == |env.meta(first)|
    ensures Objects(env, key, first, second, e2eKey, prefix) == [Source(env, key, e2eKey, prefix, first)]
  {
    var source, other := Source(env, key, e2eKey, prefix, first), Source(env, key, e2eKey, prefix, second);
    SourceLength(env, key, e2eKey, prefix, first);
    SourceLength(env, key, e2eKey, prefix, second);
    LongerIsMixed(env, key, first, second, e2eKey, prefix);
    ChunkIsPastHeader(env, e2eKey, prefix, first);
    SourcesAgreeIff(env, key, e2eKey, prefix, first, second, CHUNK);
    assert other[CHUNK..|source|] == other[CHUNK..] == source[CHUNK..];
    assert source[..CHUNK] + source[CHUNK..] == source;
  }

  /**
   Shorter: nothing is stored, unless the shorter stream ends exactly where a chunk
   of the client does and its end yields what is missing.
   */
  lemma ShorterIsNotStoredIff(env: Env, key: string, first: string, second: string, e2eKey: string, prefix: bytes)
    requires EnvOk(env) && Interruptible(env, key, first, e2eKey, prefix) && HasSource(env, e2eKey, prefix, second)
    requires |env.meta(second)| < |env.meta(first)| && CHUNK < |Source(env, key, e2eKey, prefix, second)|
    ensures var missing, end := |env.meta(first)| - |env.meta(second)|, |Source(env, key, e2eKey, prefix, second)|;
      Objects(env, key, first, second, e2eKey, prefix) == []
      <==> end % CHUNK != 0 || !EndYields(env, Run(key, second, 0, e2eKey, prefix), missing)
  {
    ObjectsAre(env, key, first, second, e2eKey, prefix);
    LengthsDiffer(env, key, first, second, e2eKey, prefix);
    AlignedNext(|Source(env, key, e2eKey, prefix, second)|);
    SuppliedShortIff(env, Run(key, second, 0, e2eKey, prefix), CHUNK, |Source(env, key, e2eKey, prefix, first)|);
  }

  /** The mixture decrypts to a clean end exactly if the two streams happen to agree behind the first chunk. */
  lemma MixtureIsCleanIff(env: Env, key: string, first: string, second: string, e2eKey: string, prefix: bytes, parses: bytes -> bool)
    requires EnvOk(env) && Interruptible(env, key, first, e2eKey, prefix) && HasSource(env, e2eKey, prefix, second)
    requires |Source(env, key, e2eKey, prefix, first)| <= |Source(env, key, e2eKey, prefix, second)|
    requires var s := StreamFor(env, e2eKey, prefix, first); var file := env.content(key);
      && OpensLog(s.aead, s.Log(file)) && E2EDecrypt.IdealPayload(s, file) && parses(s.meta) && ChunkCount(|file|) < UINT32
    ensures var source, other := Source(env, key, e2eKey, prefix, first), Source(env, key, e2eKey, prefix, second);
      var d := E2EDecrypt.Decrypt(env.cipher(e2eKey), parses, source[..CHUNK] + other[CHUNK..|source|]);
      d.Ok? && (d.value.body.clean <==> other[CHUNK..|source|] == source[CHUNK..])
  {
    var source, other := Source(env, key, e2eKey, prefix, first), Source(env, key, e2eKey, prefix, second);
    var s, file := StreamFor(env, e2eKey, prefix, first), env.content(key);
    var h := |s.Header()|;
    var rest := source[h..CHUNK] + other[CHUNK..|source|];
    ChunkIsPastHeader(env, e2eKey, prefix, first);
    HeaderSizes(env, e2eKey, prefix, first);
    assert source[..CHUNK] + other[CHUNK..|source|] == s.Header() + rest;
    E2EDecrypt.CleanBehindHeaderIff(s, file, parses, rest);
    SameBehind(source, h, other[CHUNK..|source|]);
    assert source[h..] == Chunks(s.aead, s.prefix, file, 1);
  }

  lemma SameBehind(source: bytes, h: nat, tail: bytes)
    requires h <= CHUNK <= |source|
    ensures source[h..CHUNK] + tail == source[h..] <==> tail == source[CHUNK..]
  {
    assert source[h..] == source[h..CHUNK] + source[CHUNK..];
    if source[h..CHUNK] + tail == source[h..] {
      assert (source[h..CHUNK] + tail)[CHUNK - h..] == tail && source[h..][CHUNK - h..] == source[CHUNK..];
    }
  }

  // ----- a plain upload of two runs -----

  /** One chunk of the file, death, and a second run that sends the rest; no key, and any two names. */
  function PlainRuns(key: string, first: string, second: string, total: nat): seq<Event>
    requires total > CHUNK
  {
    var u := Entry(key, 0, first, total, "", [], 0);
    [Start(0, [], key, first, false, false, "", [], 0, 0),
     Send(0, 0, CHUNK, total, CALM.(arrived := CHUNK)),
     Die(0),
     Start(1, [u], key, second, false, false, "", [], 1, 0)] + SendRest(1, CHUNK, total)
  }

  function PlainTakenUp(env: Env, key: string, first: string, second: string): World
    requires |env.content(key)| > CHUNK
  {
    var file := env.content(key);
    var u := Entry(key, 0, first, |file|, "", [], 0);
    World({u}, map[0 := Session(u, Spool(|file|, true, true, file[..CHUNK], []), first)], map[1 := Run(key, second, 0, "", [])])
  }

  lemma PlainTakingUp(env: Env, key: string, first: string, second: string)
    requires EnvOk(env) && |env.content(key)| > CHUNK
    ensures var total := |env.content(key)|;
      After(env, NEW_WORLD, PlainRuns(key, first, second, total))
      == After(env, PlainTakenUp(env, key, first, second), SendRest(1, CHUNK, total))
  {
    var file := env.content(key);
    var es, rest := PlainRuns(key, first, second, |file|), SendRest(1, CHUNK, |file|);
    var u := Entry(key, 0, first, |file|, "", [], 0);
    MakesItsOwnOtherwise(env, NEW_WORLD, es[0]);
    var w1 := Step(env, NEW_WORLD, es[0]);
    PlainFirstChunk(env, key, first, w1);
    var w2 := Step(env, w1, es[1]);
    var w3 := Step(env, w2, es[2]);
    assert w3 == w2.(runs := map[]);
    assert [u][0] == u;
    TakesUpWhatItCan(env, w3, es[3], u);
    TwoSteps(env, NEW_WORLD, es[0], es[1], [es[2], es[3]] + rest);
    TwoSteps(env, w2, es[2], es[3], rest);
    assert es == [es[0], es[1]] + ([es[2], es[3]] + rest);
  }

  lemma PlainFirstChunk(env: Env, key: string, first: string, w: World)
    requires |env.content(key)| > CHUNK
    requires var u := Entry(key, 0, first, |env.content(key)|, "", [], 0);
      w == World({u}, map[0 := Session(u, Spool(u.length, true, true, [], []), first)], map[0 := Run(key, first, 0, "", [])])
    ensures var file := env.content(key);
      Step(env, w, Send(0, 0, CHUNK, |file|, CALM.(arrived := CHUNK)))
      == w.(sessions := map[0 := Session(w.sessions[0].entry, Spool(|file|, true, true, file[..CHUNK], []), first)])
  {
    var file := env.content(key);
    WholeChunk(w.sessions[0].spool, 0, CHUNK, file);
    assert From(file, 0) == file && [] + file[..CHUNK] == file[..CHUNK];
  }

  lemma {:induction false} PlainSupplied(env: Env, r: Run, start: nat)
    requires r.e2eKey == "" && start <= |env.content(r.key)|
    ensures Supplied(env, r, start, |env.content(r.key)|) == Some(env.content(r.key)[start..])
    decreases |env.content(r.key)| - start
  {
    var file := env.content(r.key);
    if start < |file| {
      var n := Min(CHUNK, |file| - start);
      PlainSupplied(env, r, start + n);
      assert file[start..][..n] + file[start + n..] == file[start..];
    } else {
      assert file[start..] == [];
    }
  }

  /** The second run goes on where the first was cut off, and the one session stores exactly the file. */
  lemma PlainIsResumed(env: Env, key: string, first: string, second: string)
    requires EnvOk(env) && |env.content(key)| > CHUNK
    ensures var last := After(env, NEW_WORLD, PlainRuns(key, first, second, |env.content(key)|));
      0 in last.sessions && last.sessions.Keys == {0} && last.sessions[0].spool.objects == [env.content(key)]
  {
    var file := env.content(key);
    PlainTakingUp(env, key, first, second);
    RestOutcome(env, PlainTakenUp(env, key, first, second), 1, 0, CHUNK, |file|);
    PlainSupplied(env, Run(key, second, 0, "", []), CHUNK);
    assert file[..CHUNK] + file[CHUNK..] == file;
    NoNewSessions(env, PlainTakenUp(env, key, first, second), 1, CHUNK, |file|);
  }

  lemma {:induction false} NoNewSessions(env: Env, w: World, run: nat, start: nat, total: nat)
    ensures After(env, w, SendRest(run, start, total)).sessions.Keys == w.sessions.Keys
    decreases total - start
  {
    if start < total {
      var n := Min(CHUNK, total - start);
      var e := Send(run, start, n, total, CALM.(arrived := n));
      RestUnfolds(env, w, run, start, n, total);
      assert Step(env, w, e).sessions.Keys == w.sessions.Keys;
      NoNewSessions(env, Step(env, w, e), run, start + n, total);
    }
  }

  // ----- a name that breaks the upload -----

  const ZEROS: bytes := [0, 0, 0, 0, 0, 0, 0]

  function ShortOrLong(name: string): bytes {
    if name == "a" then [1] else [1, 1]
  }

  /** Everything that is sealed for the file under the two names: the chunks are the same. */
  function SealedFor(file: bytes): seq<Message> {
    [Message(Nonce(ZEROS, 0, false), [1]), Message(Nonce(ZEROS, 0, false), [1, 1])] + Messages(ZEROS, file, 1)
  }

  function EnvFor(file: bytes): Env {
    Env(k => file, ShortOrLong, k => LogCipher(SealedFor(file)), k => true)
  }

  const ANYTHING: bytes -> bool := _ => true

  lemma CipherFits(file: bytes, name: string)
    ensures EnvOk(EnvFor(file)) && HasSource(EnvFor(file), "k", ZEROS, name)
    ensures var s := StreamFor(EnvFor(file), "k", ZEROS, name);
      OpensLog(s.aead, s.Log(file)) && E2EDecrypt.IdealPayload(s, file)
  {
    IdealCiphersExist(SealedFor(file));
    HeaderSizes(EnvFor(file), "k", ZEROS, name);
    var s := StreamFor(EnvFor(file), "k", ZEROS, name);
    forall m <- s.Log(file) ensures m in SealedFor(file) {}
  }

  lemma EndOfPayload(a: Aead, file: bytes)
    requires Sized(a) && file != []
    ensures var index := ChunkCount(|file|) - 1;
      && index * CHUNK_SIZE < |file| <= (index + 1) * CHUNK_SIZE
      && index * CHUNK_CIPHER_SIZE <= |Chunks(a, ZEROS, file, 1)|
      && Chunks(a, ZEROS, file, 1)[index * CHUNK_CIPHER_SIZE..]
         == a.seal(Nonce(ZEROS, (1 + index) % UINT32, true), file[index * CHUNK_SIZE..])
  {
    var index := ChunkCount(|file|) - 1;
    ChunksFrom(a, ZEROS, file, 1, index);
    ChunksLast(a, ZEROS, file[index * CHUNK_SIZE..], (1 + index) % UINT32);
  }

  /** Counted from the end, a byte of the tail is that byte of the whole. */
  lemma FromTheEnd(whole: bytes, from: nat, k: nat)
    requires from <= |whole| && 0 < k <= |whole| - from
    ensures whole[from..][|whole[from..]| - k] == whole[|whole| - k]
  {
  }

  lemma BeforeTheTag(last: bytes, k: nat)
    requires 0 < k <= |last|
    ensures var c := last + seq(TAG_SIZE, _ => 0); c[|c| - TAG_SIZE - k] == last[|last| - k]
  {
  }

  /** The last byte of the file stands seventeen bytes before the end, the one before it eighteen. */
  lemma LastBytes(file: bytes, name: string, k: nat)
    requires |file| > 0 && |file| % CHUNK_SIZE != 1 && 1 <= k <= 2
    ensures HasSource(EnvFor(file), "k", ZEROS, name)
    ensures var c := Source(EnvFor(file), "f", "k", ZEROS, name);
      |file| >= 2 && |c| > 18 && c[|c| - TAG_SIZE - k] == file[|file| - k]
  {
    CipherFits(file, name);
    var s := StreamFor(EnvFor(file), "k", ZEROS, name);
    var index, payload := ChunkCount(|file|) - 1, Chunks(s.aead, ZEROS, file, 1);
    var c, last := s.Ciphertext(file), file[index * CHUNK_SIZE..];
    EndOfPayload(s.aead, file);
    LastHasTwo(|file|);
    var end := payload[index * CHUNK_CIPHER_SIZE..];
    assert end == last + seq(TAG_SIZE, _ => 0);
    BeforeTheTag(last, k);
    FromTheEnd(file, index * CHUNK_SIZE, k);
    FromTheEnd(payload, index * CHUNK_CIPHER_SIZE, TAG_SIZE + k);
    assert c[|s.Header()|..] == payload;
    FromTheEnd(c, |s.Header()|, TAG_SIZE + k);
  }

  lemma LastHasTwo(n: nat)
    requires n > 0 && n % CHUNK_SIZE != 1
    ensures n - (ChunkCount(n) - 1) * CHUNK_SIZE >= 2
  {
  }

  lemma TwoLengths(file: bytes)
    requires |file| >= RESUMABLE_THRESHOLD
    ensures EnvOk(EnvFor(file)) && HasSource(EnvFor(file), "k", ZEROS, "a") && HasSource(EnvFor(file), "k", ZEROS, "b")
    ensures |file| + 2 * TAG_SIZE < |Source(EnvFor(file), "f", "k", ZEROS, "a")|
    ensures |Source(EnvFor(file), "f", "k", ZEROS, "b")| == |Source(EnvFor(file), "f", "k", ZEROS, "a")| + 1
    ensures Interruptible(EnvFor(file), "f", "a", "k", ZEROS)
  {
    CipherFits(file, "a");
    CipherFits(file, "b");
    SourceLength(EnvFor(file), "f", "k", ZEROS, "a");
    SourceLength(EnvFor(file), "f", "k", ZEROS, "b");
  }

  lemma DifferAt(source: bytes, other: bytes, from: nat, at: nat)
    requires from <= at < |source| <= |other| && source[at] != other[at]
    ensures other[from..|source|] != source[from..]
  {
    assert other[from..|source|][at - from] == other[at] && source[from..][at - from] == source[at];
  }

  lemma StreamsDiffer(file: bytes)
    requires |file| >= RESUMABLE_THRESHOLD && |file| % CHUNK_SIZE != 1 && file[|file| - 1] != file[|file| - 2]
    requires HasSource(EnvFor(file), "k", ZEROS, "a") && HasSource(EnvFor(file), "k", ZEROS, "b")
    ensures var source, other := Source(EnvFor(file), "f", "k", ZEROS, "a"), Source(EnvFor(file), "f", "k", ZEROS, "b");
      CHUNK <= |source| <= |other| && other[CHUNK..|source|] != source[CHUNK..]
  {
    var source, other := Source(EnvFor(file), "f", "k", ZEROS, "a"), Source(EnvFor(file), "f", "k", ZEROS, "b");
    TwoLengths(file);
    LastBytes(file, "a", 1);
    LastBytes(file, "b", 2);
    DifferAt(source, other, CHUNK, |source| - TAG_SIZE - 1);
  }

  /**
   It happens to every file large enough to be uploaded this way that ends in two
   different bytes, both in its last chunk: interrupted after the client's first
   chunk and taken up under a name with one more byte of metadata, every request
   succeeds, and what is stored never decrypts to a clean end.
   */
  lemma OtherNameBreaks(file: bytes)
    requires |file| >= 16 * 1024 * 1024 && ChunkCount(|file|) < UINT32
    requires |file| % CHUNK_SIZE != 1 && file[|file| - 1] != file[|file| - 2]
    ensures var env := EnvFor(file);
      && Interruptible(env, "f", "a", "k", ZEROS)
      && exists o :: Objects(env, "f", "a", "b", "k", ZEROS) == [o] && NeverClean(env, o)
  {
    var env := EnvFor(file);
    TwoLengths(file);
    StreamsDiffer(file);
    CipherFits(file, "a");
    var source, other := Source(env, "f", "k", ZEROS, "a"), Source(env, "f", "k", ZEROS, "b");
    LongerIsMixed(env, "f", "a", "b", "k", ZEROS);
    MixtureIsCleanIff(env, "f", "a", "b", "k", ZEROS, ANYTHING);
    assert NeverClean(env, source[..CHUNK] + other[CHUNK..|source|]);
  }

  /** Its header opens and its metadata parses, but its chunks end in an error. */
  predicate NeverClean(env: Env, o: bytes) {
    var d := E2EDecrypt.Decrypt(env.cipher("k"), ANYTHING, o);
    d.Ok? && !d.value.body.clean
  }

  /** Such a file: sixteen mebibytes of zeros but for the last byte. */
  lemma SuchAFile()
    ensures var file: bytes := seq(RESUMABLE_THRESHOLD, i => if i == RESUMABLE_THRESHOLD - 1 then 7 else 0);
      && |file| >= 16 * 1024 * 1024 && ChunkCount(|file|) < UINT32
      && |file| % CHUNK_SIZE != 1 && file[|file| - 1] != file[|file| - 2]
  {
  }
}
