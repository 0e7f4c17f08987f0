/**
 One resumable-upload session on the server: its spool file, and what one PATCH
 does to it while it holds the session lock.
 */
module SessionSpool {
  import opened Basics
  import opened ContentRange

  /**
   The session's files. `data` is the spool file; it outlives its directory entry
   (`linked`) for a handler that still has it open. `objects` is what the session
   has had stored.
   */
  datatype Spool = Spool(total: nat, sidecar: bool, linked: bool, data: bytes, objects: seq<bytes>)

  /** Everything outside the handler's control during one locked section. */
  datatype Fault = Fault(
    expired: bool,        // the session is past its time to live
    tempFull: bool,       // the temp quota refuses the chunk
    arrived: nat,         // how much of the body arrives
    readFails: bool,      // the body, or the copy, ends in an error
    truncateFails: bool,  // the roll-back itself fails
    closeFails: bool,     // flushing the spool file fails
    scanFails: bool,      // the virus scan itself fails
    infected: bool,       // the virus scan refuses the completed file
    vanished: bool,       // a sweep unlinks the file while the handler runs
    metaRefused: bool,    // the final metadata check refuses
    refused: bool,        // the final quota check refuses
    storeFails: bool,     // the storage backend refuses
    partStays: bool,      // removing the spool file fails
    sidecarStays: bool)   // removing the sidecar fails

  const CALM := Fault(false, false, 0, false, false, false, false, false, false, false, false, false, false, false)

  datatype Reply =
    | NotFound                     // 404
    | Gone                         // 410
    | BadRequest                   // 400
    | Conflict(offset: nat)        // 409, with the offset the server is at
    | TempExhausted                // 507
    | ChunkIncomplete(offset: nat) // 408
    | ServerError                  // 500
    | Accepted(offset: nat)        // 204
    | Infected                     // 412
    | FinishRefused                // 507
    | Stored                       // 200, with the upload's URLs

  function Unlink(s: Spool, part: bool, sidecar: bool): Spool {
    s.(linked := s.linked && !part, sidecar := s.sidecar && !sidecar)
  }

  /** removeSession: each file is removed or its removal fails and is logged. */
  function RemoveSession(s: Spool, f: Fault): Spool {
    Unlink(s, !f.partStays, !f.sidecarStays)
  }

  /** The bytes of the body the copy gets, at most `want`. */
  function Delivered(body: bytes, want: nat, f: Fault): bytes {
    body[..Min(want, Min(f.arrived, |body|))]
  }

  /** finishUploadSession on a complete spool file. */
  function Finish(s: Spool, f: Fault): (Spool, Reply) {
    if f.scanFails then (RemoveSession(s, f), ServerError)
    else if f.infected then (RemoveSession(s, f), Infected)
    else if f.vanished || !s.linked then (s.(linked := false), ServerError)
    else if f.metaRefused then (s, BadRequest)
    else if f.refused then (s, FinishRefused)
    else if f.storeFails then (s, ServerError)
    else (RemoveSession(s.(objects := s.objects + [s.data]), f), Stored)
  }

  /** The locked part of patchUploadSessionHandler. */
  function Patch(s: Spool, start: nat, end: nat, body: bytes, f: Fault): (Spool, Reply)
    requires start <= end
  {
    var offset, want := |s.data|, end - start + 1;
    if !s.linked then (s, NotFound)
    else if start != offset then (s, Conflict(offset))
    else if f.tempFull then (s, TempExhausted)
    else
      var got := Delivered(body, want, f);
      var appended := s.(data := s.data + got);
      if f.readFails || |got| != want then
        (if f.truncateFails then appended else s, ChunkIncomplete(offset))
      else if f.closeFails then (appended, ServerError)
      else if offset + want < s.total then (appended, Accepted(offset + want))
      else Finish(appended, f)
  }

  /** A request whose header says `span`: the session is opened before the lock is taken. */
  function Serve(s: Spool, span: Span, body: bytes, f: Fault): (Spool, Reply)
    requires span.start <= span.end
  {
    if !s.sidecar then (s, NotFound)
    else if f.expired then (RemoveSession(s, f), Gone)
    else if span.total != s.total then (s, BadRequest)
    else Patch(s, span.start, span.end, body, f)
  }

  /** The whole handler, from the header as text. */
  function Handle(s: Spool, range: string, body: bytes, f: Fault): (Spool, Reply) {
    match Parse(range)
    case Ok(span) => Serve(s, span, body, f)
    case Err(_) =>
      if !s.sidecar then (s, NotFound) else if f.expired then (RemoveSession(s, f), Gone) else (s, BadRequest)
  }

  // ----- the handler as code -----

  class UploadSession {
    const total: nat
    var sidecar: bool
    var linked: bool
    var part: bytes
    var objects: seq<bytes>

    constructor (total: nat)
      ensures View() == Spool(total, true, true, [], [])
    {
      this.total := total;
      sidecar, linked := true, true;
      part, objects := [], [];
    }

    ghost function View(): Spool
      reads this
    {
      Spool(total, sidecar, linked, part, objects)
    }

    method Remove(f: Fault)
      modifies this
      ensures View() == RemoveSession(old(View()), f)
    {
      if !f.partStays {
        linked := false;
      }
      if !f.sidecarStays {
        sidecar := false;
      }
    }

    method FinishUpload(f: Fault) returns (reply: Reply)
      modifies this
      ensures (View(), reply) == Finish(old(View()), f)
    {
      if f.scanFails || f.infected {
        Remove(f);
        return if f.scanFails then ServerError else Infected;
      }
      if f.vanished {
        linked := false;
      }
      if !linked {
        return ServerError;
      }
      if f.metaRefused {
        return BadRequest;
      }
      if f.refused {
        return FinishRefused;
      }
      if f.storeFails {
        return ServerError;
      }
      objects := objects + [part];
      Remove(f);
      reply := Stored;
    }

    /** The handler up to the lock: the session is opened, the header parsed, the total compared. */
    method PatchChunk(range: string, body: bytes, f: Fault) returns (reply: Reply)
      modifies this
      ensures (View(), reply) == Handle(old(View()), range, body, f)
    {
      if !sidecar {
        return NotFound;
      }
      if f.expired {
        Remove(f);
        return Gone;
      }
      var parsed := Parse(range);
      if parsed.Err? {
        return BadRequest;
      }
      if parsed.value.total != total {
        return BadRequest;
      }
      reply := PatchLocked(parsed.value.start, parsed.value.end, body, f);
    }

    /** Appends one chunk or, whatever goes wrong, reports the offset it started from. */
    method PatchLocked(start: nat, end: nat, body: bytes, f: Fault) returns (reply: Reply)
      requires start <= end
      modifies this
      ensures (View(), reply) == Patch(old(View()), start, end, body, f)
    {
      if !linked {
        return NotFound;
      }
      var offset, want := |part|, end - start + 1;
      if start != offset {
        return Conflict(offset);
      }
      if f.tempFull {
        return TempExhausted;
      }
      ghost var before := part;
      var written := CopyBody(body, want, f);
      if f.readFails || written != want {
        if !f.truncateFails {
          part := part[..offset];
          assert part == before;
        }
        return ChunkIncomplete(offset);
      }
      if f.closeFails {
        return ServerError;
      }
      if offset + written < total {
        return Accepted(offset + written);
      }
      reply := FinishUpload(f);
    }

    /** io.Copy from the limited body: block by block until the body or the limit ends. */
    method CopyBody(body: bytes, want: nat, f: Fault) returns (written: nat)
      modifies `part
      ensures part == old(part) + Delivered(body, want, f)
      ensures written == |Delivered(body, want, f)|
    {
      var limit := Min(want, Min(f.arrived, |body|));
      written := 0;
      while written < limit
        invariant written <= limit
        invariant part == old(part) + body[..written]
      {
        var block := Min(32 * 1024, limit - written);
        assert body[..written] + body[written .. written + block] == body[..written + block];
        part := part + body[written .. written + block];
        written := written + block;
      }
    }
  }

  // ----- what every request keeps -----

  /** The spool is a prefix of what the client uploads; at most one object was stored, and it is all of it. */
  predicate Sound(source: bytes, s: Spool) {
    && s.total == |source| && s.data <= source
    && |s.objects| <= 1 && (s.objects != [] ==> s.objects == [source] && s.data == source)
  }

  /** The body of a request whose range starts at `start` comes from the client's source. */
  predicate BodyFrom(source: bytes, start: nat, body: bytes) {
    start <= |source| && body <= source[start..]
  }

  lemma AppendPrefix(source: bytes, data: bytes, got: bytes)
    requires data <= source && got <= source[|data|..]
    ensures data + got <= source
  {
    assert source == data + source[|data|..];
  }

  /** A complete file that is gone when it is opened again is not stored, and the session stays without it. */
  lemma VanishedIsNotStored(s: Spool, f: Fault)
    requires (f.vanished || !s.linked) && !f.scanFails && !f.infected
    ensures Finish(s, f) == (s.(linked := false), ServerError)
  {
  }

  lemma FinishKeeps(source: bytes, s: Spool, f: Fault)
    requires Sound(source, s) && |s.data| == s.total && s.objects == []
    ensures var (s', reply) := Finish(s, f);
      && Sound(source, s') && s'.data == s.data && (reply == Stored ==> s'.objects == [source])
      && !reply.Accepted? && !reply.Conflict?
  {
    assert s.data == source;
    if (f.vanished || !s.linked) && !f.scanFails && !f.infected {
      VanishedIsNotStored(s, f);
    }
  }

  /** 204 and 409 report the true length. */
  lemma OffsetsAreTrue(s: Spool, start: nat, end: nat, body: bytes, f: Fault)
    requires start <= end < s.total
    ensures var (s', reply) := Patch(s, start, end, body, f);
      && (reply.Accepted? ==> reply.offset == end + 1 == |s'.data| && start == |s.data| && |s'.data| < s.total)
      && (reply.Conflict? ==> reply.offset == |s.data| && s' == s)
  {
  }

  /** One request, whatever happens to it: the spool only grows, and the reply tells the truth. */
  lemma PatchKeeps(source: bytes, s: Spool, start: nat, end: nat, body: bytes, f: Fault)
    requires Sound(source, s) && start <= end < s.total && BodyFrom(source, start, body)
    ensures var (s', reply) := Patch(s, start, end, body, f);
      && Sound(source, s') && s.data <= s'.data && s.objects <= s'.objects
      && (reply == Stored ==> s'.objects == [source])
      && (reply.Accepted? ==> reply.offset == end + 1 == |s'.data| && start == |s.data| && |s'.data| < s.total)
      && (reply.Conflict? ==> reply.offset == |s.data| && s' == s)
  {
    var want := end - start + 1;
    var got := Delivered(body, want, f);
    OffsetsAreTrue(s, start, end, body, f);
    if s.linked && start == |s.data| && !f.tempFull {
      AppendPrefix(source, s.data, got);
      var appended := s.(data := s.data + got);
      assert Sound(source, appended);
      if |appended.data| == s.total {
        FinishKeeps(source, appended, f);
      }
    }
  }

  /** Whatever total a request declares: if it is the session's, the body has to be the source's. */
  lemma ServeIsSound(source: bytes, s: Spool, span: Span, body: bytes, f: Fault)
    requires Sound(source, s) && span.start <= span.end < span.total
    requires span.total == s.total ==> BodyFrom(source, span.start, body)
    ensures Sound(source, Serve(s, span, body, f).0)
  {
    if span.total == s.total {
      PatchKeeps(source, s, span.start, span.end, body, f);
    }
  }

  /**
   A chunk is all or nothing, and the reply says which: the spool gains either
   nothing or exactly the announced bytes, and it gains nothing exactly when
   the reply is one of the four that ask the client to try again.
   */
  lemma ChunkIsAllOrNothing(s: Spool, start: nat, end: nat, body: bytes, f: Fault)
    requires start <= end && !f.truncateFails
    ensures var (s', reply) := Patch(s, start, end, body, f);
      var want := end - start + 1;
      && (s'.data == s.data || (start == |s.data| && want <= |body| && s'.data == s.data + body[..want]))
      && (s'.data == s.data <==> reply.NotFound? || reply.Conflict? || reply.TempExhausted? || reply.ChunkIncomplete?)
      && (s'.data == s.data ==> s' == s)
      && (reply.ChunkIncomplete? ==> reply.offset == |s.data| == start)
  {
    var got := Delivered(body, end - start + 1, f);
    if |got| > 0 {
      assert |s.data + got| > |s.data|;
    }
  }

  /** A chunk at the right offset that arrives whole is appended, and the last one is stored. */
  lemma WholeChunk(s: Spool, start: nat, n: nat, body: bytes)
    requires s.sidecar && s.linked && start == |s.data| && n > 0 && start + n <= s.total && n <= |body|
    ensures var kept := s.(data := s.data + body[..n]);
      Serve(s, Span(start, start + n - 1, s.total), body, CALM.(arrived := n)) ==
      if start + n < s.total then (kept, Accepted(start + n))
      else (Spool(s.total, false, false, kept.data, s.objects + [kept.data]), Stored)
  {
    assert Delivered(body, n, CALM.(arrived := n)) == body[..n];
  }

  /** A chunk whose body falls short is rolled back. */
  lemma ShortChunk(s: Spool, start: nat, n: nat, body: bytes)
    requires s.sidecar && s.linked && start == |s.data| && n > 0 && |body| < n
    ensures Serve(s, Span(start, start + n - 1, s.total), body, CALM.(arrived := n)) == (s, ChunkIncomplete(start))
  {
  }

  // ----- after the session is complete, or removed -----

  datatype Request = Request(span: Span, body: bytes, f: Fault)

  /** The header check lets nothing else through. */
  predicate Valid(r: Request) {
    r.span.start <= r.span.end < r.span.total
  }

  function ServeAll(s: Spool, rs: seq<Request>): Spool
    requires forall r <- rs :: Valid(r)
    decreases |rs|
  {
    if rs == [] then s
    else
      assert Valid(rs[0]);
      ServeAll(Serve(s, rs[0].span, rs[0].body, rs[0].f).0, rs[1..])
  }

  /** The spool holds every byte, or one of its files is gone. */
  predicate Closed(s: Spool) {
    |s.data| == s.total || !s.linked || !s.sidecar
  }

  /** No request gets anything into a closed session. */
  lemma ClosedToOne(s: Spool, r: Request)
    requires Closed(s) && Valid(r)
    ensures var (s', reply) := Serve(s, r.span, r.body, r.f);
      && Closed(s') && s'.data == s.data && s'.objects == s.objects
      && (reply.NotFound? || reply.Gone? || reply.BadRequest? || reply == Conflict(|s.data|))
  {
  }

  lemma {:induction false} ClosedToAll(s: Spool, rs: seq<Request>)
    requires Closed(s) && forall r <- rs :: Valid(r)
    ensures ServeAll(s, rs).objects == s.objects && ServeAll(s, rs).data == s.data
    decreases |rs|
  {
    if rs != [] {
      ClosedToOne(s, rs[0]);
      ClosedToAll(Serve(s, rs[0].span, rs[0].body, rs[0].f).0, rs[1..]);
    }
  }

  /**
   The request that completes the spool decides: the object is stored exactly
   when its reply says so, and no later request ever changes that.
   */
  lemma CompletionIsFinal(s: Spool, start: nat, end: nat, body: bytes, f: Fault, rs: seq<Request>)
    requires start <= end < s.total && forall r <- rs :: Valid(r)
    requires |Patch(s, start, end, body, f).0.data| == s.total
    ensures var (s', reply) := Patch(s, start, end, body, f);
      && ServeAll(s', rs).objects == (if reply == Stored then s.objects + [s'.data] else s.objects)
      && (reply == FinishRefused ==> s'.sidecar == s.sidecar && s'.linked == s.linked)
  {
    ClosedToAll(Patch(s, start, end, body, f).0, rs);
  }

  /** A removal that takes at least one of the two files closes the session for every later request. */
  lemma RemovedIsClosed(s: Spool, f: Fault, rs: seq<Request>)
    requires (!f.partStays || !f.sidecarStays) && forall r <- rs :: Valid(r)
    ensures var s' := RemoveSession(s, f);
      ServeAll(s', rs).objects == s.objects && ServeAll(s', rs).data == s.data
  {
    ClosedToAll(RemoveSession(s, f), rs);
  }

  /** A header that parses is served as the span it says. */
  lemma ParsedIsServed(s: Spool, range: string, span: Span, body: bytes, f: Fault)
    requires Parse(range) == Ok(span)
    ensures Handle(s, range, body, f) == Serve(s, span, body, f)
  {
  }

  /** A header that does not parse is refused, and changes nothing but a session past its time. */
  lemma MalformedIsRefused(s: Spool, range: string, body: bytes, f: Fault)
    requires Parse(range).Err?
    ensures var (s', reply) := Handle(s, range, body, f);
      && s'.data == s.data && s'.objects == s.objects
      && (s.sidecar && !f.expired ==> s' == s && reply == BadRequest)
      && (!s.sidecar ==> s' == s && reply == NotFound)
      && (s.sidecar && f.expired ==> s' == RemoveSession(s, f) && reply == Gone)
  {
  }

  /** So a chunk the client announces is served as the client meant it. */
  lemma AnnouncedIsServed(s: Spool, start: nat, n: nat, length: nat, body: bytes, f: Fault)
    requires n > 0 && start + n <= length <= MAX_INT64
    ensures Handle(s, Format(start, n, length), body, f) == Serve(s, Span(start, start + n - 1, length), body, f)
  {
    ParsePrinted(start, n, length);
    ParsedIsServed(s, Format(start, n, length), Span(start, start + n - 1, length), body, f);
  }
}
