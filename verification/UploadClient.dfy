/** The client's upload loop, against the session on the server and an adversarial network. */
module UploadClient {
  import opened Basics
  import opened ContentRange
  import opened SessionSpool

  const UPLOAD_CHUNK_SIZE := 8388608
  const UPLOAD_CHUNK_ATTEMPTS := 5

  // ----- what can happen around one turn of the loop -----

  /** Requests of others: duplicates and late arrivals of earlier runs, deletions, sweeps. */
  datatype Other = OtherPatch(start: nat, n: nat, f: Fault) | Unlinked(part: bool, sidecar: bool)

  datatype Turn = Turn(
    before: seq<Other>,     // what reaches the server before this chunk
    sourceFails: bool,      // the chunk source cannot be read
    requestLost: bool,      // the request never arrives
    f: Fault,               // what happens to it on the server
    replyLost: bool,        // the reply never arrives
    cancelled: bool,        // the caller gives up before the chunk,
    cancelledAfter: bool,   // after it,
    cancelledWaiting: bool, // or while waiting to try again
    between: seq<Other>,    // what reaches the server before the status request
    statusLost: bool,       // the status request or its reply is lost
    inFlight: nat)          // bytes a running request has in the spool when status reads its size

  datatype UploadError =
    | Cancelled
    | ConfirmationLost
    | Transport
    | OffsetConflict(offset: nat)
    | Status(code: nat)

  datatype ChunkResult = Finished | Moved(offset: nat) | Failed(error: UploadError)

  function OtherStep(source: bytes, s: Spool, o: Other): Spool {
    match o
    case OtherPatch(start, n, f) =>
      if n > 0 && s.sidecar && start + n <= s.total && s.total == |source|
      then Patch(s, start, start + n - 1, source[start..], f).0
      else s
    case Unlinked(part, sidecar) => Unlink(s, part, sidecar)
  }

  function Others(source: bytes, s: Spool, os: seq<Other>): Spool
    decreases |os|
  {
    if os == [] then s else Others(source, OtherStep(source, s, os[0]), os[1..])
  }

  function ReplyStatus(r: Reply): ChunkResult {
    match r
    case NotFound => Failed(Status(404))
    case Gone => Failed(Status(410))
    case BadRequest => Failed(Status(400))
    case Conflict(offset) => Failed(OffsetConflict(offset))
    case TempExhausted => Failed(Status(507))
    case ChunkIncomplete(_) => Failed(Status(408))
    case ServerError => Failed(Status(500))
    case Accepted(offset) => Moved(offset)
    case Infected => Failed(Status(412))
    case FinishRefused => Failed(Status(507))
    case Stored => Finished
  }

  /**
   sendOneChunk: `n` bytes of the source from `start`, to the server and back. The
   server reads the header as the span meant, by SessionSpool.AnnouncedIsServed.
   */
  function SendOneChunk(source: bytes, s: Spool, start: nat, n: nat, length: nat, turn: Turn): (Spool, ChunkResult)
    requires n > 0 && start + n <= length
  {
    var s1 := Others(source, s, turn.before);
    if turn.sourceFails || turn.requestLost || start > |source| then (s1, Failed(Transport))
    else
      var (s2, reply) := Serve(s1, Span(start, start + n - 1, length), source[start..], turn.f);
      (s2, if turn.replyLost then Failed(Transport) else ReplyStatus(reply))
  }

  /**
   What the network does to one chunk. A lost request changes nothing; a lost reply
   hides what the server has done all the same; otherwise the answer is the server's.
   */
  lemma LossesAreLosses(source: bytes, s: Spool, start: nat, n: nat, length: nat, turn: Turn)
    requires n > 0 && start + n <= length && turn.before == []
    ensures var (s', r) := SendOneChunk(source, s, start, n, length, turn);
      && (turn.sourceFails || turn.requestLost ==> s' == s && r == Failed(Transport))
      && (!turn.sourceFails && !turn.requestLost && start <= |source| ==>
           var (served, reply) := Serve(s, Span(start, start + n - 1, length), source[start..], turn.f);
           s' == served && r == if turn.replyLost then Failed(Transport) else ReplyStatus(reply))
  {
  }

  /** A request of others that is well-formed is served like any other: the client is not alone. */
  lemma OthersAreServed(source: bytes, s: Spool, start: nat, n: nat, f: Fault)
    requires s.sidecar && n > 0 && start + n <= s.total == |source|
    ensures OtherStep(source, s, OtherPatch(start, n, f)) == Patch(s, start, start + n - 1, source[start..], f).0
  {
  }

  /** SessionStatus reads the size without the lock, so it may see part of a running chunk. */
  function SessionStatus(s: Spool, turn: Turn): Option<nat> {
    if turn.statusLost || !s.sidecar || !s.linked then None
    else Some(|s.data| + turn.inFlight)
  }

  /** retryableUploadError. */
  predicate Retryable(e: UploadError) {
    e.Status? ==> e.code == 408 || e.code >= 500
  }

  // ----- what each part keeps -----

  lemma BodyOk(source: bytes, start: nat)
    requires start <= |source|
    ensures BodyFrom(source, start, source[start..])
  {
  }

  lemma {:induction false} OthersKeep(source: bytes, s: Spool, os: seq<Other>)
    requires Sound(source, s)
    ensures Sound(source, Others(source, s, os)) && s.data <= Others(source, s, os).data
    ensures s.objects <= Others(source, s, os).objects
    decreases |os|
  {
    if os != [] {
      var o := os[0];
      if o.OtherPatch? && o.n > 0 && o.start + o.n <= s.total {
        BodyOk(source, o.start);
        if s.sidecar {
          OthersAreServed(source, s, o.start, o.n, o.f);
        }
        PatchKeeps(source, s, o.start, o.start + o.n - 1, source[o.start..], o.f);
      }
      OthersKeep(source, OtherStep(source, s, o), os[1..]);
    }
  }

  /** The chunks of eight mebibytes the server still lacks. */
  function Lacking(source: bytes, s: Spool): nat
    requires Sound(source, s)
  {
    (|source| - |s.data| + 8 * 1024 * 1024 - 1) / (8 * 1024 * 1024)
  }

  lemma LackingShrinks(source: bytes, s: Spool, s': Spool)
    requires Sound(source, s) && Sound(source, s') && |s.data| <= |s'.data|
    ensures Lacking(source, s') <= Lacking(source, s)
    ensures |s'.data| >= |s.data| + UPLOAD_CHUNK_SIZE ==> Lacking(source, s') + 1 <= Lacking(source, s)
    ensures |s'.data| < |source| ==> Lacking(source, s') >= 1
  {
  }

  lemma ServeKeeps(source: bytes, s: Spool, start: nat, n: nat, length: nat, f: Fault)
    requires Sound(source, s) && n > 0 && start + n <= length && start <= |source|
    ensures var (s', reply) := Serve(s, Span(start, start + n - 1, length), source[start..], f);
      && Sound(source, s') && s.data <= s'.data && s.objects <= s'.objects
      && (reply == Stored ==> s'.objects == [source])
      && (reply.Accepted? ==>
           reply.offset == start + n == |s'.data| < |source| && |s.data| <= start && length == |source|)
  {
    if s.sidecar && !f.expired && length == s.total {
      BodyOk(source, start);
      PatchKeeps(source, s, start, start + n - 1, source[start..], f);
    }
  }

  /** One chunk: nothing the server holds is lost, and its answers can be believed. */
  lemma ChunkKeeps(source: bytes, s: Spool, start: nat, n: nat, length: nat, turn: Turn)
    requires Sound(source, s) && n > 0 && start + n <= length
    ensures var (s', r) := SendOneChunk(source, s, start, n, length, turn);
      && Sound(source, s') && s.data <= s'.data && s.objects <= s'.objects
      && (r.Finished? ==> s'.objects == [source])
      && (r.Moved? ==> r.offset == start + n == |s'.data| < |source| && |s.data| <= start && length == |source|)
  {
    var s1 := Others(source, s, turn.before);
    OthersKeep(source, s, turn.before);
    if start <= |source| {
      ServeKeeps(source, s1, start, n, length, turn.f);
    }
  }

  // ----- the loop -----

  /** A turn in which nothing goes wrong and nobody interferes. */
  predicate Smooth(turn: Turn) {
    && turn.before == [] && !turn.sourceFails && !turn.requestLost && !turn.replyLost && !turn.cancelled
    && turn.f == CALM.(arrived := turn.f.arrived) && turn.f.arrived >= UPLOAD_CHUNK_SIZE
  }

  /** The session is open and unfinished, and the client knows where it is. */
  predicate InStep(source: bytes, s: Spool, offset: nat, length: nat) {
    s.sidecar && s.linked && s.objects == [] && offset == |s.data| < |source| == length
  }

  lemma SmoothServe(source: bytes, s: Spool, start: nat, n: nat, f: Fault)
    requires Sound(source, s) && s.sidecar && s.linked && s.objects == []
    requires f == CALM.(arrived := f.arrived) && f.arrived >= UPLOAD_CHUNK_SIZE
    requires start == |s.data| && 0 < n <= UPLOAD_CHUNK_SIZE && start + n <= |source|
    ensures var (s', reply) := Serve(s, Span(start, start + n - 1, |source|), source[start..], f);
      if start + n < |source|
      then reply == Accepted(start + n) && s'.sidecar && s'.linked && s'.objects == [] && |s'.data| == start + n
      else reply == Stored
  {
    assert |Delivered(source[start..], n, f)| == n;
  }

  lemma SmoothChunk(source: bytes, s: Spool, start: nat, n: nat, turn: Turn)
    requires Sound(source, s) && Smooth(turn) && s.sidecar && s.linked && s.objects == []
    requires start == |s.data| && 0 < n <= UPLOAD_CHUNK_SIZE && start + n <= |source|
    ensures var (s', r) := SendOneChunk(source, s, start, n, |source|, turn);
      if start + n < |source|
      then r == Moved(start + n) && s'.sidecar && s'.linked && s'.objects == [] && |s'.data| == start + n
      else r == Finished
  {
    SmoothServe(source, s, start, n, turn.f);
  }

  /** The server has lost nothing. */
  predicate Gained(source: bytes, s: Spool, s': Spool)
    requires Sound(source, s)
  {
    Sound(source, s') && s.data <= s'.data && s.objects <= s'.objects && Lacking(source, s') <= Lacking(source, s)
  }

  lemma GainedTwice(source: bytes, s: Spool, s1: Spool, s2: Spool)
    requires Sound(source, s) && Gained(source, s, s1) && Gained(source, s1, s2)
    ensures Gained(source, s, s2)
  {
  }

  lemma OthersGain(source: bytes, s: Spool, os: seq<Other>)
    requires Sound(source, s)
    ensures Gained(source, s, Others(source, s, os))
  {
    OthersKeep(source, s, os);
    LackingShrinks(source, s, Others(source, s, os));
  }

  /** One turn of the loop in chunks: none is lost, and a new offset means one less to send, with one still to come. */
  lemma ChunkGains(source: bytes, s: Spool, start: nat, n: nat, length: nat, turn: Turn)
    requires Sound(source, s) && start < length && n == Min(UPLOAD_CHUNK_SIZE, length - start)
    ensures var (s', r) := SendOneChunk(source, s, start, n, length, turn);
      && Gained(source, s, s')
      && (r.Finished? ==> s'.objects == [source])
      && (r.Moved? ==> 1 <= Lacking(source, s') <= Lacking(source, s) - 1 && |s'.data| > |s.data|)
  {
    ChunkKeeps(source, s, start, n, length, turn);
    LackingShrinks(source, s, SendOneChunk(source, s, start, n, length, turn).0);
  }

  // ----- the loop, and the results it sees -----

  /** How the loop ends: its answer, the session on the server, and the result of every chunk request in order. */
  datatype Ending = Ending(r: Result<(), UploadError>, spool: Spool, trace: seq<ChunkResult>)

  function Traced(result: ChunkResult, later: Ending): Ending {
    later.(trace := [result] + later.trace)
  }

  /** Where to go on: where the status says, or else where a conflict said. */
  function NextOffset(at: nat, error: UploadError, status: Option<nat>): nat {
    if status.Some? then status.value else if error.OffsetConflict? then error.offset else at
  }

  /** The loop goes on after this result without having moved. */
  predicate Repeats(attempts: nat, turn: Turn, result: ChunkResult) {
    result.Failed? && !turn.cancelledAfter && (result.error.OffsetConflict? || Retryable(result.error))
    && attempts + 1 < UPLOAD_CHUNK_ATTEMPTS && !turn.cancelledWaiting
  }

  /** One turn: the loop stops with an answer, or goes on from an offset with so many failures behind it. */
  datatype Move = Stop(r: Result<(), UploadError>) | Go(at: nat, attempts: nat)

  function OneTurn(source: bytes, s: Spool, at: nat, length: nat, attempts: nat, turn: Turn): (Spool, ChunkResult, Move)
    requires Sound(source, s) && attempts < UPLOAD_CHUNK_ATTEMPTS && at < length
  {
    var (s1, result) := SendOneChunk(source, s, at, Min(UPLOAD_CHUNK_SIZE, length - at), length, turn);
    match result
    case Finished => (s1, result, Stop(Ok(())))
    case Moved(to) => (s1, result, Go(to, 0))
    case Failed(error) =>
      if turn.cancelledAfter then (s1, result, Stop(Err(Cancelled)))
      else if !Repeats(attempts, turn.(cancelledWaiting := false), result) then (s1, result, Stop(Err(error)))
      else if turn.cancelledWaiting then (s1, result, Stop(Err(Cancelled)))
      else
        var s2 := Others(source, s1, turn.between);
        (s2, result, Go(NextOffset(at, error, SessionStatus(s2, turn)), attempts + 1))
  }

  /** What one turn keeps, and what its result means for the loop. */
  lemma TurnKeeps(source: bytes, s: Spool, at: nat, length: nat, attempts: nat, turn: Turn)
    requires Sound(source, s) && attempts < UPLOAD_CHUNK_ATTEMPTS && at < length
    ensures var (s', result, move) := OneTurn(source, s, at, length, attempts, turn);
      && Gained(source, s, s')
      && (result.Finished? ==> move == Stop(Ok(())) && s'.objects == [source])
      && (result.Moved? ==> move == Go(result.offset, 0) && |s'.data| > |s.data|
                            && 1 <= Lacking(source, s') <= Lacking(source, s) - 1)
      && (result.Failed? && move.Go? ==> move.attempts == attempts + 1 < UPLOAD_CHUNK_ATTEMPTS)
      && (result.Failed? && move.Stop? ==> move.r.Err?)
  {
    var n := Min(UPLOAD_CHUNK_SIZE, length - at);
    var (s1, result) := SendOneChunk(source, s, at, n, length, turn);
    ChunkGains(source, s, at, n, length, turn);
    OthersGain(source, s1, turn.between);
    GainedTwice(source, s, s1, Others(source, s1, turn.between));
  }

  /** UploadSession from its turn `i` on; `world` is what happens around each turn. */
  function Drive(source: bytes, s: Spool, at: nat, length: nat, attempts: nat, i: nat, world: nat -> Turn): Ending
    requires Sound(source, s) && attempts < UPLOAD_CHUNK_ATTEMPTS
    decreases |source| - |s.data|, UPLOAD_CHUNK_ATTEMPTS - attempts
  {
    if world(i).cancelled then Ending(Err(Cancelled), s, [])
    else if at >= length then Ending(Err(ConfirmationLost), s, [])
    else
      TurnKeeps(source, s, at, length, attempts, world(i));
      var (s', result, move) := OneTurn(source, s, at, length, attempts, world(i));
      match move
      case Stop(r) => Ending(r, s', [result])
      case Go(to, n) => Traced(result, Drive(source, s', to, length, n, i + 1, world))
  }

  /** Each turn keeps what the server has; a result means that the whole source is stored. */
  lemma {:induction false} DriveKeeps(source: bytes, s: Spool, at: nat, length: nat, attempts: nat, i: nat, world: nat -> Turn)
    requires Sound(source, s) && attempts < UPLOAD_CHUNK_ATTEMPTS
    ensures var e := Drive(source, s, at, length, attempts, i, world);
      Gained(source, s, e.spool) && (e.r.Ok? ==> e.spool.objects == [source])
    decreases |source| - |s.data|, UPLOAD_CHUNK_ATTEMPTS - attempts
  {
    if !world(i).cancelled && at < length {
      TurnKeeps(source, s, at, length, attempts, world(i));
      var (s', result, move) := OneTurn(source, s, at, length, attempts, world(i));
      if move.Go? {
        DriveKeeps(source, s', move.at, length, move.attempts, i + 1, world);
        GainedTwice(source, s, s', Drive(source, s', move.at, length, move.attempts, i + 1, world).spool);
      }
    }
  }

  /** Whoever gives up after a failed chunk, or while waiting to repeat it, is heard. */
  lemma CancelIsHeard(source: bytes, s: Spool, at: nat, length: nat, attempts: nat, turn: Turn)
    requires Sound(source, s) && attempts < UPLOAD_CHUNK_ATTEMPTS && at < length
    ensures var (_, result, move) := OneTurn(source, s, at, length, attempts, turn);
      && (result.Failed? && turn.cancelledAfter ==> move == Stop(Err(Cancelled)))
      && (result.Failed? && turn.cancelledWaiting && WorthAnotherTry(result.error) && attempts < 4 ==> move == Stop(Err(Cancelled)))
  {
  }

  /** The status is the size of the spool file, while the session is there and the request is not lost. */
  lemma StatusIff(s: Spool, turn: Turn)
    ensures SessionStatus(s, turn).Some? <==> !turn.statusLost && s.sidecar && s.linked
    ensures SessionStatus(s, turn).Some? ==> SessionStatus(s, turn).value == |s.data| + turn.inFlight
  {
  }

  /** The next chunk starts where the status says, else where a conflict said, else where the last one did. */
  lemma NextOffsetIs(at: nat, error: UploadError, n: nat)
    ensures NextOffset(at, error, Some(n)) == n
    ensures NextOffset(at, OffsetConflict(n), None) == n
    ensures !error.OffsetConflict? ==> NextOffset(at, error, None) == at
  {
  }

  /** At most five requests for each chunk the server lacks, less those that have failed already. */
  lemma {:induction false} DriveBound(source: bytes, s: Spool, at: nat, length: nat, attempts: nat, i: nat, world: nat -> Turn)
    requires Sound(source, s) && attempts < UPLOAD_CHUNK_ATTEMPTS
    ensures |Drive(source, s, at, length, attempts, i, world).trace| + attempts <= UPLOAD_CHUNK_ATTEMPTS * Max(1, Lacking(source, s))
    decreases |source| - |s.data|, UPLOAD_CHUNK_ATTEMPTS - attempts
  {
    if !world(i).cancelled && at < length {
      TurnKeeps(source, s, at, length, attempts, world(i));
      var (s', result, move) := OneTurn(source, s, at, length, attempts, world(i));
      if move.Go? {
        DriveBound(source, s', move.at, length, move.attempts, i + 1, world);
      }
    }
  }

  // ----- when it gives up -----

  /** A connection that broke, a moved offset, a body cut short, or a fault of the server: another try may help. */
  predicate WorthAnotherTry(e: UploadError) {
    match e
    case Transport => true
    case OffsetConflict(_) => true
    case Status(code) => code == 408 || code >= 500
    case Cancelled => false
    case ConfirmationLost => false
  }

  /** `count` failures in a row, from that request on. */
  predicate FailedRun(trace: seq<ChunkResult>, from: nat, count: nat) {
    from + count <= |trace| && forall k | from <= k < from + count :: trace[k].Failed?
  }

  /**
   What the results say about the end. A request that cannot succeed ends the loop
   at once, one that may is repeated; it is given up after the fifth failure in a
   row, and only then.
   */
  ghost predicate EndsAsItShould(e: Ending, attempts: nat)
    requires attempts < UPLOAD_CHUNK_ATTEMPTS
  {
    var n := |e.trace|;
    && (forall k | 0 <= k < n - 1 :: e.trace[k].Moved? || (e.trace[k].Failed? && WorthAnotherTry(e.trace[k].error)))
    && (e.r.Ok? <==> n > 0 && e.trace[n - 1].Finished?)
    && (e.r.Err? && !e.r.error.Cancelled? && !e.r.error.ConfirmationLost? ==> n > 0 && e.trace[n - 1] == Failed(e.r.error))
    && (e.r.Err? && WorthAnotherTry(e.r.error) ==>
         (n >= 5 && FailedRun(e.trace, n - 5, 5)) || (n == 5 - attempts && FailedRun(e.trace, 0, n)))
    && (forall k: nat :: FailedRun(e.trace, k, 5) ==> k + 5 == n)
    && (FailedRun(e.trace, 0, 5 - attempts) ==> n == 5 - attempts)
  }

  lemma RunWithFirst(first: ChunkResult, later: seq<ChunkResult>, from: nat, count: nat)
    ensures from > 0 ==> (FailedRun([first] + later, from, count) <==> FailedRun(later, from - 1, count))
    ensures count > 0 ==> (FailedRun([first] + later, 0, count) <==> first.Failed? && FailedRun(later, 0, count - 1))
  {
    var trace := [first] + later;
    assert trace[0] == first && forall k | 0 < k < |trace| :: trace[k] == later[k - 1];
    if from > 0 && FailedRun(trace, from, count) {
      forall k | from - 1 <= k < from - 1 + count ensures later[k].Failed? {
        assert trace[k + 1].Failed?;
      }
    }
    if count > 0 && FailedRun(trace, 0, count) {
      forall k | 0 <= k < count - 1 ensures later[k].Failed? {
        assert trace[k + 1].Failed?;
      }
    }
  }

  lemma EndsAfterMove(to: nat, later: Ending, attempts: nat)
    requires attempts < UPLOAD_CHUNK_ATTEMPTS && EndsAsItShould(later, 0)
    ensures EndsAsItShould(Traced(Moved(to), later), attempts)
  {
    EndsLater(Moved(to), later, attempts);
    RunWithFirst(Moved(to), later.trace, 0, 5 - attempts);
  }

  lemma EndsAfterFailure(error: UploadError, later: Ending, attempts: nat)
    requires attempts + 1 < UPLOAD_CHUNK_ATTEMPTS && EndsAsItShould(later, attempts + 1) && WorthAnotherTry(error)
    ensures EndsAsItShould(Traced(Failed(error), later), attempts)
  {
    EndsLater(Failed(error), later, attempts);
    RunWithFirst(Failed(error), later.trace, 0, 5 - attempts);
  }

  /** Five in a row further on stay five in a row; five from the start are fewer than five later. */
  lemma EndsLater(first: ChunkResult, later: Ending, attempts: nat)
    requires attempts < UPLOAD_CHUNK_ATTEMPTS && (first.Moved? || (first.Failed? && attempts + 1 < UPLOAD_CHUNK_ATTEMPTS))
    requires EndsAsItShould(later, if first.Failed? then attempts + 1 else 0)
    ensures var e := Traced(first, later);
      && (forall k: nat :: FailedRun(e.trace, k, 5) ==> k + 5 == |e.trace|)
      && (|later.trace| >= 5 && FailedRun(later.trace, |later.trace| - 5, 5) ==> FailedRun(e.trace, |e.trace| - 5, 5))
  {
    var e := Traced(first, later);
    forall k: nat | FailedRun(e.trace, k, 5) ensures k + 5 == |e.trace| {
      RunWithFirst(first, later.trace, k, 5);
      if k == 0 {
        RunPrefix(later.trace, 4 - attempts, 4);
      }
    }
    if |later.trace| >= 5 {
      RunWithFirst(first, later.trace, |e.trace| - 5, 5);
    }
  }

  lemma RunPrefix(trace: seq<ChunkResult>, few: nat, many: nat)
    requires few <= many && FailedRun(trace, 0, many)
    ensures FailedRun(trace, 0, few)
  {
  }

  lemma RetriesWhatIsWorthIt(e: UploadError)
    requires !e.Cancelled? && !e.ConfirmationLost?
    ensures e.OffsetConflict? || Retryable(e) <==> WorthAnotherTry(e)
  {
  }

  /** Of the server's answers, these are worth another try: a moved offset, no room now, a short body, a fault. */
  lemma AnswersWorthAnotherTry(r: Reply)
    ensures ReplyStatus(r).Failed? <==> !r.Accepted? && !r.Stored?
    ensures ReplyStatus(r).Failed? ==>
      (WorthAnotherTry(ReplyStatus(r).error) <==>
        r.Conflict? || r.TempExhausted? || r.ChunkIncomplete? || r.ServerError? || r.FinishRefused?)
    ensures r.Accepted? ==> ReplyStatus(r) == Moved(r.offset)
    ensures r.Conflict? ==> ReplyStatus(r) == Failed(OffsetConflict(r.offset))
    ensures r.Stored? ==> ReplyStatus(r) == Finished
  {
  }

  /** One turn ends the loop on a failure only when another try cannot help, or it was the fifth, or it was told to. */
  lemma TurnEnds(source: bytes, s: Spool, at: nat, length: nat, attempts: nat, turn: Turn)
    requires Sound(source, s) && attempts < UPLOAD_CHUNK_ATTEMPTS && at < length
    ensures var (_, result, move) := OneTurn(source, s, at, length, attempts, turn);
      && (result.Failed? ==> !result.error.Cancelled? && !result.error.ConfirmationLost?)
      && (result.Failed? && move.Go? ==> WorthAnotherTry(result.error))
      && (move.Stop? && move.r.Err? ==>
           (move.r.error == Cancelled && (turn.cancelledAfter || turn.cancelledWaiting))
           || (result == Failed(move.r.error) && (!WorthAnotherTry(move.r.error) || attempts + 1 == UPLOAD_CHUNK_ATTEMPTS)))
  {
    var result := SendOneChunk(source, s, at, Min(UPLOAD_CHUNK_SIZE, length - at), length, turn).1;
    FailuresAreOfFourKinds(source, s, at, Min(UPLOAD_CHUNK_SIZE, length - at), length, turn);
    CancelIsHeard(source, s, at, length, attempts, turn);
    if result.Failed? {
      RetriesWhatIsWorthIt(result.error);
    }
  }

  lemma FailuresAreOfFourKinds(source: bytes, s: Spool, start: nat, n: nat, length: nat, turn: Turn)
    requires n > 0 && start + n <= length
    ensures var r := SendOneChunk(source, s, start, n, length, turn).1;
      r.Failed? ==> !r.error.Cancelled? && !r.error.ConfirmationLost?
  {
  }

  lemma {:induction false} DriveEnds(source: bytes, s: Spool, at: nat, length: nat, attempts: nat, i: nat, world: nat -> Turn)
    requires Sound(source, s) && attempts < UPLOAD_CHUNK_ATTEMPTS
    ensures EndsAsItShould(Drive(source, s, at, length, attempts, i, world), attempts)
    decreases |source| - |s.data|, UPLOAD_CHUNK_ATTEMPTS - attempts
  {
    if !world(i).cancelled && at < length {
      TurnKeeps(source, s, at, length, attempts, world(i));
      TurnEnds(source, s, at, length, attempts, world(i));
      var (s', result, move) := OneTurn(source, s, at, length, attempts, world(i));
      match move
      case Stop(r) => EndsWith(r, s', result, attempts);
      case Go(to, n) =>
        DriveEnds(source, s', to, length, n, i + 1, world);
        if result.Moved? {
          EndsAfterMove(result.offset, Drive(source, s', to, length, n, i + 1, world), attempts);
        } else {
          EndsAfterFailure(result.error, Drive(source, s', to, length, n, i + 1, world), attempts);
        }
    }
  }

  lemma EndsWith(r: Result<(), UploadError>, s: Spool, result: ChunkResult, attempts: nat)
    requires attempts < UPLOAD_CHUNK_ATTEMPTS && !result.Moved? && (r.Ok? <==> result.Finished?)
    requires r.Err? ==> r.error == Cancelled || (result == Failed(r.error) && !r.error.ConfirmationLost?
                                                  && (!WorthAnotherTry(r.error) || attempts + 1 == UPLOAD_CHUNK_ATTEMPTS))
    ensures EndsAsItShould(Ending(r, s, [result]), attempts)
  {
  }

  /** The loop says it was cancelled only if it was. */
  lemma {:induction false} CancelledIfAsked(source: bytes, s: Spool, at: nat, length: nat, attempts: nat, i: nat, world: nat -> Turn)
    requires Sound(source, s) && attempts < UPLOAD_CHUNK_ATTEMPTS
    ensures Drive(source, s, at, length, attempts, i, world).r == Err(Cancelled) ==>
      exists k: nat :: k >= i && (world(k).cancelled || world(k).cancelledAfter || world(k).cancelledWaiting)
    decreases |source| - |s.data|, UPLOAD_CHUNK_ATTEMPTS - attempts
  {
    if !world(i).cancelled && at < length {
      TurnKeeps(source, s, at, length, attempts, world(i));
      TurnEnds(source, s, at, length, attempts, world(i));
      var (s', result, move) := OneTurn(source, s, at, length, attempts, world(i));
      if move.Go? {
        CancelledIfAsked(source, s', move.at, length, move.attempts, i + 1, world);
      }
    }
  }

  // ----- when nothing goes wrong -----

  ghost predicate AlwaysSmooth(world: nat -> Turn) {
    forall i: nat :: Smooth(world(i))
  }

  lemma SmoothGains(source: bytes, s: Spool, start: nat, attempts: nat, turn: Turn)
    requires Sound(source, s) && Smooth(turn) && InStep(source, s, start, |source|) && attempts < UPLOAD_CHUNK_ATTEMPTS
    ensures var (s', result, move) := OneTurn(source, s, start, |source|, attempts, turn);
      if result.Finished? then Lacking(source, s) == 1
      else result.Moved? && Sound(source, s') && InStep(source, s', result.offset, |source|)
           && Lacking(source, s') == Lacking(source, s) - 1
  {
    var n := Min(UPLOAD_CHUNK_SIZE, |source| - start);
    SmoothChunk(source, s, start, n, turn);
    ChunkKeeps(source, s, start, n, |source|, turn);
  }

  /** Exactly one request for each chunk the server lacks, and a result. */
  lemma {:induction false} DriveSmooth(source: bytes, s: Spool, at: nat, attempts: nat, i: nat, world: nat -> Turn)
    requires Sound(source, s) && attempts < UPLOAD_CHUNK_ATTEMPTS && InStep(source, s, at, |source|) && AlwaysSmooth(world)
    ensures var e := Drive(source, s, at, |source|, attempts, i, world); e.r.Ok? && |e.trace| == Lacking(source, s)
    decreases |source| - |s.data|
  {
    TurnKeeps(source, s, at, |source|, attempts, world(i));
    SmoothGains(source, s, at, attempts, world(i));
    var (s', result, move) := OneTurn(source, s, at, |source|, attempts, world(i));
    if result.Moved? {
      DriveSmooth(source, s', result.offset, 0, i + 1, world);
    }
  }

  // ----- when the network is bad but not hopeless -----

  /** Nobody interferes and nothing is beyond repair; requests, replies and bodies may be lost or cut short. */
  predicate Passing(turn: Turn) {
    && turn.before == [] && turn.between == [] && turn.inFlight == 0
    && !turn.cancelled && !turn.cancelledAfter && !turn.cancelledWaiting
    && turn.f == CALM.(tempFull := turn.f.tempFull, arrived := turn.f.arrived, readFails := turn.f.readFails,
                       partStays := turn.f.partStays, sidecarStays := turn.f.sidecarStays)
    && (turn.replyLost ==> !turn.statusLost)
  }

  /** Every turn passes, and of any five in a row one is smooth. */
  ghost predicate NotHopeless(world: nat -> Turn) {
    && (forall i: nat :: Passing(world(i)))
    && (forall i: nat :: SmoothSoon(world, i))
  }

  ghost predicate SmoothSoon(world: nat -> Turn, i: nat) {
    exists k: nat :: i <= k < i + 5 && Smooth(world(k))
  }

  /** The session is open and unfinished and holds `n` bytes. */
  predicate OpenAt(source: bytes, s: Spool, n: nat) {
    Sound(source, s) && InStep(source, s, n, |source|)
  }

  /** What one passing turn can come to. */
  lemma PassingChunk(source: bytes, s: Spool, start: nat, n: nat, turn: Turn)
    requires OpenAt(source, s, start) && Passing(turn) && n == Min(UPLOAD_CHUNK_SIZE, |source| - start)
    ensures var (s', r) := SendOneChunk(source, s, start, n, |source|, turn);
      || (s' == s && r.Failed? && !Smooth(turn) && WorthAnotherTry(r.error) && !r.error.OffsetConflict?)
      || (start + n < |source| && OpenAt(source, s', start + n) && (r == Moved(start + n) || (turn.replyLost && r == Failed(Transport))))
      || (start + n == |source| && s'.objects == [source] && (r == Finished || (turn.replyLost && r == Failed(Transport))))
  {
    if !turn.sourceFails && !turn.requestLost {
      PassingServe(source, s, start, n, turn.f);
    }
  }

  lemma PassingServe(source: bytes, s: Spool, start: nat, n: nat, f: Fault)
    requires OpenAt(source, s, start) && 0 < n <= UPLOAD_CHUNK_SIZE && start + n <= |source|
    requires f == CALM.(tempFull := f.tempFull, arrived := f.arrived, readFails := f.readFails,
                        partStays := f.partStays, sidecarStays := f.sidecarStays)
    ensures var (s', reply) := Serve(s, Span(start, start + n - 1, |source|), source[start..], f);
      if f.tempFull || f.readFails || f.arrived < n then s' == s && (reply.TempExhausted? || reply.ChunkIncomplete?)
      else if start + n < |source| then OpenAt(source, s', start + n) && reply == Accepted(start + n)
      else s'.objects == [source] && reply == Stored
  {
    ServeKeeps(source, s, start, n, |source|, f);
    if !f.tempFull && !f.readFails && f.arrived >= n {
      assert |Delivered(source[start..], n, f)| == n;
    }
  }

  /** None of the turns that the running count of failures covers was smooth. */
  ghost predicate NoneSmooth(world: nat -> Turn, from: int, to: nat) {
    forall k: nat | from <= k < to :: !Smooth(world(k))
  }

  lemma FewerThanFive(world: nat -> Turn, attempts: nat, i: nat)
    requires NotHopeless(world) && attempts <= i && NoneSmooth(world, i - attempts, i) && !Smooth(world(i))
    ensures attempts + 1 < 5
  {
    if attempts >= 4 {
      assert SmoothSoon(world, i - 4);
      var k: nat :| i - 4 <= k < i - 4 + 5 && Smooth(world(k));
    }
  }

  /** What one passing turn can come to, for the loop. */
  lemma PassingTurn(source: bytes, s: Spool, at: nat, attempts: nat, turn: Turn)
    requires OpenAt(source, s, at) && attempts < UPLOAD_CHUNK_ATTEMPTS && Passing(turn)
    ensures var (s', result, move) := OneTurn(source, s, at, |source|, attempts, turn);
      || (s'.objects == [source] && (result.Finished? || turn.replyLost))
      || (result.Moved? && OpenAt(source, s', result.offset))
      || (result.Failed? && !Smooth(turn) && OpenAt(source, s', |s'.data|)
          && (attempts + 1 < UPLOAD_CHUNK_ATTEMPTS ==> move == Go(|s'.data|, attempts + 1)))
  {
    var (s1, result) := SendOneChunk(source, s, at, Min(UPLOAD_CHUNK_SIZE, |source| - at), |source|, turn);
    PassingChunk(source, s, at, Min(UPLOAD_CHUNK_SIZE, |source| - at), turn);
    StatusIff(s1, turn);
    if result.Failed? {
      NextOffsetIs(at, result.error, |s1.data|);
    }
  }

  /**
   An open session ends with the whole source stored, and with a result unless the
   reply that would have carried it was lost.
   */
  lemma {:induction false} DrivePasses(source: bytes, s: Spool, at: nat, attempts: nat, i: nat, world: nat -> Turn)
    requires OpenAt(source, s, at) && attempts < UPLOAD_CHUNK_ATTEMPTS && attempts <= i
    requires NotHopeless(world) && NoneSmooth(world, i - attempts, i)
    ensures var e := Drive(source, s, at, |source|, attempts, i, world);
      e.spool.objects == [source] && ((forall k: nat :: !world(k).replyLost) ==> e.r.Ok?)
    decreases |source| - |s.data|, UPLOAD_CHUNK_ATTEMPTS - attempts
  {
    var (s', result, move) := OneTurn(source, s, at, |source|, attempts, world(i));
    PassStep(source, s, at, attempts, i, world);
    if s'.objects == [source] {
      StoredInTurn(source, s, at, attempts, i, world);
    } else {
      DrivePasses(source, s', move.at, move.attempts, i + 1, world);
    }
  }

  /** Either it is stored now, or the loop goes on where the server is and the same holds of what follows. */
  lemma PassStep(source: bytes, s: Spool, at: nat, attempts: nat, i: nat, world: nat -> Turn)
    requires OpenAt(source, s, at) && attempts < UPLOAD_CHUNK_ATTEMPTS && attempts <= i
    requires NotHopeless(world) && NoneSmooth(world, i - attempts, i)
    ensures !world(i).cancelled
    ensures var (s', result, move) := OneTurn(source, s, at, |source|, attempts, world(i));
      if s'.objects == [source] then result.Finished? || world(i).replyLost
      else move.Go? && OpenAt(source, s', move.at) && move.attempts < UPLOAD_CHUNK_ATTEMPTS && move.attempts <= i + 1
           && NoneSmooth(world, i + 1 - move.attempts, i + 1)
           && (|s'.data| > |s.data| || (|s'.data| == |s.data| && move.attempts > attempts))
  {
    TurnKeeps(source, s, at, |source|, attempts, world(i));
    PassingTurn(source, s, at, attempts, world(i));
    var (s', result, move) := OneTurn(source, s, at, |source|, attempts, world(i));
    if s'.objects != [source] && result.Failed? {
      FewerThanFive(world, attempts, i);
    }
  }

  /** What is stored in a turn is stored at the end, and a turn that sees it stored is the last. */
  lemma StoredInTurn(source: bytes, s: Spool, at: nat, attempts: nat, i: nat, world: nat -> Turn)
    requires OpenAt(source, s, at) && attempts < UPLOAD_CHUNK_ATTEMPTS && !world(i).cancelled
    requires OneTurn(source, s, at, |source|, attempts, world(i)).0.objects == [source]
    ensures var e := Drive(source, s, at, |source|, attempts, i, world);
      e.spool.objects == [source] && (OneTurn(source, s, at, |source|, attempts, world(i)).1.Finished? ==> e.r.Ok?)
  {
    TurnKeeps(source, s, at, |source|, attempts, world(i));
    var (s', result, move) := OneTurn(source, s, at, |source|, attempts, world(i));
    if move.Go? {
      DriveKeeps(source, s', move.at, |source|, move.attempts, i + 1, world);
      StoredStays(source, s', Drive(source, s', move.at, |source|, move.attempts, i + 1, world).spool);
    }
  }

  /** What is stored stays stored. */
  lemma StoredStays(source: bytes, s: Spool, s': Spool)
    requires Sound(source, s) && Gained(source, s, s') && s.objects == [source]
    ensures s'.objects == [source]
  {
  }

  // ----- the loop as code -----

  function TracedAll(trace: seq<ChunkResult>, later: Ending): Ending {
    later.(trace := trace + later.trace)
  }

  /**
   UploadSession. `world` is what happens around each turn; `s` is the session on
   the server before and `s'` after; `trace` has the result of every chunk request.
   */
  method UploadSession(source: bytes, offset: nat, length: nat, s: Spool, world: nat -> Turn)
    returns (r: Result<(), UploadError>, s': Spool, trace: seq<ChunkResult>)
    requires Sound(source, s)
    ensures Ending(r, s', trace) == Drive(source, s, offset, length, 0, 0, world)
    ensures Sound(source, s') && s.data <= s'.data && s.objects <= s'.objects
    // a result means that the whole source is stored, exactly once
    ensures r.Ok? ==> s'.objects == [source]
    // five requests for each chunk the server lacked, however the network behaves
    ensures |trace| <= UPLOAD_CHUNK_ATTEMPTS * Max(1, Lacking(source, s))
    // it repeats what may succeed, ends at once on what cannot, and gives up only after five failures in a row
    ensures EndsAsItShould(Ending(r, s', trace), 0)
    ensures r == Err(Cancelled) ==>
      exists k: nat :: world(k).cancelled || world(k).cancelledAfter || world(k).cancelledWaiting
    // when nothing goes wrong, exactly one request each, and a result
    ensures InStep(source, s, offset, length) && AlwaysSmooth(world) ==> r.Ok? && |trace| == Lacking(source, s)
    // and while fewer than five turns in a row go wrong, the upload is completed
    ensures InStep(source, s, offset, length) && NotHopeless(world) ==>
      s'.objects == [source] && ((forall k: nat :: !world(k).replyLost) ==> r.Ok?)
  {
    DriveKeeps(source, s, offset, length, 0, 0, world);
    DriveBound(source, s, offset, length, 0, 0, world);
    DriveEnds(source, s, offset, length, 0, 0, world);
    CancelledIfAsked(source, s, offset, length, 0, 0, world);
    if InStep(source, s, offset, length) && AlwaysSmooth(world) {
      DriveSmooth(source, s, offset, 0, 0, world);
    }
    if InStep(source, s, offset, length) && NotHopeless(world) {
      DrivePasses(source, s, offset, 0, 0, world);
    }
    r, s', trace := Loop(source, offset, length, s, world);
  }

  lemma TracedMore(trace: seq<ChunkResult>, result: ChunkResult, later: Ending)
    ensures TracedAll(trace, Traced(result, later)) == TracedAll(trace + [result], later)
  {
    assert trace + ([result] + later.trace) == (trace + [result]) + later.trace;
  }

  /** One turn of the loop as code. */
  method TakeTurn(source: bytes, s: Spool, at: nat, length: nat, attempts: nat, turn: Turn)
    returns (s': Spool, result: ChunkResult, move: Move)
    requires Sound(source, s) && attempts < UPLOAD_CHUNK_ATTEMPTS && at < length
    ensures (s', result, move) == OneTurn(source, s, at, length, attempts, turn)
  {
    var n := UPLOAD_CHUNK_SIZE;
    if length - at < n {
      n := length - at;
    }
    var sent := SendOneChunk(source, s, at, n, length, turn);
    s', result := sent.0, sent.1;
    match result
    case Finished => move := Stop(Ok(()));
    case Moved(to) => move := Go(to, 0);
    case Failed(error) =>
      if turn.cancelledAfter {
        return s', result, Stop(Err(Cancelled));
      }
      var next := at;
      if error.OffsetConflict? {
        next := error.offset;
      } else if !Retryable(error) {
        return s', result, Stop(Err(error));
      }
      if attempts + 1 >= UPLOAD_CHUNK_ATTEMPTS {
        return s', result, Stop(Err(error));
      }
      if turn.cancelledWaiting {
        return s', result, Stop(Err(Cancelled));
      }
      s' := Others(source, s', turn.between);
      var status := SessionStatus(s', turn);
      if status.Some? {
        next := status.value;
      }
      move := Go(next, attempts + 1);
  }

  method Loop(source: bytes, offset: nat, length: nat, s: Spool, world: nat -> Turn)
    returns (r: Result<(), UploadError>, s': Spool, trace: seq<ChunkResult>)
    requires Sound(source, s)
    ensures Ending(r, s', trace) == Drive(source, s, offset, length, 0, 0, world)
  {
    var attempts, at: nat, turns: nat := 0, offset, 0;
    s', trace := s, [];
    ghost var goal := Drive(source, s, offset, length, 0, 0, world);
    while !world(turns).cancelled && at < length
      invariant attempts < UPLOAD_CHUNK_ATTEMPTS && Sound(source, s')
      invariant goal == TracedAll(trace, Drive(source, s', at, length, attempts, turns, world))
      decreases |source| - |s'.data|, UPLOAD_CHUNK_ATTEMPTS - attempts
    {
      TurnKeeps(source, s', at, length, attempts, world(turns));
      var after, result, move := TakeTurn(source, s', at, length, attempts, world(turns));
      s', turns := after, turns + 1;
      match move
      case Stop(answer) => return answer, s', trace + [result];
      case Go(to, n) =>
        TracedMore(trace, result, Drive(source, s', to, length, n, turns, world));
        at, attempts, trace := to, n, trace + [result];
    }
    r := if world(turns).cancelled then Err(Cancelled) else Err(ConfirmationLost);
  }
}
