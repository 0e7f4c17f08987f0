/**
 One upload session under concurrent requests: every interleaving of PATCH,
 DELETE, sweeps and crashes, step by step.
 */
module SessionProtocol {
  import opened Basics
  import opened ContentRange
  import opened SessionSpool

  type Tid = nat

  /** A request between its validation and its reply. From `Copying` on it holds the session lock. */
  datatype Phase =
    | Validated(start: nat, want: nat)
    | Deleting
    | Copying(offset: nat, want: nat, got: nat)
    | Finishing
    | Opened
    | HandedOver

  /**
   `source` is what the client uploads. `asked` collects the offsets requests
   asked to end at, `damaged` records a roll-back that could not happen, and
   `results` counts replies that carried a stored upload; they only observe.
   */
  datatype State = State(source: bytes, spool: Spool, lock: Option<Tid>, phases: map<Tid, Phase>,
                         asked: set<nat>, damaged: bool, results: nat)

  datatype Event =
    | Arrive(t: Tid, span: Span)                  // openSession and the header check pass
    | ArriveDelete(t: Tid)
    | Acquire(t: Tid, tempFull: bool)             // the lock is taken, the file opened, the offset compared
    | Write(t: Tid, n: nat)                       // a block of the body reaches the file
    | EndCopy(t: Tid, f: Fault)                   // the copy returns
    | OpenPart(t: Tid, f: Fault)                  // scan, then reopen the spool file
    | HandOver(t: Tid, f: Fault)                  // the storage backend takes it, or does not
    | Reply(t: Tid, f: Fault)                     // the session is removed and the upload's URLs are sent
    | Delete(t: Tid, f: Fault)
    | Sweep(part: bool, sidecar: bool)            // a sweep, or an expired session being opened: no lock is taken
    | Crash

  function Enter(s: State, t: Tid, p: Phase): State {
    s.(lock := Some(t), phases := s.phases[t := p])
  }

  /** The request is answered; if it held the lock, the lock is free again. */
  function Leave(s: State, t: Tid): State {
    s.(lock := if s.lock == Some(t) then None else s.lock, phases := s.phases - {t})
  }

  predicate At(s: State, t: Tid) {
    t in s.phases && s.lock == Some(t)
  }

  function AcquireStep(s: State, t: Tid, tempFull: bool): State {
    if t !in s.phases || !s.phases[t].Validated? || s.lock.Some? then s
    else
      var p := s.phases[t];
      if !s.spool.linked || p.start != |s.spool.data| || tempFull then Leave(s, t)
      else Enter(s, t, Copying(|s.spool.data|, p.want, 0))
  }

  /** The body a request carries is the client's source from where its range starts. */
  function WriteStep(s: State, t: Tid, n: nat): State {
    if !At(s, t) || !s.phases[t].Copying? then s
    else
      var p := s.phases[t];
      var from := p.offset + p.got;
      if p.got + n > p.want || from + n > |s.source| then s
      else Enter(s.(spool := s.spool.(data := s.spool.data + s.source[from .. from + n])), t, p.(got := p.got + n))
  }

  function EndCopyStep(s: State, t: Tid, f: Fault): State {
    if !At(s, t) || !s.phases[t].Copying? then s
    else
      var p := s.phases[t];
      if f.readFails || p.got != p.want then
        if f.truncateFails || p.offset > |s.spool.data| then Leave(s.(damaged := true), t)
        else Leave(s.(spool := s.spool.(data := s.spool.data[..p.offset])), t)
      else if f.closeFails || p.offset + p.want < s.spool.total then Leave(s, t)
      else Enter(s, t, Finishing)
  }

  function OpenPartStep(s: State, t: Tid, f: Fault): State {
    if !At(s, t) || s.phases[t] != Finishing then s
    else if f.scanFails || f.infected then Leave(s.(spool := RemoveSession(s.spool, f)), t)
    else if !s.spool.linked then Leave(s, t)
    else Enter(s, t, Opened)
  }

  function HandOverStep(s: State, t: Tid, f: Fault): State {
    if !At(s, t) || s.phases[t] != Opened then s
    else if f.metaRefused || f.refused || f.storeFails then Leave(s, t)
    else Enter(s.(spool := s.spool.(objects := s.spool.objects + [s.spool.data])), t, HandedOver)
  }

  function ReplyStep(s: State, t: Tid, f: Fault): State {
    if !At(s, t) || s.phases[t] != HandedOver then s
    else Leave(s.(spool := RemoveSession(s.spool, f), results := s.results + 1), t)
  }

  function Step(s: State, e: Event): State {
    match e
    case Arrive(t, span) =>
      if t in s.phases || !s.spool.sidecar || !(span.start <= span.end < span.total) || span.total != s.spool.total then s
      else s.(phases := s.phases[t := Validated(span.start, span.end - span.start + 1)], asked := s.asked + {span.end + 1})
    case ArriveDelete(t) =>
      if t in s.phases || !s.spool.sidecar then s else s.(phases := s.phases[t := Deleting])
    case Acquire(t, tempFull) => AcquireStep(s, t, tempFull)
    case Write(t, n) => WriteStep(s, t, n)
    case EndCopy(t, f) => EndCopyStep(s, t, f)
    case OpenPart(t, f) => OpenPartStep(s, t, f)
    case HandOver(t, f) => HandOverStep(s, t, f)
    case Reply(t, f) => ReplyStep(s, t, f)
    case Delete(t, f) =>
      if t in s.phases && s.phases[t] == Deleting && s.lock.None? then Leave(s.(spool := RemoveSession(s.spool, f)), t)
      else s
    case Sweep(part, sidecar) => s.(spool := Unlink(s.spool, part, sidecar))
    case Crash => s.(lock := None, phases := map[], damaged := s.damaged || Writing(s))
  }

  function Run(s: State, es: seq<Event>): State
    decreases |es|
  {
    if es == [] then s else Run(Step(s, es[0]), es[1..])
  }

  function Created(source: bytes): State {
    State(source, Spool(|source|, true, true, [], []), None, map[], {0}, false, 0)
  }

  // ----- the invariant -----

  predicate Writing(s: State) {
    s.lock.Some? && s.lock.value in s.phases && s.phases[s.lock.value].Copying?
  }

  /** The spool size as the next request will find it under the lock. */
  function LockedSize(s: State): nat {
    if Writing(s) then s.phases[s.lock.value].offset else |s.spool.data|
  }

  /** What the holder of the lock may rely on. */
  predicate HolderOk(s: State, p: Phase) {
    match p
    case Validated(_, _) => false
    case Deleting => false
    case Copying(offset, want, got) =>
      && got <= want && 0 < want && offset + want <= s.spool.total
      && |s.spool.data| == offset + got && s.spool.objects == []
      && offset + want in s.asked
    case Finishing => |s.spool.data| == s.spool.total && s.spool.objects == []
    case Opened => |s.spool.data| == s.spool.total && s.spool.objects == []
    case HandedOver => s.spool.objects != [] && s.results == 0
  }

  /** Requests that do not hold the lock have only been validated. */
  predicate WaiterOk(s: State, p: Phase) {
    match p
    case Validated(start, want) => 0 < want && start + want <= s.spool.total && start + want in s.asked
    case _ => p == Deleting
  }

  predicate PhasesOk(s: State) {
    && (s.lock.Some? ==> s.lock.value in s.phases && HolderOk(s, s.phases[s.lock.value]))
    && (forall t <- s.phases | s.lock != Some(t) :: WaiterOk(s, s.phases[t]))
  }

  predicate Inv(s: State) {
    && Sound(s.source, s.spool) && PhasesOk(s)
    && s.results <= |s.spool.objects|
    && (s.damaged || LockedSize(s) in s.asked)
  }

  /** What is not up to the requests: a DELETE can always be opened, and a sweep takes files without the lock. */
  lemma FilesCanGo(s: State, t: Tid, part: bool, sidecar: bool)
    ensures t !in s.phases && s.spool.sidecar ==> Step(s, ArriveDelete(t)) == s.(phases := s.phases[t := Deleting])
    ensures var s' := Step(s, Sweep(part, sidecar));
      s'.spool.linked == (s.spool.linked && !part) && s'.spool.sidecar == (s.spool.sidecar && !sidecar)
      && s' == s.(spool := s'.spool) && s'.spool.data == s.spool.data && s'.spool.objects == s.spool.objects
  {
  }

  lemma WriteKeeps(s: State, t: Tid, n: nat)
    requires Inv(s)
    ensures Inv(WriteStep(s, t, n))
  {
    if WriteStep(s, t, n) != s {
      var from := s.phases[t].offset + s.phases[t].got;
      assert s.spool.data == s.source[..from];
      assert s.source[..from] + s.source[from .. from + n] == s.source[..from + n];
    }
  }

  lemma EndCopyKeeps(s: State, t: Tid, f: Fault)
    requires Inv(s)
    ensures Inv(EndCopyStep(s, t, f))
  {
  }

  lemma HandOverKeeps(s: State, t: Tid, f: Fault)
    requires Inv(s)
    ensures Inv(HandOverStep(s, t, f))
  {
    assert |s.spool.data| == |s.source| ==> s.spool.data == s.source;
  }

  lemma ArriveKeeps(s: State, t: Tid, span: Span)
    requires Inv(s)
    ensures Inv(Step(s, Arrive(t, span)))
  {
  }

  lemma AcquireKeeps(s: State, t: Tid, tempFull: bool)
    requires Inv(s)
    ensures Inv(AcquireStep(s, t, tempFull))
  {
  }

  lemma OpenPartKeeps(s: State, t: Tid, f: Fault)
    requires Inv(s)
    ensures Inv(OpenPartStep(s, t, f))
  {
  }

  lemma ReplyKeeps(s: State, t: Tid, f: Fault)
    requires Inv(s)
    ensures Inv(ReplyStep(s, t, f))
  {
  }

  lemma ArriveDeleteKeeps(s: State, t: Tid)
    requires Inv(s)
    ensures Inv(Step(s, ArriveDelete(t)))
  {
  }

  lemma DeleteKeeps(s: State, t: Tid, f: Fault)
    requires Inv(s)
    ensures Inv(Step(s, Delete(t, f)))
  {
  }

  lemma SweepKeeps(s: State, part: bool, sidecar: bool)
    requires Inv(s)
    ensures Inv(Step(s, Sweep(part, sidecar)))
  {
    FilesCanGo(s, 0, part, sidecar);
  }

  lemma CrashKeeps(s: State)
    requires Inv(s)
    ensures Inv(Step(s, Crash))
  {
  }

  lemma StepKeeps(s: State, e: Event)
    requires Inv(s)
    ensures Inv(Step(s, e))
  {
    match e
    case Arrive(t, span) => ArriveKeeps(s, t, span);
    case ArriveDelete(t) => ArriveDeleteKeeps(s, t);
    case Acquire(t, tempFull) => AcquireKeeps(s, t, tempFull);
    case Write(t, n) => WriteKeeps(s, t, n);
    case EndCopy(t, f) => EndCopyKeeps(s, t, f);
    case OpenPart(t, f) => OpenPartKeeps(s, t, f);
    case HandOver(t, f) => HandOverKeeps(s, t, f);
    case Reply(t, f) => ReplyKeeps(s, t, f);
    case Delete(t, f) => DeleteKeeps(s, t, f);
    case Sweep(part, sidecar) => SweepKeeps(s, part, sidecar);
    case Crash => CrashKeeps(s);
  }

  lemma {:induction false} RunKeeps(s: State, es: seq<Event>)
    requires Inv(s)
    ensures Inv(Run(s, es))
    decreases |es|
  {
    if es != [] {
      StepKeeps(s, es[0]);
      RunKeeps(Step(s, es[0]), es[1..]);
    }
  }

  lemma CreatedOk(source: bytes)
    ensures Inv(Created(source))
  {
  }

  // ----- safety over whole runs -----

  /** The spool is always the prefix of the client's source of its own length. */
  lemma SpoolIsAPrefix(source: bytes, es: seq<Event>)
    ensures var s := Run(Created(source), es);
      s.source == source && |s.spool.data| <= |source| && s.spool.data == source[..|s.spool.data|]
  {
    CreatedOk(source);
    RunKeeps(Created(source), es);
    SourceIsFixed(Created(source), es);
  }

  lemma {:induction false} SourceIsFixed(s: State, es: seq<Event>)
    ensures Run(s, es).source == s.source
    decreases |es|
  {
    if es != [] {
      SourceIsFixed(Step(s, es[0]), es[1..]);
    }
  }

  /** A session stores at most one object, the whole source; a reply that says so is sent at most once, after it. */
  lemma StoresAtMostOnce(source: bytes, es: seq<Event>)
    ensures var s := Run(Created(source), es);
      && (s.spool.objects == [] || s.spool.objects == [source])
      && s.results <= |s.spool.objects| <= 1
  {
    CreatedOk(source);
    RunKeeps(Created(source), es);
    SourceIsFixed(Created(source), es);
  }

  /** While no roll-back has failed, the offset found under the lock is one that a request asked to end at. */
  lemma OffsetsWereAskedFor(source: bytes, es: seq<Event>)
    ensures var s := Run(Created(source), es); !s.damaged ==> LockedSize(s) in s.asked
  {
    CreatedOk(source);
    RunKeeps(Created(source), es);
  }

  /** The offset under the lock never goes back, whatever fails. */
  lemma LockedSizeGrows(s: State, e: Event)
    requires Inv(s)
    ensures LockedSize(s) <= LockedSize(Step(s, e))
    ensures s.spool.objects <= Step(s, e).spool.objects
  {
  }

  /** A chunk that did not arrive whole is rolled back, and only a roll-back that fails damages the session. */
  lemma RollBackIsClean(s: State, t: Tid, f: Fault)
    requires Inv(s) && At(s, t) && s.phases[t].Copying? && (f.readFails || s.phases[t].got != s.phases[t].want)
    ensures var s', offset := Step(s, EndCopy(t, f)), s.phases[t].offset;
      && s'.lock.None? && t !in s'.phases && s'.asked == s.asked
      && s'.spool.data == (if f.truncateFails then s.spool.data else s.spool.data[..offset])
      && s'.damaged == (s.damaged || f.truncateFails)
  {
  }

  /** A DELETE that gets the lock removes the session, and only a request that asked for one does. */
  lemma DeleteRemoves(s: State, t: Tid, f: Fault)
    requires t in s.phases && s.lock.None?
    ensures var s' := Step(s, Delete(t, f));
      if s.phases[t] == Deleting then s'.spool == RemoveSession(s.spool, f) && s'.phases == s.phases - {t} && s'.lock.None?
      else s' == s
  {
  }

  /** What has been handed to storage is answered with a result, once, and the session is removed. */
  lemma StoredIsAnswered(s: State, t: Tid, f: Fault)
    requires Inv(s) && At(s, t) && s.phases[t] == HandedOver
    ensures var s' := Step(s, Reply(t, f));
      s'.results == 1 && s'.spool == RemoveSession(s.spool, f) && s'.lock.None? && t !in s'.phases
  {
  }

  // ----- the handler run without interference is the handler of SessionSpool -----

  function PatchEvents(t: Tid, span: Span, got: nat, f: Fault): seq<Event> {
    [Arrive(t, span), Acquire(t, f.tempFull), Write(t, got), EndCopy(t, f), OpenPart(t, f), HandOver(t, f), Reply(t, f)]
  }

  /** What the copying part leaves, in one line each. */
  lemma CopySteps(s: State, t: Tid, span: Span, body: bytes, f: Fault)
    requires Inv(s) && s.lock.None? && t in s.phases && span.start <= span.end < span.total == s.spool.total
    requires s.phases[t] == Validated(span.start, span.end - span.start + 1)
    requires s.spool.linked && span.start == |s.spool.data| && !f.tempFull && body == s.source[span.start..]
    ensures var want := span.end - span.start + 1;
      var got := Delivered(body, want, f);
      var s2 := WriteStep(AcquireStep(s, t, false), t, |got|);
      && At(s2, t) && s2.phases[t] == Copying(span.start, want, |got|)
      && s2.spool == s.spool.(data := s.spool.data + got)
  {
    var want := span.end - span.start + 1;
    var got := Delivered(body, want, f);
    assert s.source[span.start .. span.start + |got|] == got;
  }

  function EndSteps(s: State, t: Tid, f: Fault): State {
    ReplyStep(HandOverStep(OpenPartStep(EndCopyStep(s, t, f), t, f), t, f), t, f)
  }

  /** A request that has been answered does nothing more. */
  lemma AnsweredIsOver(s: State, t: Tid, n: nat, f: Fault)
    requires t !in s.phases
    ensures WriteStep(s, t, n) == s && EndSteps(s, t, f) == s
  {
  }

  lemma FinishSteps(s: State, t: Tid, f: Fault)
    requires At(s, t) && s.phases[t] == Finishing && s.spool.linked && !f.vanished
    ensures ReplyStep(HandOverStep(OpenPartStep(s, t, f), t, f), t, f).spool == Finish(s.spool, f).0
  {
  }

  /** From the end of the copy on: rolled back, kept, or finished. */
  function AfterCopy(s: Spool, offset: nat, want: nat, got: nat, f: Fault): Spool
    requires offset <= |s.data|
  {
    if f.readFails || got != want then (if f.truncateFails then s else s.(data := s.data[..offset]))
    else if f.closeFails || offset + want < s.total then s
    else Finish(s, f).0
  }

  lemma PatchIs(s: Spool, start: nat, end: nat, body: bytes, f: Fault)
    requires start <= end && s.linked && start == |s.data| && !f.tempFull
    ensures var want := end - start + 1;
      var got := Delivered(body, want, f);
      Patch(s, start, end, body, f).0 == AfterCopy(s.(data := s.data + got), start, want, |got|, f)
  {
    var got := Delivered(body, end - start + 1, f);
    assert (s.data + got)[..start] == s.data;
  }

  lemma EndStepsAre(s: State, t: Tid, f: Fault, offset: nat, want: nat, got: nat)
    requires At(s, t) && s.phases[t] == Copying(offset, want, got) && |s.spool.data| == offset + got && s.spool.linked
    requires !f.vanished
    ensures EndSteps(s, t, f).spool == AfterCopy(s.spool, offset, want, got, f)
  {
    var s1 := EndCopyStep(s, t, f);
    if t in s1.phases {
      FinishSteps(s1, t, f);
    } else {
      AnsweredIsOver(s1, t, 0, f);
      assert EndCopyStep(s1, t, f) == s1;
    }
  }

  /** A request that the locked part turns away leaves the session as it is. */
  lemma TurnedAway(s: State, t: Tid, span: Span, body: bytes, f: Fault, n: nat)
    requires s.lock.None? && t in s.phases && span.start <= span.end
    requires s.phases[t] == Validated(span.start, span.end - span.start + 1)
    requires !s.spool.linked || span.start != |s.spool.data| || f.tempFull
    ensures EndSteps(WriteStep(AcquireStep(s, t, f.tempFull), t, n), t, f).spool == s.spool
    ensures Patch(s.spool, span.start, span.end, body, f).0 == s.spool
  {
    AnsweredIsOver(AcquireStep(s, t, f.tempFull), t, n, f);
  }

  lemma AdmittedPartIs(s: State, t: Tid, span: Span, body: bytes, f: Fault)
    requires Inv(s) && s.lock.None? && t in s.phases && !f.vanished
    requires span.start <= span.end < span.total == s.spool.total && body == s.source[span.start..]
    requires s.phases[t] == Validated(span.start, span.end - span.start + 1)
    requires s.spool.linked && span.start == |s.spool.data| && !f.tempFull
    ensures var got := |Delivered(body, span.end - span.start + 1, f)|;
      EndSteps(WriteStep(AcquireStep(s, t, false), t, got), t, f).spool
      == Patch(s.spool, span.start, span.end, body, f).0
  {
    var want := span.end - span.start + 1;
    var bytes := Delivered(body, want, f);
    CopySteps(s, t, span, body, f);
    EndStepsAre(WriteStep(AcquireStep(s, t, false), t, |bytes|), t, f, span.start, want, |bytes|);
    PatchIs(s.spool, span.start, span.end, body, f);
  }

  lemma LockedPartIs(s: State, t: Tid, span: Span, body: bytes, f: Fault)
    requires Inv(s) && s.lock.None? && t in s.phases && !f.vanished
    requires span.start <= span.end < span.total == s.spool.total && body == s.source[span.start..]
    requires s.phases[t] == Validated(span.start, span.end - span.start + 1)
    ensures var got := |Delivered(body, span.end - span.start + 1, f)|;
      EndSteps(WriteStep(AcquireStep(s, t, f.tempFull), t, got), t, f).spool
      == Patch(s.spool, span.start, span.end, body, f).0
  {
    if s.spool.linked && span.start == |s.spool.data| && !f.tempFull {
      AdmittedPartIs(s, t, span, body, f);
    } else {
      TurnedAway(s, t, span, body, f, |Delivered(body, span.end - span.start + 1, f)|);
    }
  }

  /** One request that nothing interrupts does to the spool exactly what SessionSpool.Patch says. */
  lemma UninterruptedPatch(s: State, t: Tid, span: Span, body: bytes, f: Fault)
    requires Inv(s) && s.lock.None? && t !in s.phases && s.spool.sidecar && !f.vanished
    requires span.start <= span.end < span.total == s.spool.total && body == s.source[span.start..]
    ensures var got := |Delivered(body, span.end - span.start + 1, f)|;
      Run(s, PatchEvents(t, span, got, f)).spool == Patch(s.spool, span.start, span.end, body, f).0
  {
    RunPatchEvents(s, t, span, |Delivered(body, span.end - span.start + 1, f)|, f);
    StepKeeps(s, Arrive(t, span));
    LockedPartIs(Step(s, Arrive(t, span)), t, span, body, f);
  }

  lemma RunPatchEvents(s: State, t: Tid, span: Span, got: nat, f: Fault)
    ensures Run(s, PatchEvents(t, span, got, f))
         == EndSteps(WriteStep(AcquireStep(Step(s, Arrive(t, span)), t, f.tempFull), t, got), t, f)
  {
    var s3 := WriteStep(AcquireStep(Step(s, Arrive(t, span)), t, f.tempFull), t, got);
    RunThree(s, Arrive(t, span), Acquire(t, f.tempFull), Write(t, got),
             [EndCopy(t, f), OpenPart(t, f), HandOver(t, f), Reply(t, f)]);
    RunThree(s3, EndCopy(t, f), OpenPart(t, f), HandOver(t, f), [Reply(t, f)]);
    RunPrefix(HandOverStep(OpenPartStep(EndCopyStep(s3, t, f), t, f), t, f), [Reply(t, f)], 0);
    assert PatchEvents(t, span, got, f)
        == [Arrive(t, span), Acquire(t, f.tempFull), Write(t, got)] + [EndCopy(t, f), OpenPart(t, f), HandOver(t, f), Reply(t, f)];
    assert [EndCopy(t, f), OpenPart(t, f), HandOver(t, f), Reply(t, f)]
        == [EndCopy(t, f), OpenPart(t, f), HandOver(t, f)] + [Reply(t, f)];
  }

  lemma RunThree(s: State, e0: Event, e1: Event, e2: Event, es: seq<Event>)
    ensures Run(s, [e0, e1, e2] + es) == Run(Step(Step(Step(s, e0), e1), e2), es)
  {
    var all := [e0, e1, e2] + es;
    RunPrefix(s, all, 0);
    RunPrefix(Step(s, e0), all, 1);
    RunPrefix(Step(Step(s, e0), e1), all, 2);
    assert all[0..] == all && all[3..] == es;
  }

  lemma RunPrefix(s: State, es: seq<Event>, i: nat)
    requires i < |es|
    ensures Run(s, es[i..]) == Run(Step(s, es[i]), es[i + 1..])
  {
    assert es[i..][1..] == es[i + 1..];
  }

  lemma RunCons(s: State, e: Event, es: seq<Event>)
    ensures Run(s, [e] + es) == Run(Step(s, e), es)
  {
    RunPrefix(s, [e] + es, 0);
    assert ([e] + es)[0..] == [e] + es && ([e] + es)[1..] == es;
  }
}
