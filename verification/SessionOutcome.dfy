/**
 Which sessions can still be stored: an exact condition on any state that a
 session's requests, sweeps and crashes can reach.
 */
module SessionOutcome {
  import opened Basics
  import opened ContentRange
  import opened SessionSpool
  import opened SessionProtocol

  // ----- requests that are already waiting -----

  /**
   From `from` on, requests that wait for the lock can bring the spool to its
   total. Each has to start where the one before left the spool: at its end, or
   anywhere inside it when its body fell short and the roll-back failed too. The
   last one has to arrive whole.
   */
  ghost predicate Reaches(phases: map<Tid, Phase>, from: nat, total: nat)
    decreases total - from, 0
  {
    exists t <- phases :: Starts(phases[t], from, total)
      && (from + phases[t].want == total || ReachesBetween(phases, from + 1, from + phases[t].want, total))
  }

  /** A waiting request that would append at `from`. */
  predicate Starts(p: Phase, from: nat, total: nat) {
    p.Validated? && p.start == from && 0 < p.want && from + p.want <= total
  }

  ghost predicate ReachesBetween(phases: map<Tid, Phase>, low: nat, high: nat, total: nat)
    decreases total - low, 1
  {
    exists y: nat | low <= y <= high && y < total :: Reaches(phases, y, total)
  }

  /** Every request that waits in `q` waits in `p`. */
  predicate Fewer(p: map<Tid, Phase>, q: map<Tid, Phase>) {
    forall t <- q | q[t].Validated? :: t in p && p[t] == q[t]
  }

  lemma {:induction false} ReachesFewer(p: map<Tid, Phase>, q: map<Tid, Phase>, from: nat, total: nat)
    requires Fewer(p, q) && Reaches(q, from, total)
    ensures Reaches(p, from, total)
    decreases total - from, 0
  {
    var t :| t in q && Starts(q[t], from, total)
      && (from + q[t].want == total || ReachesBetween(q, from + 1, from + q[t].want, total));
    assert t in p && p[t] == q[t];
    if from + q[t].want != total {
      BetweenFewer(p, q, from + 1, from + q[t].want, total);
    }
  }

  lemma {:induction false} BetweenFewer(p: map<Tid, Phase>, q: map<Tid, Phase>, low: nat, high: nat, total: nat)
    requires Fewer(p, q) && ReachesBetween(q, low, high, total)
    ensures ReachesBetween(p, low, high, total)
    decreases total - low, 1
  {
    var y: nat :| low <= y <= high && y < total && Reaches(q, y, total);
    ReachesFewer(p, q, y, total);
  }

  /** A request that starts earlier is of no use. */
  lemma {:induction false} ReachesWithout(p: map<Tid, Phase>, t: Tid, from: nat, total: nat)
    requires t in p && (p[t].Validated? ==> p[t].start < from) && Reaches(p, from, total)
    ensures Reaches(p - {t}, from, total)
    decreases total - from, 0
  {
    var u :| u in p && Starts(p[u], from, total)
      && (from + p[u].want == total || ReachesBetween(p, from + 1, from + p[u].want, total));
    assert u in p - {t} && (p - {t})[u] == p[u];
    if from + p[u].want != total {
      BetweenWithout(p, t, from + 1, from + p[u].want, total);
    }
  }

  lemma {:induction false} BetweenWithout(p: map<Tid, Phase>, t: Tid, low: nat, high: nat, total: nat)
    requires t in p && (p[t].Validated? ==> p[t].start < low) && ReachesBetween(p, low, high, total)
    ensures ReachesBetween(p - {t}, low, high, total)
    decreases total - low, 1
  {
    var y: nat :| low <= y <= high && y < total && Reaches(p, y, total);
    ReachesWithout(p, t, y, total);
  }

  // ----- the condition -----

  /**
   While the spool file is there: with the sidecar, bytes are missing or the
   holder of the lock is on its way; without it, no new request can be opened,
   and those that were have to reach the total. A file already handed to the
   storage step needs nothing more.
   */
  ghost predicate Storable(s: State) {
    match s.lock
    case None =>
      s.spool.linked
      && if s.spool.sidecar then |s.spool.data| < s.spool.total else Reaches(s.phases, |s.spool.data|, s.spool.total)
    case Some(t) =>
      t in s.phases
      && match s.phases[t]
         case Copying(offset, want, got) => s.spool.linked && (s.spool.sidecar || CopyReaches(s, offset, want, got))
         case Finishing => s.spool.linked
         case Opened => true
         case _ => false
  }

  /** What the running copy can leave behind: all it wants, nothing, or some offset past what it has written. */
  ghost predicate CopyReaches(s: State, offset: nat, want: nat, got: nat) {
    || offset + want == s.spool.total
    || Reaches(s.phases, offset, s.spool.total)
    || ReachesBetween(s.phases, offset + got, offset + want, s.spool.total)
  }

  // ----- what cannot be stored never is -----

  lemma AcquireBefore(s: State, t: Tid, tempFull: bool)
    requires Inv(s) && s.spool.objects == [] && Storable(AcquireStep(s, t, tempFull))
    ensures Storable(s)
  {
    var s' := AcquireStep(s, t, tempFull);
    if s' != s && !s.spool.sidecar {
      var from, total := |s.spool.data|, s.spool.total;
      assert Fewer(s.phases, s'.phases);
      if s'.lock.None? {
        ReachesFewer(s.phases, s'.phases, from, total);
      } else {
        CopyBefore(s.phases, s'.phases, t, from, total);
      }
    }
  }

  /** Whatever a copy that has written nothing can lead to, its request could before it was admitted. */
  lemma CopyBefore(p: map<Tid, Phase>, q: map<Tid, Phase>, t: Tid, from: nat, total: nat)
    requires Fewer(p, q) && t in p && Starts(p[t], from, total)
    requires from + p[t].want == total || Reaches(q, from, total) || ReachesBetween(q, from, from + p[t].want, total)
    ensures Reaches(p, from, total)
  {
    if from + p[t].want != total {
      if Reaches(q, from, total) {
        ReachesFewer(p, q, from, total);
      } else {
        BetweenFewer(p, q, from, from + p[t].want, total);
        var y: nat :| from <= y <= from + p[t].want && y < total && Reaches(p, y, total);
        if y > from {
          assert ReachesBetween(p, from + 1, from + p[t].want, total);
        }
      }
    }
  }

  lemma WriteBefore(s: State, t: Tid, n: nat)
    requires Inv(s) && s.spool.objects == [] && Storable(WriteStep(s, t, n))
    ensures Storable(s)
  {
    var s' := WriteStep(s, t, n);
    if s' != s && !s.spool.sidecar {
      var p, total := s.phases[t], s.spool.total;
      assert Fewer(s.phases, s'.phases);
      if Reaches(s'.phases, p.offset, total) {
        ReachesFewer(s.phases, s'.phases, p.offset, total);
      } else if p.offset + p.want != total {
        BetweenFewer(s.phases, s'.phases, p.offset + p.got + n, p.offset + p.want, total);
        var y: nat :| p.offset + p.got + n <= y <= p.offset + p.want && y < total && Reaches(s.phases, y, total);
        assert ReachesBetween(s.phases, p.offset + p.got, p.offset + p.want, total);
      }
    }
  }

  lemma EndCopyBefore(s: State, t: Tid, f: Fault)
    requires Inv(s) && s.spool.objects == [] && Storable(EndCopyStep(s, t, f))
    ensures Storable(s)
  {
    var s' := EndCopyStep(s, t, f);
    if s' != s && !s.spool.sidecar && s'.lock.None? {
      var p, y, total := s.phases[t], |s'.spool.data|, s.spool.total;
      assert Fewer(s.phases, s'.phases);
      ReachesFewer(s.phases, s'.phases, y, total);
      ReachesBelow(s.phases, y, total);
      if y != p.offset {
        assert p.offset + p.got <= y <= p.offset + p.want;
        assert ReachesBetween(s.phases, p.offset + p.got, p.offset + p.want, total);
      }
    }
  }

  /** Nobody waits for the end of a complete spool. */
  lemma ReachesBelow(phases: map<Tid, Phase>, from: nat, total: nat)
    requires Reaches(phases, from, total)
    ensures from < total
  {
  }

  /** A session that no request holds, before and after a step that appends nothing. */
  lemma FreeBefore(s: State, s': State)
    requires s.lock.None? && s'.lock.None? && Storable(s')
    requires s'.spool.data == s.spool.data && s'.spool.total == s.spool.total
    requires (s'.spool.linked ==> s.spool.linked) && (s'.spool.sidecar ==> s.spool.sidecar)
    requires s.spool.sidecar || Fewer(s.phases, s'.phases)
    ensures Storable(s)
  {
    if !s'.spool.sidecar {
      if s.spool.sidecar {
        ReachesBelow(s'.phases, |s.spool.data|, s.spool.total);
      } else {
        ReachesFewer(s.phases, s'.phases, |s.spool.data|, s.spool.total);
      }
    }
  }

  /** Losing a file helps no copy either. */
  lemma SweepBefore(s: State, part: bool, sidecar: bool)
    requires Inv(s) && s.spool.objects == [] && Storable(Step(s, Sweep(part, sidecar)))
    ensures Storable(s)
  {
    if s.lock.None? {
      FreeBefore(s, Step(s, Sweep(part, sidecar)));
    }
  }

  /** A new request changes nothing that counts: it needs the sidecar. */
  lemma ArriveBefore(s: State, e: Event)
    requires Inv(s) && s.spool.objects == [] && (e.Arrive? || e.ArriveDelete?) && Storable(Step(s, e))
    ensures Storable(s)
  {
    if s.lock.None? && Step(s, e) != s {
      FreeBefore(s, Step(s, e));
    }
  }

  lemma CrashBefore(s: State)
    requires Inv(s) && s.spool.objects == [] && Storable(Step(s, Crash))
    ensures Storable(s)
  {
    var s' := Step(s, Crash);
    if s.lock.None? {
      FreeBefore(s, s');
    } else {
      NoneReach(|s.spool.data|, s.spool.total);
    }
  }

  lemma NoneReach(from: nat, total: nat)
    ensures !Reaches(map[], from, total)
  {
  }

  lemma DeleteBefore(s: State, t: Tid, f: Fault)
    requires Inv(s) && s.spool.objects == [] && Storable(Step(s, Delete(t, f)))
    ensures Storable(s)
  {
    if Step(s, Delete(t, f)) != s {
      FreeBefore(s, Step(s, Delete(t, f)));
    }
  }

  /** No step makes a session storable that was not; one that stores was storable. */
  lemma StorableBefore(s: State, e: Event)
    requires Inv(s) && s.spool.objects == [] && (Step(s, e).spool.objects != [] || Storable(Step(s, e)))
    ensures Storable(s)
  {
    match e
    case Arrive(_, _) => ArriveBefore(s, e);
    case ArriveDelete(_) => ArriveBefore(s, e);
    case Acquire(t, tempFull) => AcquireBefore(s, t, tempFull);
    case Write(t, n) => WriteBefore(s, t, n);
    case EndCopy(t, f) => EndCopyBefore(s, t, f);
    case OpenPart(t, f) => OpenBefore(s, t, f);
    case HandOver(t, f) => HandOverBefore(s, t, f);
    case Reply(_, _) =>
    case Delete(t, f) => DeleteBefore(s, t, f);
    case Sweep(part, sidecar) => SweepBefore(s, part, sidecar);
    case Crash => CrashBefore(s);
  }

  lemma OpenBefore(s: State, t: Tid, f: Fault)
    requires Inv(s) && s.spool.objects == [] && Storable(OpenPartStep(s, t, f))
    ensures Storable(s)
  {
    if OpenPartStep(s, t, f).lock.None? && OpenPartStep(s, t, f) != s && !s.spool.sidecar {
      ReachesBelow(OpenPartStep(s, t, f).phases, |s.spool.data|, s.spool.total);
    }
  }

  lemma HandOverBefore(s: State, t: Tid, f: Fault)
    requires Inv(s) && s.spool.objects == [] && (HandOverStep(s, t, f).spool.objects != [] || Storable(HandOverStep(s, t, f)))
    ensures Storable(s)
  {
  }

  lemma {:induction false} StoredWasStorable(s: State, es: seq<Event>)
    requires Inv(s) && s.spool.objects == [] && Run(s, es).spool.objects != []
    ensures Storable(s)
    decreases |es|
  {
    var s' := Step(s, es[0]);
    StepKeeps(s, es[0]);
    if s'.spool.objects == [] {
      StoredWasStorable(s', es[1..]);
    }
    StorableBefore(s, es[0]);
  }

  // ----- what can be stored is, by some run -----

  /** Some run from here stores an object. */
  ghost predicate CanStore(s: State) {
    exists es :: Run(s, es).spool.objects != []
  }

  lemma StoresLater(s: State, e: Event)
    requires CanStore(Step(s, e))
    ensures CanStore(s)
  {
    var es :| Run(Step(s, e), es).spool.objects != [];
    RunCons(s, e, es);
    assert Run(s, [e] + es).spool.objects != [];
  }

  /** One request for everything that is missing. */
  function LastChunk(s: State): Span
    requires |s.spool.data| < s.spool.total
  {
    Span(|s.spool.data|, s.spool.total - 1, s.spool.total)
  }

  lemma LastChunkStores(s: State)
    requires Inv(s) && s.lock.None? && s.phases == map[] && s.spool.objects == []
    requires s.spool.sidecar && s.spool.linked && |s.spool.data| < s.spool.total
    ensures var n := s.spool.total - |s.spool.data|;
      Run(s, PatchEvents(0, LastChunk(s), n, CALM.(arrived := n))).spool.objects == [s.source]
  {
    var span, n := LastChunk(s), s.spool.total - |s.spool.data|;
    var f, body := CALM.(arrived := n), s.source[span.start..];
    assert body[..n] == body && s.spool.data + body == s.source;
    UninterruptedPatch(s, 0, span, body, f);
  }

  /** A restart clears the requests, and one new request can then deliver the rest. */
  lemma RestartStores(s: State)
    requires Inv(s) && s.lock.None? && s.spool.objects == []
    requires s.spool.sidecar && s.spool.linked && |s.spool.data| < s.spool.total
    ensures CanStore(s)
  {
    StepKeeps(s, Crash);
    LastChunkStores(Step(s, Crash));
    StoresLater(s, Crash);
  }

  lemma OpenedStores(s: State, t: Tid)
    requires Inv(s) && At(s, t) && s.phases[t] == Opened
    ensures CanStore(s)
  {
    assert Run(Step(s, HandOver(t, CALM)), []).spool.objects != [];
    StoresLater(s, HandOver(t, CALM));
  }

  lemma FinishingStores(s: State, t: Tid)
    requires Inv(s) && At(s, t) && s.phases[t] == Finishing && s.spool.linked
    ensures CanStore(s)
  {
    StepKeeps(s, OpenPart(t, CALM));
    OpenedStores(Step(s, OpenPart(t, CALM)), t);
    StoresLater(s, OpenPart(t, CALM));
  }

  /** The running copy writes everything it wants, and that is all that was missing. */
  lemma LastCopyStores(s: State, t: Tid)
    requires Inv(s) && At(s, t) && s.phases[t].Copying? && s.spool.linked
    requires s.phases[t].offset + s.phases[t].want == s.spool.total
    ensures CanStore(s)
  {
    var write := Write(t, s.phases[t].want - s.phases[t].got);
    var s1 := Step(s, write);
    StepKeeps(s, write);
    StepKeeps(s1, EndCopy(t, CALM));
    FinishingStores(Step(s1, EndCopy(t, CALM)), t);
    StoresLater(s1, EndCopy(t, CALM));
    StoresLater(s, write);
  }

  const CUT_SHORT := CALM.(readFails := true, truncateFails := true)

  /** The running copy gets as far as `y` and leaves the spool there; those that wait go on from it. */
  lemma CopyLeavesAt(s: State, t: Tid, y: nat)
    requires Inv(s) && At(s, t) && s.phases[t].Copying? && s.spool.linked && s.spool.objects == []
    requires s.phases[t].offset + s.phases[t].got <= y <= s.phases[t].offset + s.phases[t].want
    requires y < s.spool.total && Reaches(s.phases, y, s.spool.total)
    ensures CanStore(s)
    decreases s.spool.total - y, 1
  {
    var write := Write(t, y - s.phases[t].offset - s.phases[t].got);
    var s1 := Step(s, write);
    var s2 := Step(s1, EndCopy(t, CUT_SHORT));
    StepKeeps(s, write);
    StepKeeps(s1, EndCopy(t, CUT_SHORT));
    ReachesWithout(s.phases, t, y, s.spool.total);
    assert s1.phases - {t} == s.phases - {t};
    WaitersStore(s2);
    StoresLater(s1, EndCopy(t, CUT_SHORT));
    StoresLater(s, write);
  }

  lemma WaitersStore(s: State)
    requires Inv(s) && s.lock.None? && s.spool.linked && s.spool.objects == []
    requires Reaches(s.phases, |s.spool.data|, s.spool.total)
    ensures CanStore(s)
    decreases s.spool.total - |s.spool.data|, 0
  {
    var from, total := |s.spool.data|, s.spool.total;
    var t :| t in s.phases && Starts(s.phases[t], from, total)
      && (from + s.phases[t].want == total || ReachesBetween(s.phases, from + 1, from + s.phases[t].want, total));
    var want, s1 := s.phases[t].want, Step(s, Acquire(t, false));
    StepKeeps(s, Acquire(t, false));
    if from + want == total {
      LastCopyStores(s1, t);
    } else {
      assert ReachesBetween(s.phases, from + 1, from + want, total);
      var y: nat :| from + 1 <= y <= from + want && y < total && Reaches(s.phases, y, total);
      ReachesWithout(s.phases, t, y, total);
      assert Fewer(s1.phases, s.phases - {t});
      ReachesFewer(s1.phases, s.phases - {t}, y, total);
      CopyLeavesAt(s1, t, y);
    }
    StoresLater(s, Acquire(t, false));
  }

  /** The running copy is rolled back to where it started. */
  lemma RollBackStores(s: State, t: Tid)
    requires Inv(s) && At(s, t) && s.phases[t].Copying? && s.spool.linked && s.spool.objects == []
    requires s.spool.sidecar || Reaches(s.phases, s.phases[t].offset, s.spool.total)
    ensures CanStore(s)
  {
    var fail := EndCopy(t, CALM.(readFails := true));
    StepKeeps(s, fail);
    if s.spool.sidecar {
      RestartStores(Step(s, fail));
    } else {
      ReachesWithout(s.phases, t, s.phases[t].offset, s.spool.total);
      WaitersStore(Step(s, fail));
    }
    StoresLater(s, fail);
  }

  lemma CopyingStores(s: State, t: Tid)
    requires Inv(s) && s.lock == Some(t) && t in s.phases && s.phases[t].Copying? && s.spool.objects == [] && Storable(s)
    ensures CanStore(s)
  {
    var p, total := s.phases[t], s.spool.total;
    if s.spool.sidecar || Reaches(s.phases, p.offset, total) {
      RollBackStores(s, t);
    } else if p.offset + p.want == total {
      LastCopyStores(s, t);
    } else {
      assert ReachesBetween(s.phases, p.offset + p.got, p.offset + p.want, total);
      var y: nat :| p.offset + p.got <= y <= p.offset + p.want && y < total && Reaches(s.phases, y, total);
      CopyLeavesAt(s, t, y);
    }
  }

  lemma StorableIsStored(s: State)
    requires Inv(s) && s.spool.objects == [] && Storable(s)
    ensures CanStore(s)
  {
    if s.lock.None? {
      if s.spool.sidecar {
        RestartStores(s);
      } else {
        WaitersStore(s);
      }
    } else {
      var t := s.lock.value;
      match s.phases[t]
      case Copying(_, _, _) => CopyingStores(s, t);
      case Finishing => FinishingStores(s, t);
      case Opened => OpenedStores(s, t);
      case _ => assert false;
    }
  }

  /**
   In every state that a session's requests, sweeps and crashes can reach and
   that has stored nothing: some continuation stores it if and only if it is
   storable. A complete session that no request is finishing is not.
   */
  lemma CanStillBeStoredIff(s: State)
    requires Inv(s) && s.spool.objects == []
    ensures CanStore(s) <==> Storable(s)
  {
    if Storable(s) {
      StorableIsStored(s);
    } else if es :| Run(s, es).spool.objects != [] {
      StoredWasStorable(s, es);
    }
  }

  /** The spool is complete, yet nothing is stored and no request is finishing it. */
  predicate Stranded(s: State) {
    s.lock.None? && |s.spool.data| == s.spool.total && s.spool.objects == []
  }

  /** Every upload can end there: its one request delivers everything, and the finish is refused. */
  lemma RefusedFinishStrands(source: bytes)
    requires source != []
    ensures var n := |source|;
      var s := Run(Created(source), PatchEvents(0, Span(0, n - 1, n), n, CALM.(refused := true, arrived := n)));
      && Stranded(s) && s.phases == map[] && s.spool.sidecar && s.spool.linked
      && !CanStore(s)
  {
    var n := |source|;
    var c, span, f := Created(source), Span(0, n - 1, n), CALM.(refused := true, arrived := n);
    var s := Run(c, PatchEvents(0, span, n, f));
    RunPatchEvents(c, 0, span, n, f);
    assert source[0..n] == source;
    assert s.phases == map[];
    CreatedOk(source);
    RunKeeps(c, PatchEvents(0, span, n, f));
    CanStillBeStoredIff(s);
  }
}
