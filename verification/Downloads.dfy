/** The Max-Downloads accounting of one upload, under overlapping downloads and storage faults. */
module Downloads {
  import opened Basics

  type Tid = nat

  /** The stored metadata; -1 means no download budget. */
  datatype Metadata = Metadata(maxDownloads: int, downloads: int, maxDate: Option<int>) {

    predicate Exhausted() {
      maxDownloads != -1 && downloads >= maxDownloads
    }

    predicate Expired(now: int) {
      maxDate.Some? && now > maxDate.value
    }
  }

  /** The metadata object in storage: absent, or unreadable, or readable. */
  type Stored = Option<Metadata>

  /** What storage does during one locked section. A failed Put may leave the old object or nothing. */
  datatype Fault = Fault(getFails: bool, putFails: bool, putDestroys: bool, purgeRemoves: bool)

  datatype ReadResult = Missing | Spent | Live(m: Metadata)

  function AfterPurge(s: Stored, f: Fault): Stored {
    if f.purgeRemoves then None else s
  }

  /** readMetadata: an upload past a limit is purged, best effort, and refused. */
  function ReadMetadata(s: Stored, now: int, f: Fault): (r: (ReadResult, Stored)) {
    if f.getFails || s.None? then (Missing, s)
    else if s.value.Exhausted() || s.value.Expired(now) then (Spent, AfterPurge(s, f))
    else (Live(s.value), s)
  }

  datatype CountResult = Counted | Unlimited | Refused | Lost

  /** increaseDownload: read again, add one, write back, purge when the budget is used up. */
  function IncreaseDownload(s: Stored, now: int, f: Fault): (CountResult, Stored) {
    var (r, s') := ReadMetadata(s, now, f);
    match r
    case Missing => (if s.None? then Refused else Lost, s')
    case Spent => (Refused, s')
    case Live(m) =>
      if m.maxDownloads == -1 then (Unlimited, s)
      else
        var m' := m.(downloads := m.downloads + 1);
        if f.putFails then (Lost, if f.putDestroys then None else s)
        else (Counted, if m'.Exhausted() then AfterPurge(Some(m'), f) else Some(m'))
  }

  const ALL_WELL := Fault(false, false, false, true)

  /**
   The check, field by field. It admits a request exactly if storage answers with an
   upload that has no budget or some of it left, and no date or one that has not
   passed. What it refuses for either reason it purges, if the purge works; it
   changes nothing else.
   */
  lemma CheckIff(s: Stored, now: int, f: Fault)
    ensures var (r, s') := ReadMetadata(s, now, f);
      var spent := s.Some? && s.value.maxDownloads != -1 && s.value.maxDownloads <= s.value.downloads;
      var past := s.Some? && s.value.maxDate.Some? && s.value.maxDate.value < now;
      && (r.Live? <==> s.Some? && !f.getFails && !spent && !past)
      && (r.Live? ==> r.m == s.value)
      && (r.Spent? <==> s.Some? && !f.getFails && (spent || past))
      && s' == if r.Spent? && f.purgeRemoves then None else s
  {
  }

  /**
   The count, field by field: lost if storage does not answer or take it, refused if
   the check would refuse, recorded otherwise, and purged with the last of the budget.
   */
  lemma CountIff(s: Stored, now: int, f: Fault)
    ensures var (c, s') := IncreaseDownload(s, now, f);
      var admitted := ReadMetadata(s, now, f).0.Live?;
      var limited := admitted && s.value.maxDownloads != -1;
      && (c == Refused <==> s.None? || (!f.getFails && !admitted))
      && (c == Lost <==> s.Some? && (f.getFails || (limited && f.putFails)))
      && (c == Unlimited <==> admitted && !limited)
      && (c == Counted <==> limited && !f.putFails)
      && (c == Counted ==>
           var m := s.value.(downloads := s.value.downloads + 1);
           s' == if m.downloads >= m.maxDownloads && f.purgeRemoves then None else Some(m))
      && (c == Lost ==> s' == if !f.getFails && f.putDestroys then None else s)
      && (c == Unlimited ==> s' == s)
      && (c == Refused ==> s' == ReadMetadata(s, now, f).1)
  {
    CheckIff(s, now, f);
  }

  /** Nothing is ever counted against an upload without a budget, and counting it changes nothing. */
  lemma UnlimitedIsNotCounted(s: Stored, now: int, f: Fault)
    requires s.Some? && s.value.maxDownloads == -1 && (s.value.maxDate.Some? ==> now <= s.value.maxDate.value)
    ensures var (c, s') := IncreaseDownload(s, now, f);
      s' == s && (if f.getFails then c == Lost else c == Unlimited)
  {
  }

  /**
   The check and the count agree on what is left of a limited upload: a request
   is admitted exactly when a count at that moment would be recorded.
   */
  lemma CheckAgreesWithCount(s: Stored, now: int, f: Fault)
    requires s.Some? ==> s.value.maxDownloads != -1
    ensures ReadMetadata(s, now, f).0.Live? && !f.putFails <==> IncreaseDownload(s, now, f).0 == Counted
    ensures IncreaseDownload(s, now, f).0 == Refused ==> !ReadMetadata(s, now, f).0.Live?
  {
  }

  /** Counting again and again, each time with its own faults: how many are recorded, and what is then stored. */
  function CountAll(s: Stored, now: int, fs: seq<Fault>): (r: (nat, Stored))
    decreases |fs|
  {
    if fs == [] then (0, s)
    else
      var (c, s') := IncreaseDownload(s, now, fs[0]);
      var (n, last) := CountAll(s', now, fs[1..]);
      ((if c == Counted then 1 else 0) + n, last)
  }

  function Left(s: Stored): int {
    if s.None? then 0 else Max(0, s.value.maxDownloads - s.value.downloads)
  }

  lemma CountOnce(s: Stored, now: int, f: Fault)
    requires s.Some? ==> s.value.maxDownloads != -1
    ensures var (c, s') := IncreaseDownload(s, now, f);
      && (s'.Some? ==> s.Some? && s'.value == s.value.(downloads := s.value.downloads + (if c == Counted then 1 else 0)))
      && (c == Counted ==> Left(s) > 0 && (s'.Some? ==> Left(s') == Left(s) - 1))
      && (f == ALL_WELL && s.Some? && !s.value.Expired(now) ==> (c == Counted <==> Left(s) > 0) && (s'.None? <==> Left(s) <= 1))
  {
  }

  /**
   However often a limited upload is counted and whatever fails, no more than what
   was left is recorded, and what is stored says exactly how many were; if nothing
   fails and the date has not passed, exactly what was left is recorded.
   */
  lemma {:induction false} CountsUpToBudget(s: Stored, now: int, fs: seq<Fault>)
    requires s.Some? ==> s.value.maxDownloads != -1
    ensures var (n, last) := CountAll(s, now, fs);
      && n <= Left(s)
      && (last.Some? ==> s.Some? && last.value == s.value.(downloads := s.value.downloads + n))
      && (s.Some? && !s.value.Expired(now) && (forall f <- fs :: f == ALL_WELL) ==> n == Min(|fs|, Left(s)))
    decreases |fs|
  {
    if fs != [] {
      CountOnce(s, now, fs[0]);
      assert fs[0] in fs && forall f <- fs[1..] :: f in fs;
      CountsUpToBudget(IncreaseDownload(s, now, fs[0]).1, now, fs[1..]);
    }
  }

  /** The stored object and the two locked sections that read and write it. */
  class UploadRecord {
    var stored: Stored

    constructor (m: Metadata)
      ensures stored == Some(m)
    {
      stored := Some(m);
    }

    method Purge(f: Fault)
      modifies this
      ensures stored == AfterPurge(old(stored), f)
    {
      if f.purgeRemoves {
        stored := None;
      }
    }

    method CheckMetadata(now: int, f: Fault) returns (r: ReadResult)
      modifies this
      ensures (r, stored) == ReadMetadata(old(stored), now, f)
    {
      if f.getFails || stored.None? {
        return Missing;
      }
      var m := stored.value;
      if m.maxDownloads != -1 && m.downloads >= m.maxDownloads {
        Purge(f);
        return Spent;
      }
      if m.maxDate.Some? && now > m.maxDate.value {
        Purge(f);
        return Spent;
      }
      r := Live(m);
    }

    method RecordDownload(now: int, f: Fault) returns (r: CountResult)
      modifies this
      ensures (r, stored) == IncreaseDownload(old(stored), now, f)
    {
      var absent := stored.None?;
      var read := CheckMetadata(now, f);
      match read
      case Missing => return if absent then Refused else Lost;
      case Spent => return Refused;
      case Live(m) =>
        if m.maxDownloads == -1 {
          return Unlimited;
        }
        var m' := m.(downloads := m.downloads + 1);
        if f.putFails {
          if f.putDestroys {
            stored := None;
          }
          return Lost;
        }
        stored := Some(m');
        if m'.downloads >= m'.maxDownloads {
          Purge(f);
        }
        r := Counted;
    }
  }

  // ----- overlapping downloads -----

  /** A request after its check: still sending the whole file, sending a tail, or sent and not yet counted. */
  datatype Phase = Sending | SendingTail | Sent

  /** `completed`, `recorded`, `lost` and `refused` only observe the run. */
  datatype State = State(stored: Stored, now: int, phases: map<Tid, Phase>,
                         completed: nat, recorded: nat, lost: nat, refused: nat)

  datatype Event =
    | Check(t: Tid, tail: bool, f: Fault)
    | Finish(t: Tid)
    | Abort(t: Tid)
    | Count(t: Tid, f: Fault)
    | Tick(to: int)

  function Leave(s: State, t: Tid): map<Tid, Phase> {
    s.phases - {t}
  }

  /** getHandler: check, transfer, count. A range that starts past zero is never counted. */
  function Step(s: State, e: Event): State {
    match e
    case Check(t, tail, f) =>
      if t in s.phases then s
      else
        var (r, stored) := ReadMetadata(s.stored, s.now, f);
        if r.Live? then s.(phases := s.phases[t := if tail then SendingTail else Sending])
        else s.(stored := stored)
    case Finish(t) =>
      if t !in s.phases || s.phases[t] == Sent then s
      else if s.phases[t] == SendingTail then s.(phases := Leave(s, t))
      else s.(phases := s.phases[t := Sent], completed := s.completed + 1)
    case Abort(t) =>
      if t in s.phases && s.phases[t] != Sent then s.(phases := Leave(s, t)) else s
    case Count(t, f) =>
      if t !in s.phases || s.phases[t] != Sent then s
      else
        var (r, stored) := IncreaseDownload(s.stored, s.now, f);
        var s' := s.(stored := stored, phases := Leave(s, t));
        match r {
          case Counted => s'.(recorded := s.recorded + 1)
          case Refused => s'.(refused := s.refused + 1)
          case Lost => s'.(lost := s.lost + 1)
          case Unlimited => s'
        }
    case Tick(to) => if to > s.now then s.(now := to) else s
  }

  function Run(s: State, es: seq<Event>): State
    decreases |es|
  {
    if es == [] then s else Run(Step(s, es[0]), es[1..])
  }

  /** Whole-file requests between their check and the end of their count. */
  function Active(s: State): set<Tid> {
    set t | t in s.phases && s.phases[t] != SendingTail
  }

  function Uncounted(s: State): set<Tid> {
    set t | t in s.phases && s.phases[t] == Sent
  }

  /** At no moment of the run do more than `k` of them overlap. */
  predicate Overlap(s: State, es: seq<Event>, k: nat)
    decreases |es|
  {
    |Active(s)| <= k && (es == [] || Overlap(Step(s, es[0]), es[1..], k))
  }

  function Fresh(budget: nat, maxDate: Option<int>, now: int): State {
    State(Some(Metadata(budget, 0, maxDate)), now, map[], 0, 0, 0, 0)
  }

  /** From here on every check is refused. */
  predicate Closed(s: State) {
    s.stored.None? || s.stored.value.Exhausted() || s.stored.value.Expired(s.now)
  }

  predicate Inv(s: State, budget: nat, k: nat) {
    && s.recorded <= budget
    && (s.stored.Some? ==> s.stored.value.maxDownloads == budget && s.stored.value.downloads == s.recorded)
    && (!Closed(s) ==> s.refused == 0 && s.recorded < budget)
    && (Closed(s) ==> s.recorded + s.refused + |Active(s)| <= budget + k - 1)
    && s.completed == s.recorded + |Uncounted(s)| + s.lost + s.refused
  }

  lemma LeaveSets(s: State, t: Tid)
    ensures var s' := s.(phases := Leave(s, t));
      Active(s') == Active(s) - {t} && Uncounted(s') == Uncounted(s) - {t}
  {
  }

  lemma CheckKeeps(s: State, t: Tid, tail: bool, f: Fault, budget: nat, k: nat)
    requires Inv(s, budget, k)
    ensures Inv(Step(s, Check(t, tail, f)), budget, k)
  {
    var s' := Step(s, Check(t, tail, f));
    if t !in s.phases && ReadMetadata(s.stored, s.now, f).0.Live? {
      assert Uncounted(s') == Uncounted(s);
    } else {
      assert Active(s') == Active(s) && Uncounted(s') == Uncounted(s);
    }
  }

  lemma FinishKeeps(s: State, t: Tid, budget: nat, k: nat)
    requires Inv(s, budget, k)
    ensures Inv(Step(s, Finish(t)), budget, k)
  {
    if t in s.phases && s.phases[t] == Sending {
      SentSets(s, t);
    } else if t in s.phases && s.phases[t] == SendingTail {
      LeaveSets(s, t);
      assert Active(s) - {t} == Active(s) && Uncounted(s) - {t} == Uncounted(s);
    }
  }

  lemma SentSets(s: State, t: Tid)
    requires t in s.phases && s.phases[t] == Sending
    ensures var s' := s.(phases := s.phases[t := Sent], completed := s.completed + 1);
      Active(s') == Active(s) && |Uncounted(s')| == |Uncounted(s)| + 1
  {
    var s' := s.(phases := s.phases[t := Sent], completed := s.completed + 1);
    assert Uncounted(s') == Uncounted(s) + {t};
  }

  lemma AbortKeeps(s: State, t: Tid, budget: nat, k: nat)
    requires Inv(s, budget, k)
    ensures Inv(Step(s, Abort(t)), budget, k)
  {
    if t in s.phases && s.phases[t] != Sent {
      OtherSteps(s, t, false, ALL_WELL, s.now);
      LeaveSets(s, t);
      assert Uncounted(s) - {t} == Uncounted(s);
    }
  }

  lemma CountKeeps(s: State, t: Tid, f: Fault, budget: nat, k: nat)
    requires Inv(s, budget, k) && |Active(s)| <= k
    ensures Inv(Step(s, Count(t, f)), budget, k)
  {
    if t in s.phases && s.phases[t] == Sent {
      LeaveSets(s, t);
      assert t in Active(s) && t in Uncounted(s);
    }
  }

  lemma StepKeeps(s: State, e: Event, budget: nat, k: nat)
    requires Inv(s, budget, k) && |Active(s)| <= k
    ensures Inv(Step(s, e), budget, k)
  {
    match e
    case Check(t, tail, f) => CheckKeeps(s, t, tail, f, budget, k);
    case Finish(t) => FinishKeeps(s, t, budget, k);
    case Abort(t) => AbortKeeps(s, t, budget, k);
    case Count(t, f) => CountKeeps(s, t, f, budget, k);
    case Tick(to) =>
      assert Active(Step(s, e)) == Active(s) && Uncounted(Step(s, e)) == Uncounted(s);
  }

  lemma {:induction false} RunKeeps(s: State, es: seq<Event>, budget: nat, k: nat)
    requires Inv(s, budget, k) && Overlap(s, es, k)
    ensures Inv(Run(s, es), budget, k) && |Active(Run(s, es))| <= k
    decreases |es|
  {
    if es != [] {
      StepKeeps(s, es[0], budget, k);
      RunKeeps(Step(s, es[0]), es[1..], budget, k);
    }
  }

  lemma FreshOk(budget: nat, maxDate: Option<int>, now: int, k: nat)
    requires k > 0
    ensures Inv(Fresh(budget, maxDate, now), budget, k) && Active(Fresh(budget, maxDate, now)) == {}
  {
    var s := Fresh(budget, maxDate, now);
    assert Active(s) == {} && Uncounted(s) == {};
  }

  /**
   With at most `k` overlapping downloads, at most budget + k - 1 full transfers
   complete, plus one for each increment that storage failed to record.
   */
  lemma TransfersAreBounded(budget: nat, maxDate: Option<int>, now: int, es: seq<Event>, k: nat)
    requires k > 0 && Overlap(Fresh(budget, maxDate, now), es, k)
    ensures var s := Run(Fresh(budget, maxDate, now), es);
      && s.completed <= budget + k - 1 + s.lost
      && s.recorded <= budget
  {
    var s := Run(Fresh(budget, maxDate, now), es);
    FreshOk(budget, maxDate, now, k);
    RunKeeps(Fresh(budget, maxDate, now), es, budget, k);
    assert Uncounted(s) <= Active(s);
    SubsetCard(Uncounted(s), Active(s));
  }

  lemma SubsetCard(a: set<Tid>, b: set<Tid>)
    requires a <= b
    ensures |a| <= |b|
  {
    assert b == a + (b - a);
  }

  /** Only a check can let a request in, and only its own. */
  lemma ActiveGrows(s: State, e: Event)
    ensures Active(Step(s, e)) <= Active(s) + (if e.Check? then {e.t} else {})
  {
    match e
    case Check(_, _, _) =>
    case Finish(_) =>
    case Abort(t) => LeaveSets(s, t);
    case Count(t, _) => LeaveSets(s, t);
    case Tick(_) =>
  }

  lemma OneMoreActive(s: State, e: Event)
    ensures |Active(Step(s, e))| <= |Active(s)| + 1
  {
    var more: set<Tid> := if e.Check? then {e.t} else {};
    ActiveGrows(s, e);
    SubsetCard(Active(Step(s, e)), Active(s) + more);
  }

  /** No more requests can overlap than there are events. */
  lemma {:induction false} OverlapOfAll(s: State, es: seq<Event>, k: nat)
    requires |Active(s)| + |es| <= k
    ensures Overlap(s, es, k)
    decreases |es|
  {
    if es != [] {
      OneMoreActive(s, es[0]);
      OverlapOfAll(Step(s, es[0]), es[1..], k);
    }
  }

  /** No increment is lost to a race: every completed transfer is recorded, waiting, refused, or failed in storage. */
  lemma TransfersAreConserved(budget: nat, maxDate: Option<int>, now: int, es: seq<Event>)
    ensures var s := Run(Fresh(budget, maxDate, now), es);
      && s.completed == s.recorded + |Uncounted(s)| + s.lost + s.refused
      && (s.stored.Some? ==> s.stored.value.downloads == s.recorded)
  {
    var k := |es| + 1;
    FreshOk(budget, maxDate, now, k);
    OverlapOfAll(Fresh(budget, maxDate, now), es, k);
    RunKeeps(Fresh(budget, maxDate, now), es, budget, k);
  }

  /** While one download is on its way, the upload it was admitted to still has room for its count. */
  predicate RoomForOne(s: State) {
    && s.refused == 0
    && (s.stored.Some? ==> s.stored.value.maxDownloads != -1 && s.stored.value.maxDate == None)
    && (Active(s) != {} ==> s.stored.Some? && !s.stored.value.Exhausted())
  }

  lemma RoomAfterCount(s: State, t: Tid, f: Fault)
    requires RoomForOne(s) && |Active(s)| <= 1
    ensures RoomForOne(Step(s, Count(t, f)))
  {
    if t in s.phases && s.phases[t] == Sent {
      assert t in Active(s);
      LeaveSets(s, t);
      assert |Active(s) - {t}| == 0;
      CheckAgreesWithCount(s.stored, s.now, f);
    }
  }

  lemma RoomAfterStep(s: State, e: Event)
    requires RoomForOne(s) && |Active(s)| <= 1
    ensures RoomForOne(Step(s, e))
  {
    match e
    case Check(t, tail, f) =>
      if !(t !in s.phases && ReadMetadata(s.stored, s.now, f).0.Live?) {
        assert Active(Step(s, e)) == Active(s);
      }
    case Finish(_) => ActiveGrows(s, e);
    case Abort(_) => ActiveGrows(s, e);
    case Count(t, f) => RoomAfterCount(s, t, f);
    case Tick(_) => ActiveGrows(s, e);
  }

  lemma {:induction false} RoomAfterRun(s: State, es: seq<Event>)
    requires RoomForOne(s) && Overlap(s, es, 1)
    ensures RoomForOne(Run(s, es))
    decreases |es|
  {
    if es != [] {
      RoomAfterStep(s, es[0]);
      RoomAfterRun(Step(s, es[0]), es[1..]);
    }
  }

  /**
   One download at a time, of an upload without a date: none is refused after it
   was sent, so what completed is what was recorded, what storage failed to
   record, and the one that may still be waiting.
   */
  lemma OneAtATimeIsExact(budget: nat, now: int, es: seq<Event>)
    requires Overlap(Fresh(budget, None, now), es, 1)
    ensures var s := Run(Fresh(budget, None, now), es);
      s.refused == 0 && s.completed == s.recorded + |Uncounted(s)| + s.lost
  {
    FreshOk(budget, None, now, 1);
    RoomAfterRun(Fresh(budget, None, now), es);
    TransfersAreConserved(budget, None, now, es);
  }

  /**
   The other steps: a refused check leaves what the check leaves; a tail ends without
   a count; a broken transfer is over; and time only goes forward.
   */
  lemma OtherSteps(s: State, t: Tid, tail: bool, f: Fault, to: int)
    ensures t !in s.phases && !ReadMetadata(s.stored, s.now, f).0.Live? ==>
      Step(s, Check(t, tail, f)) == s.(stored := ReadMetadata(s.stored, s.now, f).1)
    ensures t in s.phases && s.phases[t] == SendingTail ==> Step(s, Finish(t)) == s.(phases := s.phases - {t})
    ensures t in s.phases && s.phases[t] != Sent ==> Step(s, Abort(t)) == s.(phases := s.phases - {t})
    ensures Step(s, Tick(to)) == s.(now := if to > s.now then to else s.now)
  {
  }

  /** The date of an upload, if it has one, has not passed. */
  predicate InTime(s: State, maxDate: Option<int>) {
    maxDate.Some? ==> s.now <= maxDate.value
  }

  lemma UnlimitedStep(s: State, e: Event, m: Metadata)
    requires m.maxDownloads == -1 && s.stored == Some(m) && InTime(s, m.maxDate)
    ensures Step(s, e).stored == Some(m)
    ensures Step(s, e).recorded == s.recorded && Step(s, e).refused == s.refused
  {
    match e
    case Check(_, _, f) => CheckIff(s.stored, s.now, f);
    case Count(_, f) => UnlimitedIsNotCounted(s.stored, s.now, f);
    case _ =>
  }

  lemma {:induction false} TimePasses(s: State, es: seq<Event>)
    ensures s.now <= Run(s, es).now
    decreases |es|
  {
    if es != [] {
      TimePasses(Step(s, es[0]), es[1..]);
    }
  }

  /**
   An upload without a budget, over every run that ends before its date: the object
   stays as it was, nothing is counted or refused, and every check that storage
   answers admits its request.
   */
  lemma {:induction false} UnlimitedIsServed(s: State, es: seq<Event>, m: Metadata, f: Fault)
    requires m.maxDownloads == -1 && s.stored == Some(m) && InTime(Run(s, es), m.maxDate)
    ensures var last := Run(s, es);
      && last.stored == Some(m) && last.recorded == s.recorded && last.refused == s.refused
      && (!f.getFails ==> ReadMetadata(last.stored, last.now, f).0 == Live(m))
    decreases |es|
  {
    TimePasses(s, es);
    if es == [] {
      CheckIff(s.stored, s.now, f);
    } else {
      UnlimitedStep(s, es[0], m);
      UnlimitedIsServed(Step(s, es[0]), es[1..], m, f);
    }
  }

  /** An upload with a budget left, before its date: a request that storage answers for is admitted, at every point of every run. */
  lemma LimitedIsServed(s: State, t: Tid, tail: bool, f: Fault)
    requires s.stored.Some? && 0 <= s.stored.value.downloads < s.stored.value.maxDownloads && InTime(s, s.stored.value.maxDate)
    requires t !in s.phases && !f.getFails
    ensures Step(s, Check(t, tail, f)) == s.(phases := s.phases[t := if tail then SendingTail else Sending])
  {
    CheckIff(s.stored, s.now, f);
  }

  /**
   Once a check would be refused, because the upload is gone, its budget used up or
   its date passed, it is refused for good, whether or not the purge works.
   */
  lemma {:induction false} ClosedForGood(s: State, es: seq<Event>)
    requires s.stored.Some? ==>
      (s.stored.value.maxDownloads != -1 && s.stored.value.maxDownloads <= s.stored.value.downloads)
      || (s.stored.value.maxDate.Some? && s.stored.value.maxDate.value < s.now)
    ensures Active(Run(s, es)) <= Active(s)
    ensures forall f :: !ReadMetadata(Run(s, es).stored, Run(s, es).now, f).0.Live?
    decreases |es|
  {
    if es != [] {
      var s' := Step(s, es[0]);
      assert Closed(s');
      assert Active(s') <= Active(s);
      ClosedForGood(s', es[1..]);
    }
  }

  // ----- the bound is reached -----

  /** The requests 1 to n. */
  function UpTo(n: nat): (ids: set<Tid>)
    ensures |ids| == n && forall t: nat :: t in ids <==> 1 <= t <= n
  {
    if n == 0 then {} else UpTo(n - 1) + {n}
  }

  /** `done` downloads of a budget are recorded; requests 1 to `sent` are sent, the others up to `open` are sending. */
  function Busy(budget: nat, done: nat, open: nat, sent: nat): State {
    State(Some(Metadata(budget, done, None)), 0,
          map t | t in UpTo(open) :: if t <= sent then Sent else Sending,
          done + sent, done, 0, 0)
  }

  function OneAfterAnother(m: nat): seq<Event> {
    if m == 0 then [] else [Check(1, false, ALL_WELL), Finish(1), Count(1, ALL_WELL)] + OneAfterAnother(m - 1)
  }

  function AllCheck(from: nat, k: nat): seq<Event>
    requires from <= k
    decreases k - from
  {
    if from == k then [] else [Check(from + 1, false, ALL_WELL)] + AllCheck(from + 1, k)
  }

  function AllFinish(from: nat, k: nat): seq<Event>
    requires from <= k
    decreases k - from
  {
    if from == k then [] else [Finish(from + 1)] + AllFinish(from + 1, k)
  }

  lemma BusyActive(budget: nat, done: nat, open: nat, sent: nat)
    ensures |Active(Busy(budget, done, open, sent))| == open
  {
    assert Active(Busy(budget, done, open, sent)) == UpTo(open);
  }

  lemma Cons(s: State, e: Event, es: seq<Event>, k: nat)
    requires |Active(s)| <= k
    ensures Run(s, [e] + es) == Run(Step(s, e), es)
    ensures Overlap(s, [e] + es, k) <==> Overlap(Step(s, e), es, k)
  {
    assert ([e] + es)[1..] == es;
  }

  lemma OneDownload(budget: nat, done: nat)
    requires done + 1 < budget
    ensures Step(Busy(budget, done, 0, 0), Check(1, false, ALL_WELL)) == Busy(budget, done, 1, 0)
    ensures Step(Busy(budget, done, 1, 0), Finish(1)) == Busy(budget, done, 1, 1)
    ensures Step(Busy(budget, done, 1, 1), Count(1, ALL_WELL)) == Busy(budget, done + 1, 0, 0)
  {
    assert Leave(Busy(budget, done, 1, 1), 1) == map[];
  }

  lemma SerialStep(budget: nat, done: nat, rest: seq<Event>, k: nat)
    requires done + 1 < budget && k > 0
    ensures var es := [Check(1, false, ALL_WELL), Finish(1), Count(1, ALL_WELL)] + rest;
      && Run(Busy(budget, done, 0, 0), es) == Run(Busy(budget, done + 1, 0, 0), rest)
      && (Overlap(Busy(budget, done, 0, 0), es, k) <==> Overlap(Busy(budget, done + 1, 0, 0), rest, k))
  {
    OneDownload(budget, done);
    ThreeSteps(Busy(budget, done, 0, 0), Busy(budget, done, 1, 0), Busy(budget, done, 1, 1),
               Check(1, false, ALL_WELL), Finish(1), Count(1, ALL_WELL), rest, k) by {
      BusyActive(budget, done, 0, 0);
      BusyActive(budget, done, 1, 0);
      BusyActive(budget, done, 1, 1);
    }
  }

  lemma {:induction false} SerialRun(budget: nat, done: nat, m: nat, es: seq<Event>, k: nat)
    requires done + m < budget && k > 0
    ensures Run(Busy(budget, done, 0, 0), OneAfterAnother(m) + es) == Run(Busy(budget, done + m, 0, 0), es)
    ensures Overlap(Busy(budget, done, 0, 0), OneAfterAnother(m) + es, k) <==> Overlap(Busy(budget, done + m, 0, 0), es, k)
    decreases m
  {
    if m == 0 {
      assert OneAfterAnother(0) + es == es;
    } else {
      var rest := OneAfterAnother(m - 1) + es;
      SerialStep(budget, done, rest, k);
      assert OneAfterAnother(m) + es == [Check(1, false, ALL_WELL), Finish(1), Count(1, ALL_WELL)] + rest;
      SerialRun(budget, done + 1, m - 1, es, k);
    }
  }

  lemma ThreeSteps(s0: State, s1: State, s2: State, e0: Event, e1: Event, e2: Event, es: seq<Event>, k: nat)
    requires Step(s0, e0) == s1 && Step(s1, e1) == s2
    requires |Active(s0)| <= k && |Active(s1)| <= k && |Active(s2)| <= k
    ensures Run(s0, [e0, e1, e2] + es) == Run(Step(s2, e2), es)
    ensures Overlap(s0, [e0, e1, e2] + es, k) <==> Overlap(Step(s2, e2), es, k)
  {
    Cons(s0, e0, [e1] + ([e2] + es), k);
    Cons(s1, e1, [e2] + es, k);
    Cons(s2, e2, es, k);
    assert [e0, e1, e2] + es == [e0] + ([e1] + ([e2] + es));
  }

  lemma OneMoreOpen(budget: nat, done: nat, from: nat)
    requires done < budget
    ensures Step(Busy(budget, done, from, 0), Check(from + 1, false, ALL_WELL)) == Busy(budget, done, from + 1, 0)
  {
  }

  lemma {:induction false} ChecksRun(budget: nat, done: nat, from: nat, k: nat, es: seq<Event>)
    requires done < budget && from <= k
    ensures Run(Busy(budget, done, from, 0), AllCheck(from, k) + es) == Run(Busy(budget, done, k, 0), es)
    ensures Overlap(Busy(budget, done, from, 0), AllCheck(from, k) + es, k) <==> Overlap(Busy(budget, done, k, 0), es, k)
    decreases k - from
  {
    if from == k {
      assert AllCheck(k, k) + es == es;
    } else {
      var e, rest := Check(from + 1, false, ALL_WELL), AllCheck(from + 1, k) + es;
      assert AllCheck(from, k) + es == [e] + rest;
      BusyActive(budget, done, from, 0);
      OneMoreOpen(budget, done, from);
      Cons(Busy(budget, done, from, 0), e, rest, k);
      ChecksRun(budget, done, from + 1, k, es);
    }
  }

  lemma OneMoreSent(budget: nat, done: nat, from: nat, k: nat)
    requires from < k
    ensures Step(Busy(budget, done, k, from), Finish(from + 1)) == Busy(budget, done, k, from + 1)
  {
  }

  lemma {:induction false} FinishesRun(budget: nat, done: nat, from: nat, k: nat)
    requires from <= k
    ensures Run(Busy(budget, done, k, from), AllFinish(from, k)) == Busy(budget, done, k, k)
    ensures Overlap(Busy(budget, done, k, from), AllFinish(from, k), k)
    decreases k - from
  {
    BusyActive(budget, done, k, from);
    if from < k {
      var e := Finish(from + 1);
      OneMoreSent(budget, done, from, k);
      Cons(Busy(budget, done, k, from), e, AllFinish(from + 1, k), k);
      FinishesRun(budget, done, from + 1, k);
    }
  }

  /** For every budget and every overlap, some run without any fault completes exactly that many transfers. */
  lemma BoundIsReached(budget: nat, k: nat) returns (es: seq<Event>)
    requires budget > 0 && k > 0
    ensures Overlap(Fresh(budget, None, 0), es, k)
    ensures Run(Fresh(budget, None, 0), es).completed == budget + k - 1 && Run(Fresh(budget, None, 0), es).lost == 0
  {
    var done := budget - 1;
    es := OneAfterAnother(done) + (AllCheck(0, k) + AllFinish(0, k));
    assert Fresh(budget, None, 0) == Busy(budget, 0, 0, 0);
    SerialRun(budget, 0, done, AllCheck(0, k) + AllFinish(0, k), k);
    ChecksRun(budget, done, 0, k, AllFinish(0, k));
    FinishesRun(budget, done, 0, k);
  }
}
