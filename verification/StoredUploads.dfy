/**
 The objects behind each upload, the operations that write and remove them with
 every way they can fail half-way, and how far the quota counter follows them.
 */
module StoredUploads {
  import opened Basics
  import opened Quota

  /** Local disk ignores a failed removal of the metadata; object storage does not notice a missing payload. */
  datatype Backend = LocalDisk | ObjectStore

  /** A stored object with the time of its last write; a failed write may leave it torn. */
  datatype File = Missing | Torn(size: nat, at: int) | Whole(size: nat, at: int) {

    function Size(): nat {
      if Missing? then 0 else size
    }

    predicate OlderThan(cutoff: int) {
      !Missing? && at < cutoff
    }
  }

  /** How a write ends: done, or failed with the old object kept, torn or gone. */
  datatype Write = Written | Kept | Tore(left: nat) | Erased

  function Put(was: File, size: nat, at: int, w: Write): File {
    match w
    case Written => Whole(size, at)
    case Kept => was
    case Tore(left) => Torn(left, at)
    case Erased => Missing
  }

  /** One upload: its declared length, its metadata and its payload. */
  datatype Item = Item(content: nat, meta: File, payload: File) {

    /** Its token still resolves. */
    predicate Resolves() {
      meta.Whole?
    }

    predicate Live() {
      meta.Whole? && payload.Whole?
    }

    function Bytes(): nat {
      meta.Size() + payload.Size()
    }

    function LiveContent(): nat {
      if Live() then content else 0
    }

    /** What deleting it may still take off the counter. */
    function Owed(): nat {
      if Resolves() then content else 0
    }
  }

  const BYTES: Item -> nat := (it: Item) => it.Bytes()
  const LIVE: Item -> nat := (it: Item) => it.LiveContent()
  const OWED: Item -> nat := (it: Item) => it.Owed()

  function Sum(items: seq<Item>, f: Item -> nat): nat {
    if items == [] then 0 else Sum(items[..|items| - 1], f) + f(items[|items| - 1])
  }

  /** What storage does during one operation; `took` is the time the payload takes to write. */
  datatype Fault = Fault(putMeta: Write, putPayload: Write, took: nat, metaStays: bool, payloadStays: bool)

  const CLEAN := Fault(Written, Written, 0, false, false)

  datatype DeleteResult = Done | NotExist | Failed

  /** Storage.Delete: metadata first, then the payload, whose removal decides the answer. */
  function DeleteObjects(b: Backend, it: Item, f: Fault): (Item, DeleteResult) {
    var noMeta := it.(meta := Missing);
    match b
    case LocalDisk =>
      var it' := if f.metaStays then it else noMeta;
      if it.payload.Missing? then (it', NotExist)
      else if f.payloadStays then (it', Failed)
      else (it'.(payload := Missing), Done)
    case ObjectStore =>
      if f.metaStays then (it, Failed)
      else if f.payloadStays then (noMeta, Failed)
      else (noMeta.(payload := Missing), Done)
  }

  /** The uploads one instance serves, and its counter; `seeded` is the last measurement. */
  datatype State = State(backend: Backend, limit: int, used: int, now: int, items: seq<Item>, seeded: int)

  function Empty(backend: Backend, limit: int): State {
    State(backend, limit, 0, 0, [], 0)
  }

  /** Which removals of one upload's objects fail during an age purge. */
  datatype Stuck = Stuck(meta: bool, payload: bool)

  datatype Event =
    | Upload(content: nat, payload: nat, meta: nat, f: Fault)
    | UserDelete(i: nat, f: Fault)
    | Expire(i: nat, f: Fault)
    | CountDownload(i: nat, size: nat, w: Write)
    | Purge(cutoff: int, stuck: seq<Stuck>, usageFails: bool)
    | Seed
    | Tick(to: int)

  /** Server-side encryption never makes a payload shorter than its content. */
  predicate WellFormed(e: Event) {
    e.Upload? ==> e.payload >= e.content
  }

  /** What `store` leaves behind, whether or not it succeeds: the metadata is written first. */
  function StoredItem(b: Backend, now: int, content: nat, payload: nat, meta: nat, f: Fault): Item {
    var it := Item(content, Put(Missing, meta, now, f.putMeta), Missing);
    if f.putMeta != Written then it
    else
      var it' := it.(payload := Put(Missing, payload, now + f.took, f.putPayload));
      if f.putPayload == Written then it' else DeleteObjects(b, it', f).0
  }

  predicate StoreSucceeds(f: Fault) {
    f.putMeta == Written && f.putPayload == Written
  }

  /** checkStorageQuota, then `store`. */
  function UploadStep(s: State, content: nat, payload: nat, meta: nat, f: Fault): (State, bool) {
    if !Fits(s.limit, s.used, content) then (s, false)
    else
      var s' := s.(items := s.items + [StoredItem(s.backend, s.now, content, payload, meta, f)], now := s.now + f.took);
      (if StoreSucceeds(f) then s'.(used := Added(s.limit, s.used, content)) else s', StoreSucceeds(f))
  }

  /** Deletes upload `i` and, where the answer allows it, takes its length off the counter. */
  function RemoveStep(s: State, i: nat, f: Fault, missingCounts: bool): State {
    if i >= |s.items| || !s.items[i].Resolves() then s
    else
      var (it, r) := DeleteObjects(s.backend, s.items[i], f);
      var s' := s.(items := s.items[i := it]);
      if r == Done || (r == NotExist && missingCounts) then s'.(used := Subtracted(s.limit, s.used, it.content)) else s'
  }

  function Swept(file: File, cutoff: int, stuck: bool): File {
    if file.OlderThan(cutoff) && !stuck then Missing else file
  }

  function StuckAt(stuck: seq<Stuck>, i: nat): Stuck {
    if i < |stuck| then stuck[i] else Stuck(false, false)
  }

  /** Each object goes by its own age. */
  function SweptItem(it: Item, cutoff: int, stuck: Stuck): Item {
    it.(meta := Swept(it.meta, cutoff, stuck.meta), payload := Swept(it.payload, cutoff, stuck.payload))
  }

  function SweptItems(items: seq<Item>, cutoff: int, stuck: seq<Stuck>): (r: seq<Item>)
    ensures |r| == |items|
    ensures forall i | 0 <= i < |items| :: r[i] == SweptItem(items[i], cutoff, StuckAt(stuck, i))
  {
    seq(|items|, i requires 0 <= i < |items| => SweptItem(items[i], cutoff, StuckAt(stuck, i)))
  }

  predicate RemovalFails(it: Item, cutoff: int, stuck: Stuck) {
    (it.meta.OlderThan(cutoff) && stuck.meta) || (it.payload.OlderThan(cutoff) && stuck.payload)
  }

  /** On disk a failed removal fails the purge; object storage only logs it. */
  predicate PurgeFails(s: State, cutoff: int, stuck: seq<Stuck>) {
    s.backend == LocalDisk && exists i :: 0 <= i < |s.items| && RemovalFails(s.items[i], cutoff, StuckAt(stuck, i))
  }

  function SeedStep(s: State): State {
    if s.limit > 0 then s.(used := Sum(s.items, BYTES), seeded := Sum(s.items, BYTES)) else s
  }

  function Step(s: State, e: Event): State {
    match e
    case Upload(content, payload, meta, f) => UploadStep(s, content, payload, meta, f).0
    case UserDelete(i, f) => RemoveStep(s, i, f, false)
    case Expire(i, f) => RemoveStep(s, i, f, true)
    case CountDownload(i, size, w) =>
      if i >= |s.items| || !s.items[i].Resolves() then s
      else s.(items := s.items[i := s.items[i].(meta := Put(s.items[i].meta, size, s.now, w))])
    case Purge(cutoff, stuck, usageFails) =>
      var s' := s.(items := SweptItems(s.items, cutoff, stuck));
      if PurgeFails(s, cutoff, stuck) || usageFails then s' else SeedStep(s')
    case Seed => SeedStep(s)
    case Tick(to) => if to > s.now then s.(now := to) else s
  }

  function Run(s: State, es: seq<Event>): State
    decreases |es|
  {
    if es == [] then s else Run(Step(s, es[0]), es[1..])
  }

  // ----- the operations as code -----

  class Server {
    const backend: Backend
    const quota: StorageQuota
    var now: int
    var items: seq<Item>
    ghost var seeded: int

    constructor (backend: Backend, limit: int)
      ensures View() == Empty(backend, limit) && fresh(quota)
    {
      this.backend := backend;
      quota := new StorageQuota(limit);
      now, items, seeded := 0, [], 0;
    }

    ghost function View(): State
      reads this, quota
    {
      State(backend, quota.limit, quota.used, now, items, seeded)
    }

    method Delete(i: nat, f: Fault) returns (r: DeleteResult)
      requires i < |items|
      modifies `items
      ensures items == old(items)[i := DeleteObjects(backend, old(items)[i], f).0]
      ensures r == DeleteObjects(backend, old(items)[i], f).1
    {
      var it := items[i];
      if !f.metaStays {
        it := it.(meta := Missing);
      } else if backend == ObjectStore {
        assert items == items[i := it];
        return Failed;
      }
      if backend == LocalDisk && it.payload.Missing? {
        items := items[i := it];
        return NotExist;
      }
      if f.payloadStays {
        items := items[i := it];
        return Failed;
      }
      items := items[i := it.(payload := Missing)];
      r := Done;
    }

    /** The metadata, then the payload, then the counter; a failed payload rolls the metadata back. */
    method Store(content: nat, payload: nat, meta: nat, f: Fault) returns (ok: bool)
      modifies this, quota
      ensures (View(), ok) == UploadStep(old(View()), content, payload, meta, f)
    {
      var fits := quota.Allows(content);
      if !fits {
        return false;
      }
      ghost var before, start := items, now;
      var i := |items|;
      items := items + [Item(content, Put(Missing, meta, now, f.putMeta), Missing)];
      now := now + f.took;
      if f.putMeta != Written {
        return false;
      }
      var it := items[i].(payload := Put(Missing, payload, now, f.putPayload));
      items := items[i := it];
      assert items == before + [it];
      if f.putPayload != Written {
        var r := Delete(i, f);
        assert items == before + [StoredItem(backend, start, content, payload, meta, f)];
        return false;
      }
      quota.Add(content);
      ok := true;
    }

    /** deleteHandler: a payload that is already missing is answered as not found. */
    method DeleteUpload(i: nat, f: Fault)
      modifies this, quota
      ensures View() == Step(old(View()), UserDelete(i, f))
    {
      if i >= |items| || !items[i].Resolves() {
        return;
      }
      var content := items[i].content;
      var r := Delete(i, f);
      if r != Done {
        return;
      }
      var at := quota.Sub(content, []);
    }

    /** purgeExpired: a payload that is already missing is taken off the counter all the same. */
    method PurgeExpired(i: nat, f: Fault)
      modifies this, quota
      ensures View() == Step(old(View()), Expire(i, f))
    {
      if i >= |items| || !items[i].Resolves() {
        return;
      }
      var content := items[i].content;
      var r := Delete(i, f);
      if r == Failed {
        return;
      }
      var at := quota.Sub(content, []);
    }

    /** Usage: a walk over everything stored. */
    method Usage() returns (total: nat)
      ensures total == Sum(items, BYTES)
    {
      total := 0;
      assert items[..0] == [];
      for i := 0 to |items|
        invariant total == Sum(items[..i], BYTES)
      {
        assert items[..i + 1][..i] == items[..i];
        total := total + items[i].Bytes();
      }
      assert items[..|items|] == items;
    }

    method Reseed()
      modifies `seeded, quota
      ensures View() == SeedStep(old(View()))
    {
      if quota.Enabled() {
        var total := Usage();
        quota.used := total;
        seeded := total;
      }
    }

    /** The age purge, object by object; the counter is measured again only if it and the measurement succeed. */
    method PurgeOld(cutoff: int, stuck: seq<Stuck>, usageFails: bool)
      modifies this, quota
      ensures View() == Step(old(View()), Purge(cutoff, stuck, usageFails))
    {
      ghost var before := items;
      var i, failed := 0, false;
      while i < |items|
        invariant i <= |items| == |before|
        invariant forall j | 0 <= j < i :: items[j] == SweptItem(before[j], cutoff, StuckAt(stuck, j))
        invariant forall j | i <= j < |items| :: items[j] == before[j]
        invariant failed <==> exists j :: 0 <= j < i && RemovalFails(before[j], cutoff, StuckAt(stuck, j))
        invariant quota.used == old(quota.used) && seeded == old(seeded) && now == old(now)
      {
        if RemovalFails(items[i], cutoff, StuckAt(stuck, i)) {
          failed := true;
        }
        items := items[i := SweptItem(items[i], cutoff, StuckAt(stuck, i))];
        i := i + 1;
      }
      assert items == SweptItems(before, cutoff, stuck);
      if !(backend == LocalDisk && failed) && !usageFails {
        Reseed();
      }
    }
  }

  // ----- sums -----

  lemma {:induction false} SumUpdate(items: seq<Item>, i: nat, it: Item, f: Item -> nat)
    requires i < |items|
    ensures Sum(items[i := it], f) == Sum(items, f) - f(items[i]) + f(it)
    ensures f(items[i]) <= Sum(items, f)
    decreases |items|
  {
    var n := |items| - 1;
    if i == n {
      assert items[i := it][..n] == items[..n];
    } else {
      assert items[i := it][..n] == items[..n][i := it];
      SumUpdate(items[..n], i, it, f);
    }
  }

  lemma SumAppend(items: seq<Item>, it: Item, f: Item -> nat)
    ensures Sum(items + [it], f) == Sum(items, f) + f(it)
  {
    assert (items + [it])[..|items|] == items;
  }

  lemma {:induction false} SumBelow(a: seq<Item>, b: seq<Item>, f: Item -> nat, g: Item -> nat)
    requires |a| == |b| && forall i | 0 <= i < |a| :: f(a[i]) <= g(b[i])
    ensures Sum(a, f) <= Sum(b, g)
    decreases |a|
  {
    if a != [] {
      SumBelow(a[..|a| - 1], b[..|b| - 1], f, g);
    }
  }

  // ----- what deletions leave -----

  /**
   What each answer of a deletion means. The metadata goes unless its removal fails,
   and on object storage that is the end of it; done means that the payload is gone,
   failed that nothing happened to it, and a payload that was missing is told apart
   on disk only.
   */
  lemma DeletionAnswers(b: Backend, it: Item, f: Fault)
    ensures var (it', r) := DeleteObjects(b, it, f);
      && it'.content == it.content && it'.meta == (if f.metaStays then it.meta else Missing)
      && (r == NotExist <==> b == LocalDisk && it.payload == Missing)
      && (r == Failed <==> if b == LocalDisk then it.payload != Missing && f.payloadStays else f.metaStays || f.payloadStays)
      && it'.payload == (if r == Failed then it.payload else Missing)
  {
  }

  /** The only two events that delete an upload, without a fault. */
  predicate DeletesCleanly(e: Event, i: nat) {
    (e.UserDelete? || e.Expire?) && e.i == i && !e.f.metaStays && !e.f.payloadStays
  }

  /**
   A deletion or an expiry of a live upload in which nothing fails: nothing is left of
   it, no other upload is touched, what is stored is less by exactly its bytes, and
   its length is taken off the counter.
   */
  lemma CleanDeletion(s: State, e: Event, i: nat)
    requires i < |s.items| && s.items[i].Live() && DeletesCleanly(e, i)
    ensures var s' := Step(s, e);
      && |s'.items| == |s.items| && s'.items[i].Bytes() == 0
      && (forall j | 0 <= j < |s.items| && j != i :: s'.items[j] == s.items[j])
      && Sum(s'.items, BYTES) == Sum(s.items, BYTES) - s.items[i].Bytes()
      && s'.used == Subtracted(s.limit, s.used, s.items[i].content)
  {
    DeletionAnswers(s.backend, s.items[i], e.f);
    SumUpdate(s.items, i, DeleteObjects(s.backend, s.items[i], e.f).0, BYTES);
  }

  /** A user is told that a deletion went wrong, or that there is nothing: the counter is as it was. */
  lemma RefusedDeletion(s: State, i: nat, f: Fault)
    requires i < |s.items| && s.items[i].Resolves()
    ensures var r := DeleteObjects(s.backend, s.items[i], f).1;
      && (r != Done ==> Step(s, UserDelete(i, f)).used == s.used)
      && (r == Failed ==> Step(s, Expire(i, f)).used == s.used)
      && (r != Failed ==> Step(s, Expire(i, f)).used == Subtracted(s.limit, s.used, s.items[i].content))
  {
    DeletionAnswers(s.backend, s.items[i], f);
  }

  // ----- what an upload leaves -----

  /**
   An upload that passes the check is the last item. Stored, it has both objects and
   its bytes are theirs; failed, it resolves only if the metadata was written, the
   payload was not, and the roll-back could not remove it.
   */
  lemma UploadLeaves(s: State, content: nat, payload: nat, meta: nat, f: Fault)
    ensures var (s', ok) := UploadStep(s, content, payload, meta, f);
      && (ok <==> Fits(s.limit, s.used, content) && f.putMeta == Written && f.putPayload == Written)
      && (!Fits(s.limit, s.used, content) ==> s' == s)
      && (Fits(s.limit, s.used, content) ==>
           && |s'.items| == |s.items| + 1 && s'.items[..|s.items|] == s.items
           && var it := s'.items[|s.items|];
              && it.content == content
              && (ok ==> it == Item(content, Whole(meta, s.now), Whole(payload, s.now + f.took)))
              && (!ok ==> (it.Resolves() <==> f.putMeta == Written && f.metaStays))
              && (f.putMeta != Written ==> it.payload == Missing && !it.meta.Whole?)
              && (!ok && f.putMeta == Written && !f.metaStays && !f.payloadStays ==> it.Bytes() == 0)
              && s'.now == s.now + f.took)
      && s'.used == (if ok then Added(s.limit, s.used, content) else s.used)
  {
    if f.putMeta == Written {
      DeletionAnswers(s.backend, Item(content, Whole(meta, s.now), Put(Missing, payload, s.now + f.took, f.putPayload)), f);
    }
  }

  // ----- what an age purge takes -----

  /** Each object goes exactly if it is older than the cutoff and its removal works. */
  lemma SweepIff(items: seq<Item>, cutoff: int, stuck: seq<Stuck>, i: nat)
    requires i < |items| == |stuck|
    ensures var it, it' := items[i], SweptItems(items, cutoff, stuck)[i];
      && it'.content == it.content
      && it'.meta == (if !it.meta.Missing? && it.meta.at < cutoff && !stuck[i].meta then Missing else it.meta)
      && it'.payload == (if !it.payload.Missing? && it.payload.at < cutoff && !stuck[i].payload then Missing else it.payload)
  {
  }

  predicate OldAndStuck(it: Item, cutoff: int, k: Stuck) {
    || (k.meta && !it.meta.Missing? && it.meta.at < cutoff)
    || (k.payload && !it.payload.Missing? && it.payload.at < cutoff)
  }

  /** It is followed by a measurement unless that fails, or a removal did and the backend is a disk. */
  lemma MeasuredAfterPurge(s: State, cutoff: int, stuck: seq<Stuck>, usageFails: bool)
    requires |stuck| == |s.items| && s.limit > 0
    ensures var s', swept := Step(s, Purge(cutoff, stuck, usageFails)), SweptItems(s.items, cutoff, stuck);
      var failed := exists i :: 0 <= i < |s.items| && OldAndStuck(s.items[i], cutoff, stuck[i]);
      && s'.items == swept
      && s'.used == if usageFails || (s.backend == LocalDisk && failed) then s.used else Sum(swept, BYTES)
  {
    forall i | 0 <= i < |s.items|
      ensures RemovalFails(s.items[i], cutoff, StuckAt(stuck, i)) <==> OldAndStuck(s.items[i], cutoff, stuck[i])
    {
    }
  }

  /** A counted download rewrites the metadata of an upload that resolves, at its time or as the failed write leaves it. */
  lemma CountRewrites(s: State, i: nat, size: nat, w: Write, to: int)
    ensures i < |s.items| && s.items[i].Resolves() ==>
      && Step(s, CountDownload(i, size, Written)) == s.(items := s.items[i := s.items[i].(meta := Whole(size, s.now))])
      && Step(s, CountDownload(i, size, Kept)) == s
      && !Step(s, CountDownload(i, size, Erased)).items[i].Resolves()
    ensures Step(s, Tick(to)) == s.(now := if to > s.now then to else s.now)
  {
    if i < |s.items| {
      assert s.items[i := s.items[i]] == s.items;
    }
  }

  // ----- without a limit -----

  /** Over every history without a limit: the counter never moves and every upload passes the check. */
  lemma {:induction false} WithoutLimit(s: State, es: seq<Event>, content: nat)
    requires s.limit <= 0
    ensures Run(s, es).used == s.used && Run(s, es).limit == s.limit && Fits(s.limit, Run(s, es).used, content)
    decreases |es|
  {
    NoLimit(s.limit, s.used, content);
    if es != [] {
      CounterStands(s, es[0]);
      WithoutLimit(Step(s, es[0]), es[1..], content);
    }
  }

  lemma CounterStands(s: State, e: Event)
    requires s.limit <= 0
    ensures Step(s, e).used == s.used && Step(s, e).limit == s.limit
  {
    match e
    case Upload(content, _, _, _) => NoLimit(s.limit, s.used, content);
    case UserDelete(i, _) => if i < |s.items| { NoLimit(s.limit, s.used, s.items[i].content); }
    case Expire(i, _) => if i < |s.items| { NoLimit(s.limit, s.used, s.items[i].content); }
    case _ =>
  }

  // ----- the counter covers the live uploads -----

  /** The counter is at least what the live uploads hold. */
  predicate Covers(s: State) {
    Sum(s.items, LIVE) <= s.used
  }

  /** The counter is at least everything that deletions may still take off it. */
  predicate Reserve(s: State) {
    Sum(s.items, OWED) <= s.used
  }

  predicate Ok(s: State) {
    s.limit > 0 && s.used >= 0
  }

  lemma LiveIsOwed(items: seq<Item>)
    ensures Sum(items, LIVE) <= Sum(items, OWED)
  {
    SumBelow(items, items, LIVE, OWED);
  }

  /** The upload that a deletion is about, if its token resolves. */
  predicate Deletes(s: State, i: nat, f: Fault, missingCounts: bool) {
    i < |s.items| && s.items[i].Resolves()
    && var r := DeleteObjects(s.backend, s.items[i], f).1;
       r == Done || (r == NotExist && missingCounts)
  }

  /** What an event takes off the counter, or fails to add, for an upload whose token still resolves afterwards. */
  function Unbacked(s: State, e: Event): nat {
    match e
    case Upload(content, payload, meta, f) =>
      if Fits(s.limit, s.used, content) && !StoreSucceeds(f)
         && StoredItem(s.backend, s.now, content, payload, meta, f).Resolves() then content else 0
    case UserDelete(i, f) =>
      if Deletes(s, i, f, false) && DeleteObjects(s.backend, s.items[i], f).0.Resolves() then s.items[i].content else 0
    case Expire(i, f) =>
      if Deletes(s, i, f, true) && DeleteObjects(s.backend, s.items[i], f).0.Resolves() then s.items[i].content else 0
    case _ => 0
  }

  /** What is stored measures less than what deletions may take off. */
  predicate MeasuresShort(items: seq<Item>) {
    Sum(items, BYTES) < Sum(items, OWED)
  }

  /** The events after which later deletions can take too much off the counter. */
  predicate Exposes(s: State, e: Event) {
    match e
    case Seed => MeasuresShort(s.items)
    case Purge(cutoff, stuck, usageFails) =>
      !PurgeFails(s, cutoff, stuck) && !usageFails && MeasuresShort(SweptItems(s.items, cutoff, stuck))
    case _ => Unbacked(s, e) > 0 && s.used - Sum(s.items, OWED) < Unbacked(s, e)
  }

  lemma StepOk(s: State, e: Event)
    requires Ok(s)
    ensures Ok(Step(s, e)) && Step(s, e).limit == s.limit
  {
  }

  lemma SweepOwes(items: seq<Item>, cutoff: int, stuck: seq<Stuck>)
    ensures Sum(SweptItems(items, cutoff, stuck), OWED) <= Sum(items, OWED)
  {
    SumBelow(SweptItems(items, cutoff, stuck), items, OWED, OWED);
  }

  lemma UploadReserve(s: State, e: Event)
    requires Ok(s) && e.Upload? && Reserve(s)
    ensures Reserve(Step(s, e)) <==> !Exposes(s, e)
  {
    var it := StoredItem(s.backend, s.now, e.content, e.payload, e.meta, e.f);
    SumAppend(s.items, it, OWED);
    StoredOwes(s.backend, s.now, e.content, e.payload, e.meta, e.f);
  }

  lemma StoredOwes(b: Backend, now: int, content: nat, payload: nat, meta: nat, f: Fault)
    ensures var it := StoredItem(b, now, content, payload, meta, f);
      && it.content == content && OWED(it) == (if it.Resolves() then content else 0)
      && (StoreSucceeds(f) ==> it.Resolves())
  {
  }

  lemma RemovalReserve(s: State, i: nat, f: Fault, missingCounts: bool)
    requires Ok(s) && Reserve(s)
    ensures var e := if missingCounts then Expire(i, f) else UserDelete(i, f);
      Reserve(RemoveStep(s, i, f, missingCounts)) <==> !Exposes(s, e)
  {
    if i < |s.items| && s.items[i].Resolves() {
      RefusedDeletion(s, i, f);
      SumUpdate(s.items, i, DeleteObjects(s.backend, s.items[i], f).0, OWED);
    }
  }

  lemma CountReserve(s: State, e: Event)
    requires Ok(s) && e.CountDownload? && Reserve(s)
    ensures Reserve(Step(s, e))
  {
    CountRewrites(s, e.i, e.size, e.w, s.now);
    if e.i < |s.items| {
      SumUpdate(s.items, e.i, s.items[e.i].(meta := Put(s.items[e.i].meta, e.size, s.now, e.w)), OWED);
    }
  }

  /** The counter stays above all that deletions may take off, through every operation but exactly those that expose it. */
  lemma ReserveIff(s: State, e: Event)
    requires Ok(s) && Reserve(s)
    ensures Reserve(Step(s, e)) <==> !Exposes(s, e)
  {
    match e
    case Upload(_, _, _, _) => UploadReserve(s, e);
    case UserDelete(i, f) => RemovalReserve(s, i, f, false);
    case Expire(i, f) => RemovalReserve(s, i, f, true);
    case CountDownload(_, _, _) => CountReserve(s, e);
    case Purge(cutoff, stuck, _) => SweepOwes(s.items, cutoff, stuck);
    case Seed =>
    case Tick(_) =>
  }

  /** Histories in which nothing exposes the counter. */
  predicate Unexposed(s: State, es: seq<Event>)
    decreases |es|
  {
    es == [] || (!Exposes(s, es[0]) && Unexposed(Step(s, es[0]), es[1..]))
  }

  lemma {:induction false} HistoryReserve(s: State, es: seq<Event>)
    requires Ok(s) && Reserve(s) && Unexposed(s, es)
    ensures Ok(Run(s, es)) && Reserve(Run(s, es)) && Covers(Run(s, es))
    decreases |es|
  {
    if es == [] {
      LiveIsOwed(s.items);
    } else {
      StepOk(s, es[0]);
      ReserveIff(s, es[0]);
      HistoryReserve(Step(s, es[0]), es[1..]);
    }
  }

  /** With the reserve, taking an upload off the counter never reaches the clamp at zero. */
  lemma ClampNeverFires(s: State, i: nat)
    requires Ok(s) && Reserve(s) && i < |s.items| && s.items[i].Resolves()
    ensures Subtracted(s.limit, s.used, s.items[i].content) == s.used - s.items[i].content
  {
    SumUpdate(s.items, i, s.items[i], OWED);
  }

  /** From an empty backend, over every unexposed history: the counter covers the live uploads. */
  lemma HistoryCovers(backend: Backend, limit: int, es: seq<Event>)
    requires limit > 0 && Unexposed(Empty(backend, limit), es)
    ensures Covers(Run(Empty(backend, limit), es)) && Reserve(Run(Empty(backend, limit), es))
  {
    HistoryReserve(Empty(backend, limit), es);
  }

  /** It never exceeds the larger of the limit and the last measurement, with no exception. */
  lemma {:induction false} HistoryBounded(s: State, es: seq<Event>)
    requires Ok(s) && s.used <= Max(s.limit, s.seeded)
    ensures Run(s, es).used <= Max(s.limit, Run(s, es).seeded) && Run(s, es).limit == s.limit
    decreases |es|
  {
    if es != [] {
      StepOk(s, es[0]);
      HistoryBounded(Step(s, es[0]), es[1..]);
    }
  }

  // ----- histories that never expose the counter -----

  /** Every token that resolves has its payload, and was written no later than it. */
  predicate Tidy(s: State) {
    forall it <- s.items :: it.Resolves() ==>
      it.payload.Whole? && it.payload.size >= it.content && it.meta.at <= it.payload.at
  }

  /** No download is counted, and no metadata outlives its payload because a removal failed. */
  predicate Gentle(b: Backend, e: Event) {
    match e
    case Upload(_, _, _, f) => StoreSucceeds(f) || !f.metaStays
    case UserDelete(_, f) => b == LocalDisk ==> !f.metaStays
    case Expire(_, f) => b == LocalDisk ==> !f.metaStays
    case CountDownload(_, _, _) => false
    case Purge(_, stuck, _) => forall k <- stuck :: k.meta ==> k.payload
    case _ => true
  }

  lemma TidyMeasures(items: seq<Item>)
    requires forall it <- items :: it.Resolves() ==> it.payload.Whole? && it.payload.size >= it.content
    ensures !MeasuresShort(items)
  {
    forall i | 0 <= i < |items| ensures OWED(items[i]) <= BYTES(items[i]) {
      assert items[i] in items;
    }
    SumBelow(items, items, OWED, BYTES);
  }

  /** The metadata is written first, so an age purge that takes a payload takes its metadata too. */
  lemma SweepStaysTidy(s: State, cutoff: int, stuck: seq<Stuck>)
    requires Tidy(s) && forall k <- stuck :: k.meta ==> k.payload
    ensures Tidy(s.(items := SweptItems(s.items, cutoff, stuck)))
  {
    var items' := SweptItems(s.items, cutoff, stuck);
    forall it <- items' | it.Resolves()
      ensures it.payload.Whole? && it.payload.size >= it.content && it.meta.at <= it.payload.at
    {
      var i :| 0 <= i < |items'| && items'[i] == it;
      assert s.items[i] in s.items;
    }
  }

  lemma GentleStep(s: State, e: Event)
    requires Ok(s) && Tidy(s) && Reserve(s) && WellFormed(e) && Gentle(s.backend, e)
    ensures Tidy(Step(s, e)) && !Exposes(s, e) && Step(s, e).backend == s.backend
  {
    match e
    case Purge(cutoff, stuck, _) =>
      SweepStaysTidy(s, cutoff, stuck);
      TidyMeasures(SweptItems(s.items, cutoff, stuck));
    case Seed => TidyMeasures(s.items);
    case _ =>
  }

  lemma {:induction false} GentleHistory(s: State, es: seq<Event>)
    requires Ok(s) && Tidy(s) && Reserve(s) && forall e <- es :: WellFormed(e) && Gentle(s.backend, e)
    ensures Unexposed(s, es)
    decreases |es|
  {
    if es != [] {
      GentleStep(s, es[0]);
      StepOk(s, es[0]);
      ReserveIff(s, es[0]);
      GentleHistory(Step(s, es[0]), es[1..]);
    }
  }

  /** As long as no download is counted and no removal of metadata fails, the counter covers the live uploads. */
  lemma GentleHistoryCovers(backend: Backend, limit: int, es: seq<Event>)
    requires limit > 0 && forall e <- es :: WellFormed(e) && Gentle(backend, e)
    ensures Covers(Run(Empty(backend, limit), es))
  {
    GentleHistory(Empty(backend, limit), es);
    HistoryCovers(backend, limit, es);
  }

  // ----- without the reserve, some history falls below -----

  /** Its length can still be taken off, but it is not a live upload. */
  predicate Leftover(it: Item) {
    it.Resolves() && !it.Live()
  }

  /** Every leftover reaches its limit, without any fault. */
  function ExpireLeftovers(items: seq<Item>): seq<Event> {
    if items == [] then []
    else
      var n := |items| - 1;
      (if Leftover(items[n]) then [Expire(n, CLEAN)] else []) + ExpireLeftovers(items[..n])
  }

  /** A fault-free expiry exposes nothing and takes off exactly the length, as far as zero. */
  lemma CleanExpiry(s: State, i: nat)
    requires Ok(s) && i < |s.items| && Leftover(s.items[i])
    ensures !Exposes(s, Expire(i, CLEAN))
    ensures var s' := Step(s, Expire(i, CLEAN));
      && s'.used == Max(0, s.used - s.items[i].content)
      && s'.items[..i] == s.items[..i] && |s'.items| == |s.items|
      && Sum(s'.items, LIVE) == Sum(s.items, LIVE)
  {
    SumUpdate(s.items, i, DeleteObjects(s.backend, s.items[i], CLEAN).0, LIVE);
  }

  /** What the leftovers may still take off. */
  function Excess(items: seq<Item>): int {
    Sum(items, OWED) - Sum(items, LIVE)
  }

  lemma ExcessAppend(items: seq<Item>, it: Item)
    ensures Excess(items + [it]) == Excess(items) + (if Leftover(it) then it.content else 0)
    ensures Excess(items) >= 0
    ensures ExpireLeftovers(items + [it])
         == (if Leftover(it) then [Expire(|items|, CLEAN)] else []) + ExpireLeftovers(items)
  {
    SumAppend(items, it, OWED);
    SumAppend(items, it, LIVE);
    LiveIsOwed(items);
    assert (items + [it])[..|items|] == items;
  }

  lemma UnexposedCons(s: State, e: Event, es: seq<Event>)
    requires !Exposes(s, e) && Unexposed(Step(s, e), es)
    ensures Unexposed(s, [e] + es) && Run(s, [e] + es) == Run(Step(s, e), es)
  {
    assert ([e] + es)[1..] == es;
  }

  /** Expiring the leftovers among `items`, the first uploads of `s`, takes off all they owe. */
  predicate TakenOff(s: State, items: seq<Item>) {
    var es := ExpireLeftovers(items);
    && Unexposed(s, es)
    && Sum(Run(s, es).items, LIVE) == Sum(s.items, LIVE)
    && Run(s, es).used <= Max(0, s.used - Excess(items))
  }

  lemma OneMoreTakenOff(s: State, n: nat)
    requires Ok(s) && n < |s.items| && Leftover(s.items[n])
    requires TakenOff(Step(s, Expire(n, CLEAN)), s.items[..n])
    ensures TakenOff(s, s.items[..n + 1])
  {
    var e := Expire(n, CLEAN);
    assert s.items[..n + 1] == s.items[..n] + [s.items[n]];
    ExcessAppend(s.items[..n], s.items[n]);
    CleanExpiry(s, n);
    UnexposedCons(s, e, ExpireLeftovers(s.items[..n]));
  }

  lemma {:induction false} LeftoversTakenOff(s: State, n: nat)
    requires Ok(s) && n <= |s.items|
    ensures TakenOff(s, s.items[..n])
    decreases n
  {
    if n > 0 {
      var prefix, it := s.items[..n - 1], s.items[n - 1];
      if Leftover(it) {
        CleanExpiry(s, n - 1);
        StepOk(s, Expire(n - 1, CLEAN));
        LeftoversTakenOff(Step(s, Expire(n - 1, CLEAN)), n - 1);
        OneMoreTakenOff(s, n - 1);
      } else {
        LeftoversTakenOff(s, n - 1);
        assert s.items[..n] == prefix + [it];
        ExcessAppend(prefix, it);
        assert [] + ExpireLeftovers(prefix) == ExpireLeftovers(prefix);
      }
    }
  }

  /**
   Exactly when the counter is safe: with anything live, every unexposed
   continuation covers the live uploads if and only if the reserve is there.
   */
  lemma CoveredForeverIff(s: State)
    requires Ok(s) && Sum(s.items, LIVE) > 0
    ensures (forall es | Unexposed(s, es) :: Covers(Run(s, es))) <==> Reserve(s)
  {
    if Reserve(s) {
      forall es | Unexposed(s, es) ensures Covers(Run(s, es)) {
        HistoryReserve(s, es);
      }
    } else {
      var es := ExpireLeftovers(s.items);
      assert s.items[..|s.items|] == s.items;
      LeftoversTakenOff(s, |s.items|);
      assert !Covers(Run(s, es));
    }
  }

  lemma PairSums(a: Item, b: Item, f: Item -> nat)
    ensures Sum([a, b], f) == f(a) + f(b)
  {
    assert [a, b][..1] == [a] && [a][..0] == [];
    assert Sum([a], f) == f(a);
  }

  function A(meta: File, payload: File): Item {
    Item(100, meta, payload)
  }

  /** An upload, a day later another, a counted download of the first, and an age purge from in between. */
  const FALLING_RUN := [Upload(100, 100, 10, CLEAN), Tick(100), Upload(100, 100, 10, CLEAN), CountDownload(0, 10, Written),
                        Purge(50, [], false), Expire(0, CLEAN)]

  lemma FallingSteps(limit: int)
    requires limit >= 200
    ensures var first, second := A(Whole(10, 0), Whole(100, 0)), A(Whole(10, 100), Whole(100, 100));
      var counted, orphan, gone := A(Whole(10, 100), Whole(100, 0)), A(Whole(10, 100), Missing), A(Missing, Missing);
      var s1 := State(LocalDisk, limit, 100, 0, [first], 0);
      var s3 := State(LocalDisk, limit, 200, 100, [first, second], 0);
      var s5 := State(LocalDisk, limit, 120, 100, [orphan, second], 120);
      && Step(Empty(LocalDisk, limit), FALLING_RUN[0]) == s1
      && Step(Step(s1, FALLING_RUN[1]), FALLING_RUN[2]) == s3
      && Step(Step(s3, FALLING_RUN[3]), FALLING_RUN[4]) == s5
      && Step(s5, FALLING_RUN[5]) == State(LocalDisk, limit, 20, 100, [gone, second], 120)
  {
    var first, second := A(Whole(10, 0), Whole(100, 0)), A(Whole(10, 100), Whole(100, 100));
    var counted, orphan := A(Whole(10, 100), Whole(100, 0)), A(Whole(10, 100), Missing);
    PairSums(orphan, second, BYTES);
    assert [first, second][0 := counted] == [counted, second];
    assert SweptItems([counted, second], 50, []) == [orphan, second];
    assert [orphan, second][0 := A(Missing, Missing)] == [A(Missing, Missing), second];
  }

  /**
   And it happens, with nothing failing: the purge takes the first payload and
   leaves the metadata that the download count rewrote, the counter is measured
   without that payload, and the metadata reaches its limit.
   */
  lemma CounterCanFallBelow(limit: int)
    requires limit >= 200
    ensures (forall e <- FALLING_RUN :: WellFormed(e)) && !Covers(Run(Empty(LocalDisk, limit), FALLING_RUN))
  {
    FallingSteps(limit);
    RunSix(Empty(LocalDisk, limit), FALLING_RUN);
    PairSums(A(Missing, Missing), A(Whole(10, 100), Whole(100, 100)), LIVE);
  }

  lemma RunSix(s: State, es: seq<Event>)
    requires |es| == 6
    ensures Run(s, es) == Step(Step(Step(Step(Step(Step(s, es[0]), es[1]), es[2]), es[3]), es[4]), es[5])
  {
    var s1 := Step(s, es[0]);
    var s2 := Step(s1, es[1]);
    var s3 := Step(s2, es[2]);
    var s4 := Step(s3, es[3]);
    var s5 := Step(s4, es[4]);
    assert Run(s, es) == Run(s1, es[1..]) == Run(s2, es[1..][1..]);
    assert es[1..][1..] == es[2..] && es[2..][1..] == es[3..] && es[3..][1..] == es[4..] && es[4..][1..] == es[5..];
    assert Run(s2, es[2..]) == Run(s3, es[3..]) == Run(s4, es[4..]) == Run(s5, es[5..]) == Step(s5, es[5]);
  }
}
