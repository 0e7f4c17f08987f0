/**
 The reference-counted per-key lock map, as steps of any number of threads,
 and the order in which the handlers nest the locks.
 */
module LockMap {
  import opened Basics

  type Tid = nat

  /** Upload, upload-session and owner-index locks share one map. */
  datatype Key = UploadKey(token: string, filename: string) | SessionKey(id: string) | OwnerKey(hash: string) {

    /** Locks are only ever nested upwards. */
    function Level(): nat {
      if OwnerKey? then 1 else 0
    }
  }

  // ----- what the handlers lock -----

  datatype Action = Lock(key: Key) | Unlock(key: Key)

  /** The handlers that lock; an owner is given when the run reaches its owner index. */
  datatype Handler =
    | ReadMetadata(token: string, filename: string, purged: Option<string>)
    | Download(token: string, filename: string, checkPurged: Option<string>, countPurged: Option<string>)
    | DeleteUpload(token: string, filename: string, owner: Option<string>)
    | StoreUpload(owner: Option<string>)
    | ListOwner(hash: string)
    | PatchSession(id: string, finishedFor: Option<string>)
    | DeleteSession(id: string)

  function OwnerActions(owner: Option<string>): seq<Action> {
    if owner.None? then [] else [Lock(OwnerKey(owner.value)), Unlock(OwnerKey(owner.value))]
  }

  function Guarded(key: Key, owner: Option<string>): seq<Action> {
    [Lock(key)] + OwnerActions(owner) + [Unlock(key)]
  }

  function Program(h: Handler): seq<Action> {
    match h
    case ReadMetadata(token, filename, purged) => Guarded(UploadKey(token, filename), purged)
    case Download(token, filename, p, q) =>
      Guarded(UploadKey(token, filename), p) + Guarded(UploadKey(token, filename), q)
    case DeleteUpload(token, filename, owner) => Guarded(UploadKey(token, filename), None) + OwnerActions(owner)
    case StoreUpload(owner) => OwnerActions(owner)
    case ListOwner(hash) => OwnerActions(Some(hash))
    case PatchSession(id, owner) => Guarded(SessionKey(id), owner)
    case DeleteSession(id) => Guarded(SessionKey(id), None)
  }

  /** Which locks each handler takes: its own upload or session, and the owner index of what it stores, purges or lists. */
  lemma HandlersLock(h: Handler, k: Key)
    ensures Lock(k) in Program(h) <==>
      match h
      case ReadMetadata(token, filename, purged) => k == UploadKey(token, filename) || Owns(purged, k)
      case Download(token, filename, p, q) => k == UploadKey(token, filename) || Owns(p, k) || Owns(q, k)
      case DeleteUpload(token, filename, owner) => k == UploadKey(token, filename) || Owns(owner, k)
      case StoreUpload(owner) => Owns(owner, k)
      case ListOwner(hash) => k == OwnerKey(hash)
      case PatchSession(id, owner) => k == SessionKey(id) || Owns(owner, k)
      case DeleteSession(id) => k == SessionKey(id)
  {
    match h
    case ReadMetadata(token, filename, p) => GuardedLocks(UploadKey(token, filename), p, k);
    case Download(token, filename, p, q) =>
      GuardedLocks(UploadKey(token, filename), p, k);
      GuardedLocks(UploadKey(token, filename), q, k);
    case DeleteUpload(token, filename, owner) => GuardedLocks(UploadKey(token, filename), None, k);
    case StoreUpload(_) =>
    case ListOwner(_) =>
    case PatchSession(id, owner) => GuardedLocks(SessionKey(id), owner, k);
    case DeleteSession(id) => GuardedLocks(SessionKey(id), None, k);
  }

  predicate Owns(owner: Option<string>, k: Key) {
    owner.Some? && k == OwnerKey(owner.value)
  }

  /** The owner's lock is taken and given back while the first is held. */
  lemma GuardedLocks(key: Key, owner: Option<string>, k: Key)
    ensures Lock(k) in Guarded(key, owner) <==> k == key || Owns(owner, k)
    ensures var p := Guarded(key, owner); p[0] == Lock(key) && p[|p| - 1] == Unlock(key)
  {
  }

  /** From the locks in `held`, the actions nest upwards and end with nothing held. */
  predicate Nested(held: set<Key>, todo: seq<Action>)
    decreases |todo|
  {
    if todo == [] then held == {}
    else match todo[0]
      case Lock(k) => (forall h <- held :: h.Level() < k.Level()) && Nested(held + {k}, todo[1..])
      case Unlock(k) => k in held && Nested(held - {k}, todo[1..])
  }

  lemma {:induction false} NestedConcat(held: set<Key>, p: seq<Action>, q: seq<Action>)
    requires Nested(held, p) && Nested({}, q)
    ensures Nested(held, p + q)
    decreases |p|
  {
    if p == [] {
      assert p + q == q;
    } else {
      assert (p + q)[0] == p[0] && (p + q)[1..] == p[1..] + q;
      match p[0]
      case Lock(k) => NestedConcat(held + {k}, p[1..], q);
      case Unlock(k) => NestedConcat(held - {k}, p[1..], q);
    }
  }

  lemma NestedOwner(held: set<Key>, owner: Option<string>, rest: seq<Action>)
    requires (forall h <- held :: h.Level() == 0) && Nested(held, rest)
    ensures Nested(held, OwnerActions(owner) + rest)
  {
    if owner.Some? {
      var k, p := OwnerKey(owner.value), OwnerActions(owner) + rest;
      assert p[0] == Lock(k) && p[1..][0] == Unlock(k) && p[1..][1..] == rest;
      assert held + {k} - {k} == held;
    } else {
      assert OwnerActions(owner) + rest == rest;
    }
  }

  lemma NestedGuarded(key: Key, owner: Option<string>)
    requires key.Level() == 0
    ensures Nested({}, Guarded(key, owner))
  {
    var last := [Unlock(key)];
    assert last[1..] == [] && {key} - {key} == {};
    assert Nested({key}, last);
    NestedOwner({key}, owner, last);
    var p := Guarded(key, owner);
    assert p == [Lock(key)] + (OwnerActions(owner) + last);
    assert p[1..] == OwnerActions(owner) + last && {} + {key} == {key};
  }

  /** While holding an upload or session lock a handler takes at most an owner lock, and none above that. */
  lemma ProgramsNest(h: Handler)
    ensures Nested({}, Program(h))
  {
    match h
    case ReadMetadata(token, filename, p) => NestedGuarded(UploadKey(token, filename), p);
    case Download(token, filename, p, q) =>
      NestedGuarded(UploadKey(token, filename), p);
      NestedGuarded(UploadKey(token, filename), q);
      NestedConcat({}, Guarded(UploadKey(token, filename), p), Guarded(UploadKey(token, filename), q));
    case DeleteUpload(token, filename, owner) =>
      NestedGuarded(UploadKey(token, filename), None);
      NestedOwner({}, owner, []);
      assert OwnerActions(owner) + [] == OwnerActions(owner);
      NestedConcat({}, Guarded(UploadKey(token, filename), None), OwnerActions(owner));
    case StoreUpload(owner) =>
      NestedOwner({}, owner, []);
      assert OwnerActions(owner) + [] == OwnerActions(owner);
    case ListOwner(hash) =>
      NestedOwner({}, Some(hash), []);
      assert OwnerActions(Some(hash)) + [] == OwnerActions(Some(hash));
    case PatchSession(id, owner) => NestedGuarded(SessionKey(id), owner);
    case DeleteSession(id) => NestedGuarded(SessionKey(id), None);
  }

  // ----- the lock map and its threads -----

  /** One mutex object: its reference count, and the thread that has locked it. */
  datatype FileLock = FileLock(refs: int, owner: Option<Tid>)

  /** Where a thread is: between lock calls, blocked on a mutex, or about to unlock one. */
  datatype Pc = Running | Waiting(obj: nat) | Releasing(obj: nat)

  datatype Thread = Thread(todo: seq<Action>, pc: Pc, held: map<Key, nat>) {

    predicate Idle() {
      todo == [] && pc == Running && held == map[]
    }

    /** A thread claims the mutexes it holds and the one it waits for. */
    predicate Claims(o: nat) {
      pc == Waiting(o) || o in held.Values
    }
  }

  /** `objs` is the heap of mutex objects ever made; `locks` maps keys to some of them. */
  datatype State = State(locks: map<Key, nat>, objs: seq<FileLock>, threads: map<Tid, Thread>)

  const INIT := State(map[], [], map[])

  datatype Step = Begin(t: Tid, h: Handler) | Claim(t: Tid) | Enter(t: Tid) | Drop(t: Tid) | Release(t: Tid)

  predicate Enabled(s: State, e: Step) {
    if e.Begin? then e.t in s.threads ==> s.threads[e.t].Idle()
    else
      && e.t in s.threads && s.threads[e.t].todo != []
      && var th := s.threads[e.t];
      match e
      case Claim(_) => th.pc == Running && th.todo[0].Lock?
      case Enter(_) => th.pc.Waiting? && th.pc.obj < |s.objs| && s.objs[th.pc.obj].owner == None
      case Drop(_) => th.pc == Running && th.todo[0].Unlock?
      case Release(_) => th.pc.Releasing? && th.pc.obj < |s.objs|
  }

  function SetThread(s: State, t: Tid, th: Thread): State {
    s.(threads := s.threads[t := th])
  }

  /** `lock` up to the release of `locksMu`: find or make the entry and count the reference. */
  function DoClaim(s: State, t: Tid): State
    requires Enabled(s, Claim(t))
  {
    var th := s.threads[t];
    var k := th.todo[0].key;
    var o := if k in s.locks then s.locks[k] else |s.objs|;
    var objs := if o < |s.objs| then s.objs[o := s.objs[o].(refs := s.objs[o].refs + 1)]
                else s.objs + [FileLock(1, None)];
    State(s.locks[k := o], objs, s.threads[t := th.(pc := Waiting(o))])
  }

  /** The mutex is obtained and `lock` returns. */
  function DoEnter(s: State, t: Tid): State
    requires Enabled(s, Enter(t))
  {
    var th := s.threads[t];
    var o := th.pc.obj;
    State(s.locks, s.objs[o := s.objs[o].(owner := Some(t))],
          s.threads[t := Thread(th.todo[1..], Running, th.held[th.todo[0].key := o])])
  }

  /** `unlock` up to the release of `locksMu`: the entry is found by key, and dropped with its last reference. */
  function DoDrop(s: State, t: Tid): State
    requires Enabled(s, Drop(t))
  {
    var th := s.threads[t];
    var k := th.todo[0].key;
    if k !in s.locks || s.locks[k] >= |s.objs| then
      SetThread(s, t, Thread(th.todo[1..], Running, th.held - {k}))
    else
      var o := s.locks[k];
      var l := s.objs[o].(refs := s.objs[o].refs - 1);
      State(if l.refs == 0 then s.locks - {k} else s.locks, s.objs[o := l],
            s.threads[t := Thread(th.todo, Releasing(o), th.held - {k})])
  }

  /** The mutex is unlocked and `unlock` returns. */
  function DoRelease(s: State, t: Tid): State
    requires Enabled(s, Release(t))
  {
    var th := s.threads[t];
    State(s.locks, s.objs[th.pc.obj := s.objs[th.pc.obj].(owner := None)],
          s.threads[t := Thread(th.todo[1..], Running, th.held)])
  }

  /** One atomic step; a section under `locksMu` is one step. */
  function Apply(s: State, e: Step): State
    requires Enabled(s, e)
  {
    match e
    case Begin(t, h) => SetThread(s, t, Thread(Program(h), Running, map[]))
    case Claim(t) => DoClaim(s, t)
    case Enter(t) => DoEnter(s, t)
    case Drop(t) => DoDrop(s, t)
    case Release(t) => DoRelease(s, t)
  }

  /** Any interleaving: steps that are not enabled do nothing. */
  function Run(s: State, es: seq<Step>): State
    decreases |es|
  {
    if es == [] then s
    else Run(if Enabled(s, es[0]) then Apply(s, es[0]) else s, es[1..])
  }

  /** Any thread that is idle can begin any handler, and then has all of it to do. */
  lemma BeginIff(s: State, t: Tid, h: Handler)
    ensures Enabled(s, Begin(t, h)) <==> (t in s.threads ==> s.threads[t] == Thread([], Running, map[]))
    ensures Enabled(s, Begin(t, h)) ==>
      var s' := Apply(s, Begin(t, h)); s' == s.(threads := s.threads[t := Thread(Program(h), Running, map[])])
  {
  }

  // ----- the invariant -----

  function Claimants(s: State, o: nat): set<Tid> {
    set t | t in s.threads && s.threads[t].Claims(o)
  }

  predicate MapOk(s: State) {
    && (forall k <- s.locks :: s.locks[k] < |s.objs|)
    && (forall k, k' | k in s.locks && k' in s.locks && s.locks[k] == s.locks[k'] :: k == k')
  }

  /** `t` has locked the mutex that `k` is mapped to. */
  predicate Locked(s: State, t: Tid, k: Key, o: nat) {
    k in s.locks && s.locks[k] == o && o < |s.objs| && s.objs[o].owner == Some(t)
  }

  predicate WaitingOk(s: State, th: Thread)
    requires th.pc.Waiting?
  {
    && th.todo != [] && th.todo[0].Lock?
    && th.todo[0].key in s.locks && s.locks[th.todo[0].key] == th.pc.obj
  }

  predicate ReleasingOk(s: State, t: Tid, th: Thread)
    requires th.pc.Releasing?
  {
    && th.todo != [] && th.todo[0].Unlock?
    && th.pc.obj < |s.objs| && s.objs[th.pc.obj].owner == Some(t) && th.pc.obj !in th.held.Values
  }

  predicate ThreadOk(s: State, t: Tid, th: Thread) {
    && Nested(th.held.Keys, if th.pc.Releasing? && th.todo != [] then th.todo[1..] else th.todo)
    && (forall k <- th.held :: Locked(s, t, k, th.held[k]))
    && (th.pc.Waiting? ==> WaitingOk(s, th))
    && (th.pc.Releasing? ==> ReleasingOk(s, t, th))
  }

  predicate OwnerOk(s: State, o: nat)
    requires o < |s.objs|
  {
    s.objs[o].owner.Some? ==>
      var t := s.objs[o].owner.value;
      t in s.threads && (o in s.threads[t].held.Values || s.threads[t].pc == Releasing(o))
  }

  predicate RefsOk(s: State, o: nat)
    requires o < |s.objs|
  {
    && s.objs[o].refs == |Claimants(s, o)|
    && (o in s.locks.Values <==> s.objs[o].refs > 0)
  }

  predicate ThreadsOk(s: State) {
    forall t <- s.threads :: ThreadOk(s, t, s.threads[t])
  }

  predicate ObjectsOk(s: State) {
    forall o | 0 <= o < |s.objs| :: OwnerOk(s, o) && RefsOk(s, o)
  }

  predicate Inv(s: State) {
    MapOk(s) && ThreadsOk(s) && ObjectsOk(s)
  }

  // ----- every step keeps the invariant -----

  /** Replacing one thread only changes whether that thread is a claimant. */
  lemma ClaimantsOf(s: State, s': State, t: Tid, th: Thread, o: nat)
    requires s'.threads == s.threads[t := th]
    ensures Claimants(s', o) == if th.Claims(o) then Claimants(s, o) + {t} else Claimants(s, o) - {t}
  {
  }

  lemma RefsAfter(s: State, s': State, t: Tid, th: Thread, p: nat)
    requires p < |s.objs| && p < |s'.objs| && s'.threads == s.threads[t := th]
    requires RefsOk(s, p) && (p in s'.locks.Values <==> s'.objs[p].refs > 0)
    requires s'.objs[p].refs ==
      s.objs[p].refs + (if th.Claims(p) then 1 else 0) - (if t in Claimants(s, p) then 1 else 0)
    ensures RefsOk(s', p)
  {
    ClaimantsOf(s, s', t, th, p);
  }

  lemma OwnerAfter(s: State, s': State, t: Tid, th: Thread, p: nat)
    requires p < |s.objs| && p < |s'.objs| && s'.threads == s.threads[t := th]
    requires OwnerOk(s, p) && s'.objs[p].owner == s.objs[p].owner
    requires s.objs[p].owner == Some(t) ==> p in th.held.Values || th.pc == Releasing(p)
    ensures OwnerOk(s', p)
  {
  }

  lemma BeginKeeps(s: State, t: Tid, p: seq<Action>)
    requires Inv(s) && (t in s.threads ==> s.threads[t].Idle()) && Nested({}, p)
    ensures Inv(SetThread(s, t, Thread(p, Running, map[])))
  {
    var th := Thread(p, Running, map[]);
    var s' := SetThread(s, t, th);
    assert th.held.Keys == {};
    forall u <- s'.threads ensures ThreadOk(s', u, s'.threads[u]) {
      assert u != t ==> ThreadOk(s, u, s.threads[u]);
    }
    forall p | 0 <= p < |s'.objs| ensures OwnerOk(s', p) && RefsOk(s', p) {
      assert OwnerOk(s, p) && RefsOk(s, p);
      RefsAfter(s, s', t, th, p);
      OwnerAfter(s, s', t, th, p);
    }
  }

  /** A thread never asks for a key it already holds, so it does not hold the mutex either. */
  lemma NotYetClaimed(s: State, t: Tid, k: Key)
    requires Inv(s) && t in s.threads && s.threads[t].pc == Running
    requires s.threads[t].todo != [] && s.threads[t].todo[0] == Lock(k)
    ensures k !in s.threads[t].held
    ensures k in s.locks ==> !s.threads[t].Claims(s.locks[k])
  {
    var th := s.threads[t];
    assert ThreadOk(s, t, th);
    forall j <- th.held ensures k in s.locks ==> th.held[j] != s.locks[k] {
      assert Locked(s, t, j, th.held[j]);
    }
  }

  lemma NewObjectUnclaimed(s: State)
    requires Inv(s)
    ensures Claimants(s, |s.objs|) == {}
  {
    forall u <- s.threads ensures !s.threads[u].Claims(|s.objs|) {
      assert ThreadOk(s, u, s.threads[u]);
      forall k <- s.threads[u].held ensures s.threads[u].held[k] < |s.objs| {
        assert Locked(s, u, k, s.threads[u].held[k]);
      }
    }
  }

  lemma ClaimKeepsThreads(s: State, t: Tid)
    requires Inv(s) && Enabled(s, Claim(t))
    ensures MapOk(DoClaim(s, t)) && ThreadsOk(DoClaim(s, t))
  {
    var s' := DoClaim(s, t);
    forall u <- s'.threads ensures ThreadOk(s', u, s'.threads[u]) {
      assert ThreadOk(s, u, s.threads[u]);
      forall j <- s.threads[u].held ensures Locked(s', u, j, s.threads[u].held[j]) {
        assert Locked(s, u, j, s.threads[u].held[j]);
      }
    }
  }

  lemma MappedAfterClaim(locks: map<Key, nat>, k: Key, o: nat, p: nat)
    requires k in locks ==> locks[k] == o
    ensures p in locks[k := o].Values <==> p == o || p in locks.Values
  {
    var after := locks[k := o];
    assert after[k] == o;
    forall j <- locks ensures j in after && after[j] == locks[j] {}
  }

  lemma ClaimKeepsObject(s: State, t: Tid, p: nat)
    requires Inv(s) && Enabled(s, Claim(t)) && p < |s.objs|
    ensures OwnerOk(DoClaim(s, t), p) && RefsOk(DoClaim(s, t), p)
  {
    var s', k := DoClaim(s, t), s.threads[t].todo[0].key;
    var th := s'.threads[t];
    NotYetClaimed(s, t, k);
    assert OwnerOk(s, p) && RefsOk(s, p);
    MappedAfterClaim(s.locks, k, s'.locks[k], p);
    RefsAfter(s, s', t, th, p);
    OwnerAfter(s, s', t, th, p);
  }

  lemma ClaimKeepsObjects(s: State, t: Tid)
    requires Inv(s) && Enabled(s, Claim(t))
    ensures ObjectsOk(DoClaim(s, t))
  {
    var s', k := DoClaim(s, t), s.threads[t].todo[0].key;
    var th, o := s'.threads[t], s'.locks[k];
    NotYetClaimed(s, t, k);
    NewObjectUnclaimed(s);
    forall p | 0 <= p < |s.objs| ensures OwnerOk(s', p) && RefsOk(s', p) {
      ClaimKeepsObject(s, t, p);
    }
    if o == |s.objs| {
      ClaimantsOf(s, s', t, th, o);
      MappedAfterClaim(s.locks, k, o, o);
    }
  }

  lemma EnterKeepsThreads(s: State, t: Tid)
    requires Inv(s) && Enabled(s, Enter(t))
    ensures MapOk(DoEnter(s, t)) && ThreadsOk(DoEnter(s, t))
  {
    var s', was := DoEnter(s, t), s.threads[t];
    var th, k := s'.threads[t], was.todo[0].key;
    assert ThreadOk(s, t, was);
    assert th.held.Keys == was.held.Keys + {k};
    forall u <- s'.threads ensures ThreadOk(s', u, s'.threads[u]) {
      assert ThreadOk(s, u, s.threads[u]);
      forall j <- s'.threads[u].held ensures Locked(s', u, j, s'.threads[u].held[j]) {
        assert j in s.threads[u].held ==> Locked(s, u, j, s.threads[u].held[j]);
      }
    }
  }

  lemma EnterKeepsObjects(s: State, t: Tid)
    requires Inv(s) && Enabled(s, Enter(t))
    ensures ObjectsOk(DoEnter(s, t))
  {
    var s', was := DoEnter(s, t), s.threads[t];
    var th, k, o := s'.threads[t], was.todo[0].key, was.pc.obj;
    assert ThreadOk(s, t, was);
    assert k !in was.held;
    forall p | 0 <= p < |s'.objs| ensures OwnerOk(s', p) && RefsOk(s', p) {
      assert OwnerOk(s, p) && RefsOk(s, p);
      HeldWith(was.held, k, o, p);
      assert th.Claims(p) == was.Claims(p);
      RefsAfter(s, s', t, th, p);
      if p != o {
        OwnerAfter(s, s', t, th, p);
      }
    }
  }

  lemma HeldWith(held: map<Key, nat>, k: Key, o: nat, p: nat)
    requires k !in held
    ensures p in held[k := o].Values <==> p == o || p in held.Values
  {
    assert held[k := o][k] == o;
    forall j <- held ensures held[k := o][j] == held[j] {}
  }

  /** The branch of `unlock` for a missing entry is never taken, and the entry found is the one locked. */
  lemma UnlockFindsItsEntry(s: State, t: Tid)
    requires Inv(s) && Enabled(s, Drop(t))
    ensures var k := s.threads[t].todo[0].key;
      && k in s.threads[t].held && k in s.locks && s.locks[k] == s.threads[t].held[k] < |s.objs|
      && s.objs[s.locks[k]].owner == Some(t)
  {
    assert ThreadOk(s, t, s.threads[t]);
    assert Locked(s, t, s.threads[t].todo[0].key, s.threads[t].held[s.threads[t].todo[0].key]);
  }

  lemma DroppedHeld(s: State, t: Tid, k: Key)
    requires Inv(s) && t in s.threads && k in s.threads[t].held
    ensures s.threads[t].held[k] !in (s.threads[t].held - {k}).Values
    ensures forall p | p != s.threads[t].held[k] :: p in (s.threads[t].held - {k}).Values <==> p in s.threads[t].held.Values
  {
    var held := s.threads[t].held;
    assert ThreadOk(s, t, s.threads[t]);
    forall j <- held | held[j] == held[k] ensures j == k {
      assert Locked(s, t, j, held[j]) && Locked(s, t, k, held[k]);
    }
    forall p | p != held[k] ensures p in (held - {k}).Values <==> p in held.Values {
      if p in held.Values {
        var j :| j in held && held[j] == p;
        assert j in held - {k} && (held - {k})[j] == p;
      }
    }
  }

  /** If the last reference is dropped, no other thread holds or awaits that key. */
  lemma DroppedKeyUnused(s: State, t: Tid, u: Tid, k: Key)
    requires Inv(s) && t in s.threads && k in s.threads[t].held
    requires k in s.locks && s.locks[k] == s.threads[t].held[k] < |s.objs| && s.objs[s.locks[k]].refs == 1
    requires u in s.threads && u != t
    ensures k !in s.threads[u].held
    ensures s.threads[u].pc.Waiting? ==> s.threads[u].todo != [] && s.threads[u].todo[0].key != k
  {
    var o := s.locks[k];
    assert RefsOk(s, o) && t in Claimants(s, o);
    assert |Claimants(s, o) - {t}| == 0;
    assert u !in Claimants(s, o) - {t};
    assert !s.threads[u].Claims(o);
    assert ThreadOk(s, u, s.threads[u]);
    forall j <- s.threads[u].held ensures j != k {
      assert Locked(s, u, j, s.threads[u].held[j]);
    }
  }

  lemma DropKeepsThreads(s: State, t: Tid)
    requires Inv(s) && Enabled(s, Drop(t))
    ensures MapOk(DoDrop(s, t)) && ThreadsOk(DoDrop(s, t))
  {
    var s', k := DoDrop(s, t), s.threads[t].todo[0].key;
    UnlockFindsItsEntry(s, t);
    DroppedHeld(s, t, k);
    assert (s.threads[t].held - {k}).Keys == s.threads[t].held.Keys - {k};
    forall u <- s'.threads ensures ThreadOk(s', u, s'.threads[u]) {
      assert ThreadOk(s, u, s.threads[u]);
      if u != t && s.objs[s.locks[k]].refs == 1 {
        DroppedKeyUnused(s, t, u, k);
      }
      forall j <- s'.threads[u].held ensures Locked(s', u, j, s'.threads[u].held[j]) {
        assert Locked(s, u, j, s.threads[u].held[j]);
      }
    }
  }

  lemma DropKeepsObjects(s: State, t: Tid)
    requires Inv(s) && Enabled(s, Drop(t))
    ensures ObjectsOk(DoDrop(s, t))
  {
    var s', k := DoDrop(s, t), s.threads[t].todo[0].key;
    var th := s'.threads[t];
    UnlockFindsItsEntry(s, t);
    DroppedHeld(s, t, k);
    var o := s.locks[k];
    forall p | 0 <= p < |s'.objs| ensures OwnerOk(s', p) && RefsOk(s', p) {
      assert OwnerOk(s, p) && RefsOk(s, p);
      MappedAfterDrop(s, k, p);
      RefsAfter(s, s', t, th, p);
      OwnerAfter(s, s', t, th, p);
    }
  }

  lemma MappedAfterDrop(s: State, k: Key, p: nat)
    requires MapOk(s) && k in s.locks
    ensures p in (s.locks - {k}).Values <==> p != s.locks[k] && p in s.locks.Values
  {
    if p != s.locks[k] && p in s.locks.Values {
      var j :| j in s.locks && s.locks[j] == p;
      assert j in s.locks - {k} && (s.locks - {k})[j] == p;
    }
  }

  lemma ReleaseKeeps(s: State, t: Tid)
    requires Inv(s) && Enabled(s, Release(t))
    ensures Inv(DoRelease(s, t))
  {
    var s', was := DoRelease(s, t), s.threads[t];
    var th := s'.threads[t];
    assert ThreadOk(s, t, was);
    forall u <- s'.threads ensures ThreadOk(s', u, s'.threads[u]) {
      assert ThreadOk(s, u, s.threads[u]);
      forall j <- s.threads[u].held ensures Locked(s', u, j, s.threads[u].held[j]) {
        assert Locked(s, u, j, s.threads[u].held[j]);
      }
    }
    forall p | 0 <= p < |s'.objs| ensures OwnerOk(s', p) && RefsOk(s', p) {
      assert OwnerOk(s, p) && RefsOk(s, p);
      RefsAfter(s, s', t, th, p);
      if p != was.pc.obj {
        OwnerAfter(s, s', t, th, p);
      }
    }
  }

  lemma StepKeeps(s: State, e: Step)
    requires Inv(s) && Enabled(s, e)
    ensures Inv(Apply(s, e))
  {
    match e
    case Begin(t, h) =>
      BeginIff(s, t, h);
      ProgramsNest(h);
      BeginKeeps(s, t, Program(h));
    case Claim(t) =>
      ClaimKeepsThreads(s, t);
      ClaimKeepsObjects(s, t);
    case Enter(t) =>
      EnterKeepsThreads(s, t);
      EnterKeepsObjects(s, t);
    case Drop(t) =>
      DropKeepsThreads(s, t);
      DropKeepsObjects(s, t);
    case Release(t) => ReleaseKeeps(s, t);
  }

  lemma {:induction false} RunKeeps(s: State, es: seq<Step>)
    requires Inv(s)
    ensures Inv(Run(s, es))
    decreases |es|
  {
    if es != [] {
      if Enabled(s, es[0]) {
        StepKeeps(s, es[0]);
        RunKeeps(Apply(s, es[0]), es[1..]);
      } else {
        RunKeeps(s, es[1..]);
      }
    }
  }

  // ----- what the invariant means, in every interleaving -----

  /** At most one thread per key is between the return of `lock` and its call of `unlock`. */
  lemma MutualExclusion(es: seq<Step>, t: Tid, u: Tid, k: Key)
    requires t in Run(INIT, es).threads && u in Run(INIT, es).threads
    requires k in Run(INIT, es).threads[t].held && k in Run(INIT, es).threads[u].held
    ensures t == u
  {
    var s := Run(INIT, es);
    RunKeeps(INIT, es);
    assert ThreadOk(s, t, s.threads[t]) && Locked(s, t, k, s.threads[t].held[k]);
    assert ThreadOk(s, u, s.threads[u]) && Locked(s, u, k, s.threads[u].held[k]);
  }

  /** The threads that hold a key or wait for it. */
  function Users(s: State, k: Key): set<Tid> {
    set t | t in s.threads
         && (k in s.threads[t].held
             || (s.threads[t].pc.Waiting? && s.threads[t].todo != [] && s.threads[t].todo[0].key == k))
  }

  lemma UsersAreClaimants(s: State, k: Key)
    requires Inv(s)
    ensures Users(s, k) == if k in s.locks then Claimants(s, s.locks[k]) else {}
  {
    forall t <- s.threads
      ensures t in Users(s, k) <==> k in s.locks && s.threads[t].Claims(s.locks[k])
    {
      var th := s.threads[t];
      assert ThreadOk(s, t, th);
      forall j <- th.held ensures k in s.locks && th.held[j] == s.locks[k] ==> j == k {
        assert Locked(s, t, j, th.held[j]);
      }
      if k in th.held {
        assert Locked(s, t, k, th.held[k]);
      }
    }
  }

  /** An entry is mapped exactly while its count is positive, and the count is its holders and waiters. */
  lemma EntriesCountUsers(es: seq<Step>, k: Key)
    ensures var s := Run(INIT, es);
      && (k in s.locks <==> Users(s, k) != {})
      && (k in s.locks ==> s.locks[k] < |s.objs| && s.objs[s.locks[k]].refs == |Users(s, k)|)
  {
    var s := Run(INIT, es);
    RunKeeps(INIT, es);
    UsersAreClaimants(s, k);
    if k in s.locks {
      assert RefsOk(s, s.locks[k]);
    }
  }

  /** `unlock` never meets a missing entry, and only ever unlocks a mutex its own thread locked. */
  lemma UnlockIsSound(es: seq<Step>, t: Tid)
    requires t in Run(INIT, es).threads
    ensures var s := Run(INIT, es); var th := s.threads[t];
      && (Enabled(s, Drop(t)) ==> th.todo[0].key in th.held && Locked(s, t, th.todo[0].key, th.held[th.todo[0].key]))
      && (Enabled(s, Release(t)) ==> s.objs[th.pc.obj].owner == Some(t))
  {
    var s := Run(INIT, es);
    RunKeeps(INIT, es);
    assert ThreadOk(s, t, s.threads[t]);
    if Enabled(s, Drop(t)) {
      UnlockFindsItsEntry(s, t);
    }
  }

  /** When every thread is idle the map is empty: it does not grow with use. */
  lemma IdleMapIsEmpty(es: seq<Step>)
    requires forall t <- Run(INIT, es).threads :: Run(INIT, es).threads[t].Idle()
    ensures Run(INIT, es).locks == map[]
  {
    var s := Run(INIT, es);
    forall k ensures k !in s.locks {
      EntriesCountUsers(es, k);
      assert Users(s, k) == {};
    }
  }

  /** `t` is blocked on a mutex that `u` has locked. */
  predicate WaitsFor(s: State, t: Tid, u: Tid) {
    && t in s.threads && u in s.threads && s.threads[t].pc.Waiting?
    && s.threads[t].pc.obj < |s.objs| && s.objs[s.threads[t].pc.obj].owner == Some(u)
  }

  /** The thread itself can take a step. */
  predicate CanStep(s: State, t: Tid) {
    Enabled(s, Claim(t)) || Enabled(s, Enter(t)) || Enabled(s, Drop(t)) || Enabled(s, Release(t))
  }

  /** A thread that waits for a mutex that is taken waits for a thread that holds it or is giving it back. */
  lemma WaitsForSomeone(s: State, t: Tid) returns (u: Tid)
    requires Inv(s) && t in s.threads && s.threads[t].pc.Waiting? && !Enabled(s, Enter(t))
    ensures WaitsFor(s, t, u) && s.threads[t].todo != []
    ensures s.threads[u].pc.Releasing? || s.threads[t].todo[0].key in s.threads[u].held
  {
    var th := s.threads[t];
    assert ThreadOk(s, t, th);
    var k, o := th.todo[0].key, th.pc.obj;
    assert OwnerOk(s, o);
    u := s.objs[o].owner.value;
    if s.threads[u].pc != Releasing(o) {
      var j :| j in s.threads[u].held && s.threads[u].held[j] == o;
      assert ThreadOk(s, u, s.threads[u]) && Locked(s, u, j, o);
    }
  }

  /** A thread in the middle of its program that is not blocked can take a step. */
  lemma UnblockedCanStep(s: State, t: Tid)
    requires Inv(s) && t in s.threads && !s.threads[t].Idle() && !s.threads[t].pc.Waiting?
    ensures CanStep(s, t)
  {
    var th := s.threads[t];
    assert ThreadOk(s, t, th);
    if !th.pc.Releasing? {
      assert th.todo == [] ==> th.held.Keys == {};
    }
  }

  /** A thread that waits while holding a lock waits for an owner-index lock. */
  lemma WaitersClimb(s: State, t: Tid, k: Key)
    requires Inv(s) && t in s.threads && s.threads[t].pc.Waiting? && k in s.threads[t].held
    ensures s.threads[t].todo != [] && s.threads[t].todo[0].key.Level() == 1 && k.Level() == 0
  {
    assert ThreadOk(s, t, s.threads[t]);
  }

  /** `u` is at the end of `t`'s own waits, of which there are at most two. */
  predicate Unblocks(s: State, t: Tid, u: Tid) {
    u == t || WaitsFor(s, t, u) || exists v <- s.threads :: WaitsFor(s, t, v) && WaitsFor(s, v, u)
  }

  /**
   No reachable state has a stuck thread: every unfinished handler can itself
   take a step, or waits, through at most two mutexes, for one that can.
   */
  lemma NoDeadlock(es: seq<Step>, t: Tid)
    requires t in Run(INIT, es).threads && !Run(INIT, es).threads[t].Idle()
    ensures exists u :: Unblocks(Run(INIT, es), t, u) && CanStep(Run(INIT, es), u)
  {
    var s := Run(INIT, es);
    RunKeeps(INIT, es);
    if CanStep(s, t) {
      assert Unblocks(s, t, t);
    } else {
      if !s.threads[t].pc.Waiting? {
        UnblockedCanStep(s, t);
      }
      var u := WaitsForSomeone(s, t);
      if CanStep(s, u) {
        assert Unblocks(s, t, u);
      } else {
        var w := SecondWait(s, t, u);
        assert Unblocks(s, t, w);
      }
    }
  }

  /** The second wait is for an owner-index lock, and its holder is not blocked. */
  lemma SecondWait(s: State, t: Tid, u: Tid) returns (w: Tid)
    requires Inv(s) && WaitsFor(s, t, u) && s.threads[t].todo != [] && !CanStep(s, u)
    requires s.threads[u].pc.Releasing? || s.threads[t].todo[0].key in s.threads[u].held
    ensures WaitsFor(s, u, w) && CanStep(s, w)
  {
    if !s.threads[u].pc.Waiting? {
      UnblockedCanStep(s, u);
    }
    w := WaitsForSomeone(s, u);
    WaitersClimb(s, u, s.threads[t].todo[0].key);
    if s.threads[w].pc.Waiting? {
      WaitersClimb(s, w, s.threads[u].todo[0].key);
      assert false;
    }
    UnblockedCanStep(s, w);
  }

  // ----- the two sections under locksMu, as code -----

  /** The count of a mapped key, or 0. */
  function Refs(s: State, k: Key): int
    requires MapOk(s)
  {
    if k in s.locks then s.objs[s.locks[k]].refs else 0
  }

  /** The mapped keys with their reference counts. */
  function Counts(s: State): (m: map<Key, int>)
    requires MapOk(s)
    ensures m.Keys == s.locks.Keys && forall k <- m :: m[k] == Refs(s, k)
  {
    map k | k in s.locks :: Refs(s, k)
  }

  function Counted(m: map<Key, int>, k: Key): map<Key, int> {
    m[k := (if k in m then m[k] else 0) + 1]
  }

  function Uncounted(m: map<Key, int>, k: Key): map<Key, int> {
    if k !in m then m else if m[k] == 1 then m - {k} else m[k := m[k] - 1]
  }

  lemma CountedIs(m: map<Key, int>, m': map<Key, int>, k: Key)
    requires m'.Keys == m.Keys + {k} && m'[k] == (if k in m then m[k] else 0) + 1
    requires forall j <- m | j != k :: m'[j] == m[j]
    ensures m' == Counted(m, k)
  {
  }

  lemma UncountedIs(m: map<Key, int>, m': map<Key, int>, k: Key)
    requires k in m && m'.Keys == if m[k] == 1 then m.Keys - {k} else m.Keys
    requires m[k] != 1 ==> m'[k] == m[k] - 1
    requires forall j <- m' | j != k :: m'[j] == m[j]
    ensures m' == Uncounted(m, k)
  {
  }

  lemma RefsAfterClaim(s: State, t: Tid)
    requires MapOk(s) && Enabled(s, Claim(t)) && MapOk(DoClaim(s, t))
    ensures var s', k := DoClaim(s, t), s.threads[t].todo[0].key;
      Refs(s', k) == Refs(s, k) + 1 && forall j | j != k :: Refs(s', j) == Refs(s, j)
  {
    var s', k := DoClaim(s, t), s.threads[t].todo[0].key;
    forall j | j != k ensures Refs(s', j) == Refs(s, j) {
      assert j in s.locks && k in s.locks ==> s.locks[j] != s.locks[k];
    }
  }

  lemma RefsAfterDrop(s: State, t: Tid)
    requires MapOk(s) && Enabled(s, Drop(t)) && MapOk(DoDrop(s, t)) && s.threads[t].todo[0].key in s.locks
    ensures var s', k := DoDrop(s, t), s.threads[t].todo[0].key;
      && s'.locks == (if Refs(s, k) == 1 then s.locks - {k} else s.locks)
      && (Refs(s, k) != 1 ==> Refs(s', k) == Refs(s, k) - 1)
      && forall j | j != k :: Refs(s', j) == Refs(s, j)
  {
    var s', k := DoDrop(s, t), s.threads[t].todo[0].key;
    forall j | j != k ensures Refs(s', j) == Refs(s, j) {
      assert j in s.locks ==> s.locks[j] != s.locks[k];
    }
  }

  lemma ClaimCounts(s: State, t: Tid)
    requires Inv(s) && Enabled(s, Claim(t))
    ensures MapOk(DoClaim(s, t)) && Counts(DoClaim(s, t)) == Counted(Counts(s), s.threads[t].todo[0].key)
  {
    ClaimKeepsThreads(s, t);
    RefsAfterClaim(s, t);
    CountedIs(Counts(s), Counts(DoClaim(s, t)), s.threads[t].todo[0].key);
  }

  lemma DropCounts(s: State, t: Tid)
    requires Inv(s) && Enabled(s, Drop(t))
    ensures MapOk(DoDrop(s, t)) && Counts(DoDrop(s, t)) == Uncounted(Counts(s), s.threads[t].todo[0].key)
  {
    UnlockFindsItsEntry(s, t);
    DropKeepsThreads(s, t);
    RefsAfterDrop(s, t);
    UncountedIs(Counts(s), Counts(DoDrop(s, t)), s.threads[t].todo[0].key);
  }

  class MutexEntry {
    var refs: int

    constructor ()
      ensures refs == 0
    {
      refs := 0;
    }
  }

  class LockTable {
    var locks: map<Key, MutexEntry>

    ghost predicate Valid()
      reads this, locks.Values
    {
      && (forall k <- locks :: locks[k].refs > 0)
      && (forall k, j | k in locks && j in locks && locks[k] == locks[j] :: k == j)
    }

    ghost function Refs(): map<Key, int>
      reads this, locks.Values
    {
      map k | k in locks :: locks[k].refs
    }

    constructor ()
      ensures Valid() && Refs() == map[]
    {
      locks := map[];
    }

    /** `lock` under locksMu; the caller then blocks on the entry it is given. */
    method ClaimEntry(key: Key) returns (l: MutexEntry)
      requires Valid()
      modifies this, locks.Values
      ensures Valid() && Refs() == Counted(old(Refs()), key)
      ensures key in locks && l == locks[key]
      ensures key in old(locks) ==> locks == old(locks)
      ensures key !in old(locks) ==> fresh(l) && locks == old(locks)[key := l]
    {
      if key !in locks {
        l := new MutexEntry();
        locks := locks[key := l];
      } else {
        l := locks[key];
      }
      l.refs := l.refs + 1;
    }

    /** `unlock` under locksMu; the caller then unlocks the entry it is given. */
    method DropEntry(key: Key) returns (l: MutexEntry?)
      requires Valid()
      modifies this, locks.Values
      ensures Valid() && Refs() == Uncounted(old(Refs()), key)
      ensures l == if key in old(locks) then old(locks)[key] else null
    {
      if key !in locks {
        return null;
      }
      l := locks[key];
      l.refs := l.refs - 1;
      if l.refs == 0 {
        locks := locks - {key};
      }
    }
  }
}
