/**
 Uploading one file over any number of interrupted runs of the client: what each
 run revives, what it sends, and what ends up stored.
 */
module ResumeRuns {
  import opened Basics
  import opened ContentRange
  import opened E2EFormat
  import opened E2EEncrypt
  import E2EDecrypt
  import opened PendingUploads
  import opened SessionSpool

  /**
   What the runs share: the file behind a resume key (path, size and modification
   time), the metadata JSON for a name, and the cipher behind an encoded key.
   */
  datatype Env = Env(content: string -> bytes, meta: string -> bytes, cipher: string -> Aead, parsesKey: string -> bool)

  ghost predicate EnvOk(env: Env) {
    forall k :: Sized(env.cipher(k))
  }

  predicate ValidPrefix(p: bytes) {
    |p| == NONCE_PREFIX_SIZE
  }

  /** The stream a key and prefix revive for a name. */
  function StreamFor(env: Env, e2eKey: string, prefix: bytes, name: string): Stream
    requires ValidPrefix(prefix)
  {
    Stream(env.cipher(e2eKey), prefix, env.meta(name))
  }

  /** Whether this upload has a byte source at all, and its bytes. */
  predicate HasSource(env: Env, e2eKey: string, prefix: bytes, name: string) {
    e2eKey != "" ==> ValidPrefix(prefix) && StreamFor(env, e2eKey, prefix, name).HeaderFits()
  }

  function Source(env: Env, key: string, e2eKey: string, prefix: bytes, name: string): bytes
    requires HasSource(env, e2eKey, prefix, name)
  {
    if e2eKey == "" then env.content(key) else StreamFor(env, e2eKey, prefix, name).Ciphertext(env.content(key))
  }

  function EntrySource(env: Env, e: Entry): bytes
    requires HasSource(env, e.e2eKey, e.e2ePrefix, e.name)
  {
    Source(env, e.key, e.e2eKey, e.e2ePrefix, e.name)
  }

  /**
   A session on the server, the entry it was created for, and the name under
   which its first bytes were sent; the name only observes.
   */
  datatype Session = Session(entry: Entry, spool: Spool, writer: string)

  /** A running client: the session it drives and the stream it revived or made. */
  datatype Run = Run(key: string, name: string, session: nat, e2eKey: string, e2ePrefix: bytes)

  /** `known` are all entries ever recorded: a pending file may hold any of them, or have lost them. */
  datatype World = World(known: set<Entry>, sessions: map<nat, Session>, runs: map<nat, Run>)

  const NEW_WORLD := World({}, map[], map[])

  datatype Event =
    | Start(run: nat, pending: seq<Entry>, key: string, name: string, e2e: bool, statusLost: bool,
            newKey: string, newPrefix: bytes, newSession: nat, now: int)
    | Send(run: nat, start: nat, n: nat, length: nat, f: Fault)
    | Unlinked(session: nat, part: bool, sidecar: bool)
    | Die(run: nat)

  /** SessionStatus, as far as resumeSession uses it: the declared total of a session that is still there. */
  function StatusLength(w: World, session: nat, lost: bool): Option<nat> {
    if lost || session !in w.sessions || !w.sessions[session].spool.sidecar || !w.sessions[session].spool.linked then None
    else Some(w.sessions[session].spool.total)
  }

  /** resumeSession: revive the recorded session together with the stream that produced its bytes. */
  function Resume(env: Env, w: World, e: Event): Option<Run>
    requires e.Start?
  {
    match Find(e.pending, e.key)
    case None => None
    case Some(u) =>
      if (u.e2eKey != "") != e.e2e then None
      else if e.e2e && (!env.parsesKey(u.e2eKey) || !ValidPrefix(u.e2ePrefix)) then None
      else
        match StatusLength(w, u.session, e.statusLost)
        case None => None
        case Some(length) =>
          if length != u.length then None else Some(Run(e.key, e.name, u.session, u.e2eKey, u.e2ePrefix))
  }

  /** A new session for a new stream; the server refuses an empty upload. */
  function NewEntry(env: Env, e: Event): Option<Entry>
    requires e.Start?
  {
    var e2eKey := if e.e2e then e.newKey else "";
    if (e.e2e && (e.newKey == "" || !ValidPrefix(e.newPrefix))) || !HasSource(env, e2eKey, e.newPrefix, e.name) then None
    else
      var length := if e.e2e then GoEncryptedSize(|env.content(e.key)|, |env.meta(e.name)|) else |env.content(e.key)|;
      if length == 0 then None else Some(Entry(e.key, e.newSession, e.name, length, e2eKey, e.newPrefix, e.now))
  }

  function NewSession(u: Entry): Session {
    Session(u, Spool(u.length, true, true, [], []), u.name)
  }

  function StartStep(env: Env, w: World, e: Event): World
    requires e.Start?
  {
    if e.run in w.runs || !(forall u <- e.pending :: u in w.known) then w
    else
      match Resume(env, w, e)
      case Some(r) => w.(runs := w.runs[e.run := r])
      case None =>
        if e.newSession in w.sessions then w
        else
          match NewEntry(env, e)
          case None => w
          case Some(u) =>
            World(w.known + {u},
                  w.sessions[e.newSession := NewSession(u)],
                  w.runs[e.run := Run(e.key, e.name, e.newSession, u.e2eKey, u.e2ePrefix)])
  }

  /** The chunk source of uploadResumable: the file itself, or the stream from that offset. */
  function ChunkSource(env: Env, r: Run, offset: nat): Option<bytes> {
    if r.e2eKey == "" then Some(From(env.content(r.key), offset))
    else if !ValidPrefix(r.e2ePrefix) then None
    else
      match StreamFrom(StreamFor(env, r.e2eKey, r.e2ePrefix, r.name), env.content(r.key), offset)
      case Ok(b) => Some(b)
      case Err(_) => None
  }

  function SendStep(env: Env, w: World, e: Event): World
    requires e.Send?
  {
    if e.run !in w.runs || e.n == 0 || e.start + e.n > e.length then w
    else
      var r := w.runs[e.run];
      if r.session !in w.sessions then w
      else
        match ChunkSource(env, r, e.start)
        case None => w
        case Some(body) =>
          var s := w.sessions[r.session];
          var served := Serve(s.spool, Span(e.start, e.start + e.n - 1, e.length), body, e.f).0;
          w.(sessions := w.sessions[r.session := Written(s, r, served)])
  }

  /** The first bytes to arrive say whose stream the spool follows. */
  function Written(s: Session, r: Run, served: Spool): Session {
    s.(spool := served, writer := if s.spool.data == [] && served.data != [] then r.name else s.writer)
  }

  function Step(env: Env, w: World, e: Event): World {
    match e
    case Start(_, _, _, _, _, _, _, _, _, _) => StartStep(env, w, e)
    case Send(_, _, _, _, _) => SendStep(env, w, e)
    case Unlinked(id, part, sidecar) =>
      if id !in w.sessions then w
      else
        var s := w.sessions[id];
        w.(sessions := w.sessions[id := s.(spool := Unlink(s.spool, part, sidecar))])
    case Die(run) => w.(runs := w.runs - {run})
  }

  function After(env: Env, w: World, es: seq<Event>): World
    decreases |es|
  {
    if es == [] then w else After(env, Step(env, w, es[0]), es[1..])
  }

  // ----- when a run takes up a session, and when it makes one -----

  /** `u` is what the pending file has for the key: the first entry of that key. */
  predicate FirstOf(us: seq<Entry>, key: string, u: Entry) {
    exists i :: 0 <= i < |us| && us[i] == u && u.key == key && forall j | 0 <= j < i :: us[j].key != key
  }

  lemma {:induction false} FindsTheFirst(us: seq<Entry>, key: string, u: Entry)
    ensures Find(us, key) == Some(u) <==> FirstOf(us, key, u)
    decreases |us|
  {
    if us != [] && us[0].key != key {
      FindsTheFirst(us[1..], key, u);
      if FirstOf(us[1..], key, u) {
        var i :| 0 <= i < |us[1..]| && us[1..][i] == u && u.key == key && forall j | 0 <= j < i :: us[1..][j].key != key;
        assert us[i + 1] == u && forall j | 0 <= j < i + 1 :: us[j].key != key;
      }
      if FirstOf(us, key, u) {
        var i :| 0 <= i < |us| && us[i] == u && u.key == key && forall j | 0 <= j < i :: us[j].key != key;
        assert i > 0 && us[1..][i - 1] == u;
        forall j | 0 <= j < i - 1 ensures us[1..][j].key != key {
          assert us[j + 1].key != key;
        }
      }
    } else if us != [] {
      assert FirstOf(us, key, us[0]);
    }
  }

  /**
   The entry can be taken up: it is of the same kind, encrypted or not, its key and
   prefix can be read if it is, and the server answers that the session still has
   both its files and the recorded length.
   */
  predicate CanBeTakenUp(env: Env, w: World, u: Entry, e: Event)
    requires e.Start?
  {
    && (u.e2eKey == "" <==> !e.e2e)
    && (e.e2e ==> env.parsesKey(u.e2eKey) && |u.e2ePrefix| == 7)
    && !e.statusLost && u.session in w.sessions
    && w.sessions[u.session].spool.sidecar && w.sessions[u.session].spool.linked
    && w.sessions[u.session].spool.total == u.length
  }

  /** A plain or encrypted run alike takes up what it can: no session is made, and it drives the recorded one. */
  lemma TakesUpWhatItCan(env: Env, w: World, e: Event, u: Entry)
    requires e.Start? && e.run !in w.runs && (forall v <- e.pending :: v in w.known)
    requires FirstOf(e.pending, e.key, u) && CanBeTakenUp(env, w, u, e)
    ensures StartStep(env, w, e) == w.(runs := w.runs[e.run := Run(e.key, e.name, u.session, u.e2eKey, u.e2ePrefix)])
  {
    FindsTheFirst(e.pending, e.key, u);
  }

  /** The events that only take away: a run that dies, and files that a sweep or a DELETE unlinks. */
  lemma WhatIsTakenAway(env: Env, w: World, id: nat, part: bool, sidecar: bool, run: nat)
    ensures Step(env, w, Die(run)) == w.(runs := w.runs - {run})
    ensures id in w.sessions ==>
      Step(env, w, Unlinked(id, part, sidecar))
      == w.(sessions := w.sessions[id := w.sessions[id].(spool := Unlink(w.sessions[id].spool, part, sidecar))])
    ensures id !in w.sessions ==> Step(env, w, Unlinked(id, part, sidecar)) == w
  {
  }

  /** A new upload can be made of this file: there is something to send, and the metadata fits its header. */
  predicate CanBeMade(env: Env, w: World, e: Event)
    requires e.Start?
  {
    && e.newSession !in w.sessions
    && if e.e2e then e.newKey != "" && |e.newPrefix| == 7 && |env.meta(e.name)| + TAG_SIZE < 65536
       else env.content(e.key) != []
  }

  /** Otherwise it makes a session of its own, empty and of the length of what it will send. */
  lemma MakesItsOwnOtherwise(env: Env, w: World, e: Event)
    requires EnvOk(env) && e.Start? && e.run !in w.runs && (forall v <- e.pending :: v in w.known)
    requires forall u <- e.pending :: FirstOf(e.pending, e.key, u) ==> !CanBeTakenUp(env, w, u, e)
    requires CanBeMade(env, w, e)
    ensures var key := if e.e2e then e.newKey else "";
      && HasSource(env, key, e.newPrefix, e.name)
      && var u := Entry(e.key, e.newSession, e.name, |Source(env, e.key, key, e.newPrefix, e.name)|, key, e.newPrefix, e.now);
         StartStep(env, w, e) ==
         World(w.known + {u}, w.sessions[e.newSession := Session(u, Spool(u.length, true, true, [], []), e.name)],
               w.runs[e.run := Run(e.key, e.name, e.newSession, key, e.newPrefix)])
  {
    FindIsAMember(e.pending, e.key);
    if Find(e.pending, e.key).Some? {
      FindsTheFirst(e.pending, e.key, Find(e.pending, e.key).value);
    }
    if e.e2e {
      HeaderSizes(env, e.newKey, e.newPrefix, e.name);
      SourceLength(env, e.key, e.newKey, e.newPrefix, e.name);
    }
  }

  // ----- which streams agree -----

  /** Two streams of the same file under one key and prefix, for two names. */
  predicate BothFit(env: Env, e2eKey: string, prefix: bytes, name: string, other: string) {
    && ValidPrefix(prefix)
    && StreamFor(env, e2eKey, prefix, name).HeaderFits() && StreamFor(env, e2eKey, prefix, other).HeaderFits()
  }

  /**
   They are the same from `offset` on: the metadata has the same length, so that
   every chunk lies where it did, and what is left of the headers is the same.
   */
  predicate TailsAgree(env: Env, e2eKey: string, prefix: bytes, name: string, other: string, offset: nat) {
    && BothFit(env, e2eKey, prefix, name, other)
    && |env.meta(name)| == |env.meta(other)|
    && (env.meta(name) == env.meta(other) || PastHeader(env, name, offset)
        || From(StreamFor(env, e2eKey, prefix, name).Header(), offset) == From(StreamFor(env, e2eKey, prefix, other).Header(), offset))
  }

  predicate PastHeader(env: Env, name: string, offset: nat) {
    offset >= HEADER_SIZE + |env.meta(name)| + TAG_SIZE
  }

  lemma HeaderSizes(env: Env, e2eKey: string, prefix: bytes, name: string)
    requires EnvOk(env) && ValidPrefix(prefix)
    ensures var s := StreamFor(env, e2eKey, prefix, name);
      && |s.SealedMeta()| == |env.meta(name)| + TAG_SIZE
      && (s.HeaderFits() ==> |s.Header()| == HEADER_SIZE + |env.meta(name)| + TAG_SIZE)
  {
  }

  lemma SourceLength(env: Env, key: string, e2eKey: string, prefix: bytes, name: string)
    requires EnvOk(env) && e2eKey != "" && HasSource(env, e2eKey, prefix, name)
    ensures |Source(env, key, e2eKey, prefix, name)| == GoEncryptedSize(|env.content(key)|, |env.meta(name)|)
    ensures |Source(env, key, e2eKey, prefix, name)| > 0
  {
    EncryptedSizesAgree(StreamFor(env, e2eKey, prefix, name), env.content(key));
  }

  /** The same suffix of two byte strings that only differ in front. */
  lemma SuffixesAgreeIff(h: bytes, g: bytes, rest: bytes, offset: nat)
    requires |h| == |g| && offset <= |h + rest|
    ensures (h + rest)[offset..] == (g + rest)[offset..] <==> From(h, offset) == From(g, offset)
  {
    if offset <= |h| {
      assert (h + rest)[offset..] == h[offset..] + rest && (g + rest)[offset..] == g[offset..] + rest;
      if h[offset..] + rest == g[offset..] + rest {
        assert (h[offset..] + rest)[..|h| - offset] == h[offset..] && (g[offset..] + rest)[..|h| - offset] == g[offset..];
      }
    } else {
      assert (h + rest)[offset..] == rest[offset - |h|..] == (g + rest)[offset..];
    }
  }

  /** Inside both, the two streams have the same bytes from `offset` on exactly when their tails agree. */
  lemma SourcesAgreeIff(env: Env, key: string, e2eKey: string, prefix: bytes, name: string, other: string, offset: nat)
    requires EnvOk(env) && e2eKey != "" && BothFit(env, e2eKey, prefix, name, other)
    requires offset < |Source(env, key, e2eKey, prefix, name)| && offset < |Source(env, key, e2eKey, prefix, other)|
    ensures Source(env, key, e2eKey, prefix, name)[offset..] == Source(env, key, e2eKey, prefix, other)[offset..]
       <==> TailsAgree(env, e2eKey, prefix, name, other, offset)
  {
    var s, s' := StreamFor(env, e2eKey, prefix, name), StreamFor(env, e2eKey, prefix, other);
    var rest := Chunks(s.aead, s.prefix, env.content(key), 1);
    HeaderSizes(env, e2eKey, prefix, name);
    HeaderSizes(env, e2eKey, prefix, other);
    if |env.meta(name)| == |env.meta(other)| {
      SuffixesAgreeIff(s.Header(), s'.Header(), rest, offset);
    } else {
      assert |s.Ciphertext(env.content(key))[offset..]| != |s'.Ciphertext(env.content(key))[offset..]|;
    }
  }

  /**
   A run that takes up an encrypted upload sends the session's own bytes from an
   offset inside both streams if and only if the streams agree from there: under
   the same metadata bytes, or under others of the same length past the header.
   */
  lemma OwnBytesIff(env: Env, r: Run, u: Entry, offset: nat)
    requires EnvOk(env) && r.key == u.key && r.e2eKey == u.e2eKey != "" && r.e2ePrefix == u.e2ePrefix
    requires HasSource(env, u.e2eKey, u.e2ePrefix, u.name) && offset < |EntrySource(env, u)|
    requires HasSource(env, r.e2eKey, r.e2ePrefix, r.name) ==> offset < |Source(env, r.key, r.e2eKey, r.e2ePrefix, r.name)|
    ensures ChunkSource(env, r, offset) == Some(EntrySource(env, u)[offset..])
       <==> TailsAgree(env, u.e2eKey, u.e2ePrefix, u.name, r.name, offset)
  {
    if HasSource(env, r.e2eKey, r.e2ePrefix, r.name) {
      StreamFromIsSuffix(StreamFor(env, r.e2eKey, r.e2ePrefix, r.name), env.content(r.key), offset);
      SourcesAgreeIff(env, u.key, u.e2eKey, u.e2ePrefix, u.name, r.name, offset);
    }
  }

  // ----- the invariant -----

  /** A run drives a session of its own file, key and prefix; its name may be another. */
  predicate Continues(r: Run, u: Entry) {
    r.key == u.key && r.e2eKey == u.e2eKey && r.e2ePrefix == u.e2ePrefix
  }

  /** The bytes the session's spool follows. */
  predicate Follows(env: Env, u: Entry, name: string) {
    && HasSource(env, u.e2eKey, u.e2ePrefix, name)
    && |Source(env, u.key, u.e2eKey, u.e2ePrefix, name)| == u.length
  }

  predicate SessionOk(env: Env, s: Session) {
    && Follows(env, s.entry, s.writer) && s.spool.total == s.entry.length > 0
    && Sound(Source(env, s.entry.key, s.entry.e2eKey, s.entry.e2ePrefix, s.writer), s.spool)
  }

  predicate Inv(env: Env, w: World) {
    && (forall id <- w.sessions :: SessionOk(env, w.sessions[id]))
    && (forall u <- w.known :: u.session in w.sessions && w.sessions[u.session].entry == u)
    && (forall run <- w.runs :: w.runs[run].session in w.sessions
                             && Continues(w.runs[run], w.sessions[w.runs[run].session].entry))
  }

  /**
   The stream a run sends joins the one the spool follows. Nothing is asked of a
   plain upload, nor of a chunk that the server will not append; the first bytes
   may come under any name whose stream has the declared length.
   */
  predicate Joins(env: Env, s: Session, name: string, start: nat) {
    s.entry.e2eKey != "" && start == |s.spool.data| ==>
      if start == 0 then Follows(env, s.entry, name)
      else TailsAgree(env, s.entry.e2eKey, s.entry.e2ePrefix, s.writer, name, start)
  }

  predicate SendJoins(env: Env, w: World, e: Event) {
    e.Send? && e.run in w.runs && w.runs[e.run].session in w.sessions ==>
      Joins(env, w.sessions[w.runs[e.run].session], w.runs[e.run].name, e.start)
  }

  /** Every chunk of the history joins. */
  predicate Joined(env: Env, w: World, es: seq<Event>)
    decreases |es|
  {
    es == [] || (SendJoins(env, w, es[0]) && Joined(env, Step(env, w, es[0]), es[1..]))
  }

  lemma CreatedSessionOk(env: Env, e: Event)
    requires EnvOk(env) && e.Start? && NewEntry(env, e).Some?
    ensures SessionOk(env, NewSession(NewEntry(env, e).value))
  {
    if e.e2e {
      SourceLength(env, e.key, e.newKey, e.newPrefix, e.name);
    }
  }

  lemma ResumedContinues(env: Env, w: World, e: Event)
    requires Inv(env, w) && e.Start? && (forall u <- e.pending :: u in w.known) && Resume(env, w, e).Some?
    ensures var r := Resume(env, w, e).value;
      r.session in w.sessions && Continues(r, w.sessions[r.session].entry)
  {
    FindIsAMember(e.pending, e.key);
  }

  lemma RunAdded(env: Env, w: World, run: nat, r: Run)
    requires Inv(env, w) && r.session in w.sessions && Continues(r, w.sessions[r.session].entry)
    ensures Inv(env, w.(runs := w.runs[run := r]))
  {
  }

  lemma SessionAdded(env: Env, w: World, id: nat, s: Session)
    requires Inv(env, w) && id !in w.sessions && SessionOk(env, s) && s.entry.session == id
    ensures Inv(env, World(w.known + {s.entry}, w.sessions[id := s], w.runs))
  {
  }

  lemma SessionUpdated(env: Env, w: World, id: nat, s: Session)
    requires Inv(env, w) && id in w.sessions && s.entry == w.sessions[id].entry && SessionOk(env, s)
    ensures Inv(env, w.(sessions := w.sessions[id := s]))
  {
  }

  /** Reviving a recorded session, or creating one, under any name. */
  lemma StartKeeps(env: Env, w: World, e: Event)
    requires EnvOk(env) && Inv(env, w) && e.Start?
    ensures Inv(env, StartStep(env, w, e))
  {
    if e.run !in w.runs && forall u <- e.pending :: u in w.known {
      if Resume(env, w, e).Some? {
        ResumedContinues(env, w, e);
        RunAdded(env, w, e.run, Resume(env, w, e).value);
      } else if e.newSession !in w.sessions && NewEntry(env, e).Some? {
        CreationKeeps(env, w, e);
      }
    }
  }

  lemma CreationKeeps(env: Env, w: World, e: Event)
    requires EnvOk(env) && Inv(env, w) && e.Start? && e.newSession !in w.sessions && NewEntry(env, e).Some?
    ensures var u := NewEntry(env, e).value;
      Inv(env, World(w.known + {u},
                     w.sessions[e.newSession := NewSession(u)],
                     w.runs[e.run := Run(e.key, e.name, e.newSession, u.e2eKey, u.e2ePrefix)]))
  {
    var u := NewEntry(env, e).value;
    CreatedSessionOk(env, e);
    SessionAdded(env, w, e.newSession, NewSession(u));
    RunAdded(env, World(w.known + {u}, w.sessions[e.newSession := NewSession(u)], w.runs), e.run,
             Run(e.key, e.name, e.newSession, u.e2eKey, u.e2ePrefix));
  }

  /** A chunk that joins is the rest of the stream the spool follows from then on. */
  lemma JoiningBody(env: Env, r: Run, s: Session, start: nat, body: bytes)
    requires EnvOk(env) && SessionOk(env, s) && Continues(r, s.entry) && Joins(env, s, r.name, start)
    requires start == |s.spool.data| < s.spool.total && ChunkSource(env, r, start) == Some(body)
    ensures var name := if s.entry.e2eKey != "" && start == 0 then r.name else s.writer;
      Follows(env, s.entry, name) && body == Source(env, s.entry.key, s.entry.e2eKey, s.entry.e2ePrefix, name)[start..]
  {
    var u := s.entry;
    if u.e2eKey != "" {
      if start != 0 {
        TailsHaveLength(env, u, s.writer, r.name, start);
        SourcesAgreeIff(env, u.key, u.e2eKey, u.e2ePrefix, s.writer, r.name, start);
      }
      StreamFromIsSuffix(StreamFor(env, u.e2eKey, u.e2ePrefix, r.name), env.content(u.key), start);
    }
  }

  lemma TailsHaveLength(env: Env, u: Entry, name: string, other: string, offset: nat)
    requires EnvOk(env) && u.e2eKey != "" && Follows(env, u, name) && TailsAgree(env, u.e2eKey, u.e2ePrefix, name, other, offset)
    ensures Follows(env, u, other)
  {
    SourceLength(env, u.key, u.e2eKey, u.e2ePrefix, name);
    SourceLength(env, u.key, u.e2eKey, u.e2ePrefix, other);
  }

  /** An empty spool can follow any stream of its length. */
  lemma EmptyFollowsAny(env: Env, s: Session, name: string)
    requires SessionOk(env, s) && Follows(env, s.entry, name) && s.spool.data == []
    ensures SessionOk(env, s.(writer := name))
  {
  }

  /** Any chunk a run of this session can send, of whatever length it believes in, leaves the session in order. */
  lemma ServedIsOk(env: Env, r: Run, s: Session, e: Event, body: bytes)
    requires EnvOk(env) && SessionOk(env, s) && Continues(r, s.entry) && e.Send? && Joins(env, s, r.name, e.start)
    requires e.n > 0 && e.start + e.n <= e.length && ChunkSource(env, r, e.start) == Some(body)
    ensures SessionOk(env, Written(s, r, Serve(s.spool, Span(e.start, e.start + e.n - 1, e.length), body, e.f).0))
  {
    var span := Span(e.start, e.start + e.n - 1, e.length);
    if e.length == s.spool.total && e.start == |s.spool.data| {
      JoiningBody(env, r, s, e.start, body);
      var name := if s.entry.e2eKey != "" && e.start == 0 then r.name else s.writer;
      if e.start == 0 {
        EmptyFollowsAny(env, s, name);
      }
      MatchedIsOk(env, s.(writer := name), r, span, body, e.f);
    } else {
      TurnedAwayIsSame(s.spool, span, body, e.f);
    }
  }

  lemma MatchedIsOk(env: Env, s: Session, r: Run, span: Span, body: bytes, f: Fault)
    requires SessionOk(env, s) && span.start == |s.spool.data| && span.start <= span.end < span.total == s.spool.total
    requires body == Source(env, s.entry.key, s.entry.e2eKey, s.entry.e2ePrefix, s.writer)[span.start..]
    ensures SessionOk(env, s.(spool := Serve(s.spool, span, body, f).0))
  {
    ServeIsSound(Source(env, s.entry.key, s.entry.e2eKey, s.entry.e2ePrefix, s.writer), s.spool, span, body, f);
  }

  lemma TurnedAwayIsSame(s: Spool, span: Span, body: bytes, f: Fault)
    requires span.start <= span.end && (span.total != s.total || span.start != |s.data|)
    ensures var s' := Serve(s, span, body, f).0; s'.data == s.data && s'.total == s.total && s'.objects == s.objects
  {
  }

  lemma SendKeeps(env: Env, w: World, e: Event)
    requires EnvOk(env) && Inv(env, w) && e.Send? && SendJoins(env, w, e)
    ensures Inv(env, SendStep(env, w, e))
  {
    if e.run in w.runs && e.n > 0 && e.start + e.n <= e.length && ChunkSource(env, w.runs[e.run], e.start).Some? {
      ServedKeeps(env, w, e, ChunkSource(env, w.runs[e.run], e.start).value);
      SendServes(env, w, e, ChunkSource(env, w.runs[e.run], e.start).value);
    } else {
      assert SendStep(env, w, e) == w;
    }
  }

  lemma SendServes(env: Env, w: World, e: Event, body: bytes)
    requires e.Send? && e.n > 0 && e.start + e.n <= e.length && e.run in w.runs && w.runs[e.run].session in w.sessions
    requires ChunkSource(env, w.runs[e.run], e.start) == Some(body)
    ensures var r := w.runs[e.run]; var s := w.sessions[r.session];
      var served := Serve(s.spool, Span(e.start, e.start + e.n - 1, e.length), body, e.f).0;
      SendStep(env, w, e) == w.(sessions := w.sessions[r.session := Written(s, r, served)])
  {
  }

  lemma ServedKeeps(env: Env, w: World, e: Event, body: bytes)
    requires EnvOk(env) && Inv(env, w) && e.Send? && e.n > 0 && e.start + e.n <= e.length && SendJoins(env, w, e)
    requires e.run in w.runs && ChunkSource(env, w.runs[e.run], e.start) == Some(body)
    ensures w.runs[e.run].session in w.sessions
    ensures var r := w.runs[e.run]; var s := w.sessions[r.session];
      var served := Serve(s.spool, Span(e.start, e.start + e.n - 1, e.length), body, e.f).0;
      Inv(env, w.(sessions := w.sessions[r.session := Written(s, r, served)]))
  {
    var r := w.runs[e.run];
    var s := w.sessions[r.session];
    var served := Serve(s.spool, Span(e.start, e.start + e.n - 1, e.length), body, e.f).0;
    ServedIsOk(env, r, s, e, body);
    SessionUpdated(env, w, r.session, Written(s, r, served));
  }

  lemma StepKeeps(env: Env, w: World, e: Event)
    requires EnvOk(env) && Inv(env, w) && SendJoins(env, w, e)
    ensures Inv(env, Step(env, w, e))
  {
    match e
    case Start(_, _, _, _, _, _, _, _, _, _) => StartKeeps(env, w, e);
    case Send(_, _, _, _, _) => SendKeeps(env, w, e);
    case Unlinked(id, part, sidecar) =>
      if id in w.sessions {
        var s := w.sessions[id];
        SessionUpdated(env, w, id, s.(spool := Unlink(s.spool, part, sidecar)));
      }
    case Die(_) =>
  }

  lemma {:induction false} RunsKeep(env: Env, w: World, es: seq<Event>)
    requires EnvOk(env) && Inv(env, w) && Joined(env, w, es)
    ensures Inv(env, After(env, w, es))
    decreases |es|
  {
    if es != [] {
      StepKeeps(env, w, es[0]);
      RunsKeep(env, Step(env, w, es[0]), es[1..]);
    }
  }

  /** The object is the file, or a ciphertext that every cipher that opens what its stream sealed decrypts to the file. */
  ghost predicate IsTheFile(env: Env, s: Session, o: bytes, parses: bytes -> bool) {
    var u, file := s.entry, env.content(s.entry.key);
    if u.e2eKey == "" then o == file
    else
      && ValidPrefix(u.e2ePrefix)
      && var stream := StreamFor(env, u.e2eKey, u.e2ePrefix, s.writer);
         (parses(stream.meta) && OpensLog(stream.aead, stream.Log(file)) ==>
           E2EDecrypt.Decrypt(stream.aead, parses, o) == Ok(E2EDecrypt.Opened(stream.meta, E2EDecrypt.Outcome(file, true))))
  }

  /**
   Across any number of interrupted runs whose chunks join, what a session stored
   is one object of the declared length, and it is the file: as it is, or as one
   ciphertext that decrypts to it, with the metadata its first bytes were sent
   under.
   */
  lemma StoredIsTheFile(env: Env, es: seq<Event>, id: nat, parses: bytes -> bool)
    requires EnvOk(env) && Joined(env, NEW_WORLD, es) && id in After(env, NEW_WORLD, es).sessions
    ensures var s := After(env, NEW_WORLD, es).sessions[id];
      s.spool.objects == [] || exists o :: s.spool.objects == [o] && |o| == s.entry.length && IsTheFile(env, s, o, parses)
  {
    RunsKeep(env, NEW_WORLD, es);
    StoredOf(env, After(env, NEW_WORLD, es).sessions[id], parses);
  }

  lemma StoredOf(env: Env, s: Session, parses: bytes -> bool)
    requires EnvOk(env) && SessionOk(env, s)
    ensures s.spool.objects == [] || exists o :: s.spool.objects == [o] && |o| == s.entry.length && IsTheFile(env, s, o, parses)
  {
    var u := s.entry;
    if s.spool.objects != [] {
      var o := Source(env, u.key, u.e2eKey, u.e2ePrefix, s.writer);
      if u.e2eKey != "" {
        var stream := StreamFor(env, u.e2eKey, u.e2ePrefix, s.writer);
        if parses(stream.meta) && OpensLog(stream.aead, stream.Log(env.content(u.key))) {
          E2EDecrypt.RoundTrip(stream, env.content(u.key), parses);
        }
      }
      assert s.spool.objects == [o] && IsTheFile(env, s, o, parses);
    }
  }

  // ----- names with the same metadata -----

  /** A run takes up an encrypted upload under a name with the recorded metadata bytes. */
  predicate SameMeta(env: Env, e: Event) {
    e.Start? && e.e2e ==>
      var found := Find(e.pending, e.key); found.Some? ==> env.meta(found.value.name) == env.meta(e.name)
  }

  predicate NamesOk(env: Env, w: World) {
    && (forall id <- w.sessions :: w.sessions[id].entry.e2eKey != "" ==>
         env.meta(w.sessions[id].writer) == env.meta(w.sessions[id].entry.name))
    && (forall run <- w.runs :: RunNameOk(env, w, w.runs[run]))
  }

  predicate RunNameOk(env: Env, w: World, r: Run) {
    r.session in w.sessions && r.e2eKey != "" ==> env.meta(r.name) == env.meta(w.sessions[r.session].entry.name)
  }

  lemma ResumedNameOk(env: Env, w: World, e: Event)
    requires Inv(env, w) && e.Start? && SameMeta(env, e) && (forall u <- e.pending :: u in w.known) && Resume(env, w, e).Some?
    ensures RunNameOk(env, w, Resume(env, w, e).value)
  {
    FindIsAMember(e.pending, e.key);
  }

  lemma NamesWithRun(env: Env, w: World, run: nat, r: Run)
    requires NamesOk(env, w) && RunNameOk(env, w, r)
    ensures NamesOk(env, w.(runs := w.runs[run := r]))
  {
  }

  lemma NamesWithSession(env: Env, w: World, id: nat, u: Entry)
    requires NamesOk(env, w) && id !in w.sessions && forall run <- w.runs :: w.runs[run].session in w.sessions
    ensures NamesOk(env, World(w.known + {u}, w.sessions[id := NewSession(u)], w.runs))
  {
  }

  lemma NamesStartOk(env: Env, w: World, e: Event)
    requires EnvOk(env) && Inv(env, w) && NamesOk(env, w) && e.Start? && SameMeta(env, e)
    ensures NamesOk(env, StartStep(env, w, e))
  {
    if e.run !in w.runs && forall u <- e.pending :: u in w.known {
      if Resume(env, w, e).Some? {
        ResumedNameOk(env, w, e);
        NamesWithRun(env, w, e.run, Resume(env, w, e).value);
      } else if e.newSession !in w.sessions && NewEntry(env, e).Some? {
        var u := NewEntry(env, e).value;
        NamesWithSession(env, w, e.newSession, u);
        NamesWithRun(env, World(w.known + {u}, w.sessions[e.newSession := NewSession(u)], w.runs), e.run,
                     Run(e.key, e.name, e.newSession, u.e2eKey, u.e2ePrefix));
      }
    }
  }

  lemma NamesSendOk(env: Env, w: World, e: Event)
    requires EnvOk(env) && Inv(env, w) && NamesOk(env, w) && e.Send?
    ensures NamesOk(env, SendStep(env, w, e)) && SendJoins(env, w, e)
  {
    if e.run in w.runs {
      var r := w.runs[e.run];
      var s := w.sessions[r.session];
      assert SessionOk(env, s);
      if s.entry.e2eKey != "" {
        SourceLength(env, s.entry.key, s.entry.e2eKey, s.entry.e2ePrefix, s.writer);
        HeaderSizes(env, s.entry.e2eKey, s.entry.e2ePrefix, s.writer);
        HeaderSizes(env, s.entry.e2eKey, s.entry.e2ePrefix, r.name);
        SourceLength(env, s.entry.key, s.entry.e2eKey, s.entry.e2ePrefix, r.name);
      }
    }
  }

  lemma NamesStepOk(env: Env, w: World, e: Event)
    requires EnvOk(env) && Inv(env, w) && NamesOk(env, w) && SameMeta(env, e)
    ensures NamesOk(env, Step(env, w, e)) && SendJoins(env, w, e)
  {
    match e
    case Start(_, _, _, _, _, _, _, _, _, _) => NamesStartOk(env, w, e);
    case Send(_, _, _, _, _) => NamesSendOk(env, w, e);
    case Unlinked(id, part, sidecar) => NamesUnlinkedOk(env, w, id, part, sidecar);
    case Die(run) => NamesDieOk(env, w, run);
  }

  lemma NamesUnlinkedOk(env: Env, w: World, id: nat, part: bool, sidecar: bool)
    requires NamesOk(env, w)
    ensures NamesOk(env, Step(env, w, Unlinked(id, part, sidecar)))
  {
    var w' := Step(env, w, Unlinked(id, part, sidecar));
    forall run <- w'.runs ensures RunNameOk(env, w', w'.runs[run]) {
      assert RunNameOk(env, w, w.runs[run]);
    }
  }

  lemma NamesDieOk(env: Env, w: World, run: nat)
    requires NamesOk(env, w)
    ensures NamesOk(env, Step(env, w, Die(run)))
  {
    var w' := Step(env, w, Die(run));
    WhatIsTakenAway(env, w, 0, false, false, run);
    forall other <- w'.runs ensures RunNameOk(env, w', w'.runs[other]) {
      assert RunNameOk(env, w, w.runs[other]);
    }
  }

  /** Where every encrypted upload is taken up under the recorded metadata bytes, every chunk joins. */
  lemma {:induction false} SameMetaJoins(env: Env, w: World, es: seq<Event>)
    requires EnvOk(env) && Inv(env, w) && NamesOk(env, w) && forall e <- es :: SameMeta(env, e)
    ensures Joined(env, w, es)
    decreases |es|
  {
    if es != [] {
      NamesStepOk(env, w, es[0]);
      StepKeeps(env, w, es[0]);
      SameMetaJoins(env, Step(env, w, es[0]), es[1..]);
    }
  }
}
