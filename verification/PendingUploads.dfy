/** The interrupted uploads a client remembers between runs. */
module PendingUploads {
  import opened Basics

  const PENDING_TTL := 86400

  /** `session` stands for the session URL; an empty `e2eKey` means the upload is not encrypted. */
  datatype Entry = Entry(key: string, session: nat, name: string, length: nat, e2eKey: string, e2ePrefix: bytes, startedAt: int)

  function Find(us: seq<Entry>, key: string): Option<Entry> {
    if us == [] then None else if us[0].key == key then Some(us[0]) else Find(us[1..], key)
  }

  /** Replaces the first entry for the key, or appends. */
  function Put(us: seq<Entry>, u: Entry): seq<Entry> {
    if us == [] then [u] else if us[0].key == u.key then [u] + us[1..] else [us[0]] + Put(us[1..], u)
  }

  function Remove(us: seq<Entry>, key: string): seq<Entry> {
    if us == [] then [] else if us[0].key == key then us[1..] else [us[0]] + Remove(us[1..], key)
  }

  /** What Save keeps: entries the server has not expired yet. */
  function Unexpired(us: seq<Entry>, now: int): seq<Entry> {
    if us == [] then []
    else (if now - us[0].startedAt < PENDING_TTL then [us[0]] else []) + Unexpired(us[1..], now)
  }

  class Pending {
    var uploads: seq<Entry>

    constructor (uploads: seq<Entry>)
      ensures this.uploads == uploads
    {
      this.uploads := uploads;
    }

    method IndexOf(key: string) returns (i: nat)
      ensures i <= |uploads| && (forall j | 0 <= j < i :: uploads[j].key != key)
      ensures i < |uploads| ==> uploads[i].key == key
    {
      i := 0;
      while i < |uploads| && uploads[i].key != key
        invariant i <= |uploads| && forall j | 0 <= j < i :: uploads[j].key != key
      {
        i := i + 1;
      }
    }

    method PutEntry(u: Entry)
      modifies this
      ensures uploads == Put(old(uploads), u)
    {
      var i := IndexOf(u.key);
      PutAt(uploads, u, i);
      if i < |uploads| {
        uploads := uploads[i := u];
      } else {
        uploads := uploads + [u];
      }
    }

    method RemoveEntry(key: string)
      modifies this
      ensures uploads == Remove(old(uploads), key)
    {
      var i := IndexOf(key);
      RemoveAt(uploads, key, i);
      if i < |uploads| {
        uploads := uploads[..i] + uploads[i + 1..];
      }
    }

    /** Filters in place: a read index and the kept prefix. */
    method DropExpired(now: int)
      modifies this
      ensures uploads == Unexpired(old(uploads), now)
    {
      var kept, i := [], 0;
      assert uploads[0..] == uploads;
      while i < |uploads|
        invariant i <= |uploads| && uploads == old(uploads)
        invariant Unexpired(uploads, now) == kept + Unexpired(uploads[i..], now)
      {
        UnexpiredFrom(uploads, i, kept, now);
        if now - uploads[i].startedAt < PENDING_TTL {
          kept := kept + [uploads[i]];
        }
        i := i + 1;
      }
      uploads := kept;
    }
  }

  lemma {:induction false} PutAt(us: seq<Entry>, u: Entry, i: nat)
    requires i <= |us| && (forall j | 0 <= j < i :: us[j].key != u.key) && (i < |us| ==> us[i].key == u.key)
    ensures Put(us, u) == if i < |us| then us[i := u] else us + [u]
    decreases |us|
  {
    if us != [] && i > 0 {
      PutAt(us[1..], u, i - 1);
    }
  }

  lemma {:induction false} RemoveAt(us: seq<Entry>, key: string, i: nat)
    requires i <= |us| && (forall j | 0 <= j < i :: us[j].key != key) && (i < |us| ==> us[i].key == key)
    ensures Remove(us, key) == if i < |us| then us[..i] + us[i + 1..] else us
    decreases |us|
  {
    if us != [] && i > 0 {
      RemoveAt(us[1..], key, i - 1);
    }
  }

  lemma UnexpiredFrom(us: seq<Entry>, i: nat, kept: seq<Entry>, now: int)
    requires i < |us|
    ensures kept + Unexpired(us[i..], now)
         == (if now - us[i].startedAt < PENDING_TTL then kept + [us[i]] else kept) + Unexpired(us[i + 1..], now)
  {
    assert us[i..][1..] == us[i + 1..];
    assert kept + ([us[i]] + Unexpired(us[i + 1..], now)) == (kept + [us[i]]) + Unexpired(us[i + 1..], now);
  }

  /** No two entries share a key. */
  predicate UniqueKeys(us: seq<Entry>) {
    forall i, j | 0 <= i < j < |us| :: us[i].key != us[j].key
  }

  lemma {:induction false} FindIsAMember(us: seq<Entry>, key: string)
    ensures Find(us, key).Some? ==> Find(us, key).value in us && Find(us, key).value.key == key
    ensures Find(us, key).None? ==> forall u <- us :: u.key != key
    decreases |us|
  {
    if us != [] {
      FindIsAMember(us[1..], key);
    }
  }

  /** Put makes exactly the new entry found under its key, and nothing else changes. */
  lemma {:induction false} FindAfterPut(us: seq<Entry>, u: Entry, key: string)
    ensures Find(Put(us, u), key) == if key == u.key then Some(u) else Find(us, key)
    decreases |us|
  {
    if us != [] && us[0].key != u.key {
      FindAfterPut(us[1..], u, key);
    }
  }

  /** How many entries a key has; a file written by hand may repeat one. */
  function Occurrences(us: seq<Entry>, key: string): nat {
    if us == [] then 0 else (if us[0].key == key then 1 else 0) + Occurrences(us[1..], key)
  }

  lemma {:induction false} FoundIfOccurs(us: seq<Entry>, key: string)
    ensures Find(us, key).None? <==> Occurrences(us, key) == 0
    decreases |us|
  {
    if us != [] {
      FoundIfOccurs(us[1..], key);
    }
  }

  lemma {:induction false} UniqueOccursOnce(us: seq<Entry>, key: string)
    requires UniqueKeys(us)
    ensures Occurrences(us, key) <= 1
    decreases |us|
  {
    if us != [] {
      UniqueOccursOnce(us[1..], key);
      FindIsAMember(us[1..], us[0].key);
      FoundIfOccurs(us[1..], key);
    }
  }

  /** Remove touches no other key; its own key is then gone exactly if it was there at most once. */
  lemma {:induction false} FindAfterRemove(us: seq<Entry>, removed: string, key: string)
    ensures key != removed ==> Find(Remove(us, removed), key) == Find(us, key)
    ensures Find(Remove(us, removed), removed).None? <==> Occurrences(us, removed) <= 1
    ensures UniqueKeys(us) ==> Find(Remove(us, removed), removed).None?
    decreases |us|
  {
    if UniqueKeys(us) {
      UniqueOccursOnce(us, removed);
    }
    if us != [] {
      if us[0].key == removed {
        FoundIfOccurs(us[1..], removed);
      } else {
        FindAfterRemove(us[1..], removed, key);
      }
    }
  }

  /** No operation invents an entry. */
  lemma {:induction false} NothingInvented(us: seq<Entry>, u: Entry, key: string, now: int, e: Entry)
    ensures e in Put(us, u) ==> e == u || e in us
    ensures e in Remove(us, key) ==> e in us
    ensures e in Unexpired(us, now) ==> e in us && now - e.startedAt < PENDING_TTL
    decreases |us|
  {
    if us != [] {
      NothingInvented(us[1..], u, key, now, e);
    }
  }

  /** Saving keeps exactly the entries younger than a day. */
  lemma {:induction false} KeepsTheYoung(us: seq<Entry>, now: int, e: Entry)
    ensures e in Unexpired(us, now) <==> e in us && now - e.startedAt < 24 * 60 * 60
    decreases |us|
  {
    if us != [] {
      KeepsTheYoung(us[1..], now, e);
    }
  }

  /** And it keeps their order: what it keeps of two lists is what it keeps of each, one after the other. */
  lemma {:induction false} KeepsTheOrder(us: seq<Entry>, vs: seq<Entry>, now: int)
    ensures Unexpired(us + vs, now) == Unexpired(us, now) + Unexpired(vs, now)
    decreases |us|
  {
    if us == [] {
      assert us + vs == vs;
    } else {
      assert (us + vs)[0] == us[0] && (us + vs)[1..] == us[1..] + vs;
      KeepsTheOrder(us[1..], vs, now);
    }
  }

  lemma {:induction false} PutKeepsUnique(us: seq<Entry>, u: Entry)
    requires UniqueKeys(us)
    ensures UniqueKeys(Put(us, u))
    decreases |us|
  {
    if us != [] && us[0].key != u.key {
      PutKeepsUnique(us[1..], u);
      forall e <- Put(us[1..], u) ensures e.key != us[0].key {
        NothingInvented(us[1..], u, u.key, 0, e);
      }
    }
  }
}
