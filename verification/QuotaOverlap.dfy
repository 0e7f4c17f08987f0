/**
 The storage quota under overlapping uploads, for which the check and the
 addition to the counter are two steps.
 */
module QuotaOverlap {
  import opened Basics
  import opened Quota

  /** The counter, and the lengths of the uploads that have passed the check and are not added yet. */
  datatype Uploads = Uploads(used: int, pending: seq<nat>)

  datatype Event = Admit(n: nat) | Commit(i: nat) | GiveUp(i: nat) | Remove(n: nat)

  function Without(p: seq<nat>, i: nat): seq<nat>
    requires i < |p|
  {
    p[..i] + p[i + 1..]
  }

  function Step(limit: int, s: Uploads, e: Event): Uploads {
    match e
    case Admit(n) => if Fits(limit, s.used, n) then s.(pending := s.pending + [n]) else s
    case Commit(i) =>
      if i < |s.pending| then Uploads(Added(limit, s.used, s.pending[i]), Without(s.pending, i)) else s
    case GiveUp(i) => if i < |s.pending| then s.(pending := Without(s.pending, i)) else s
    case Remove(n) => s.(used := Subtracted(limit, s.used, n))
  }

  function Run(limit: int, s: Uploads, es: seq<Event>): Uploads
    decreases |es|
  {
    if es == [] then s else Run(limit, Step(limit, s, es[0]), es[1..])
  }

  /** An upload that fails after the check is on its way no more, and what is removed is taken off. */
  lemma GivenUpAndRemoved(limit: int, s: Uploads, i: nat, n: nat)
    requires i < |s.pending| && limit > 0 && s.used >= 0
    ensures Step(limit, s, GiveUp(i)) == s.(pending := Without(s.pending, i))
    ensures Step(limit, s, Remove(n)) == s.(used := if s.used >= n then s.used - n else 0)
    ensures Step(limit, s, Commit(i)) == Uploads(s.used + s.pending[i], Without(s.pending, i))
  {
  }

  /** At no moment are more than `k` uploads between the two steps, and none is longer than `m`. */
  predicate Overlap(limit: int, s: Uploads, es: seq<Event>, k: nat, m: nat)
    decreases |es|
  {
    && |s.pending| <= k
    && (es == [] || ((es[0].Admit? ==> es[0].n <= m) && Overlap(limit, Step(limit, s, es[0]), es[1..], k, m)))
  }

  function Total(p: seq<nat>): nat {
    if p == [] then 0 else p[0] + Total(p[1..])
  }

  lemma {:induction false} TotalAppend(p: seq<nat>, q: seq<nat>)
    ensures Total(p + q) == Total(p) + Total(q)
    decreases |p|
  {
    if p == [] {
      assert p + q == q;
    } else {
      assert (p + q)[1..] == p[1..] + q;
      TotalAppend(p[1..], q);
    }
  }

  lemma {:induction false} TotalWithout(p: seq<nat>, i: nat)
    requires i < |p|
    ensures Total(p) == p[i] + Total(Without(p, i))
    decreases |p|
  {
    if i == 0 {
      assert Without(p, i) == p[1..];
    } else {
      assert Without(p, i)[1..] == Without(p[1..], i - 1);
      TotalWithout(p[1..], i - 1);
    }
  }

  function Times(k: nat, m: nat): nat {
    if k == 0 then 0 else m + Times(k - 1, m)
  }

  lemma {:induction false} TimesIsProduct(k: nat, m: nat)
    ensures Times(k, m) == k * m
    decreases k
  {
    if k > 0 {
      TimesIsProduct(k - 1, m);
      assert k * m == (k - 1) * m + m;
    }
  }

  lemma {:induction false} TimesGrows(j: nat, k: nat, m: nat)
    requires j <= k
    ensures Times(j, m) <= Times(k, m)
    decreases k
  {
    if j < k {
      TimesGrows(j, k - 1, m);
    }
  }

  predicate AllWithin(p: seq<nat>, m: nat) {
    forall i | 0 <= i < |p| :: p[i] <= m
  }

  lemma {:induction false} TotalWithin(p: seq<nat>, m: nat)
    requires AllWithin(p, m)
    ensures Total(p) <= Times(|p|, m)
    decreases |p|
  {
    if p != [] {
      TotalWithin(p[1..], m);
    }
  }

  lemma WithoutWithin(p: seq<nat>, i: nat, m: nat)
    requires AllWithin(p, m)
    ensures i < |p| ==> AllWithin(Without(p, i), m) && Total(p) == p[i] + Total(Without(p, i))
  {
    if i < |p| {
      TotalWithout(p, i);
    }
  }

  /** What is counted and what is on its way together. */
  predicate Bounded(limit: int, s: Uploads, k: nat, m: nat)
    requires k > 0
  {
    s.used >= 0 && AllWithin(s.pending, m) && s.used + Total(s.pending) <= limit + Times(k - 1, m)
  }

  lemma StepBounded(limit: int, s: Uploads, e: Event, k: nat, m: nat)
    requires limit > 0 && k > 0 && Bounded(limit, s, k, m)
    requires (e.Admit? ==> e.n <= m) && |Step(limit, s, e).pending| <= k
    ensures Bounded(limit, Step(limit, s, e), k, m)
  {
    match e
    case Admit(n) =>
      if Fits(limit, s.used, n) {
        TotalAppend(s.pending, [n]);
        assert Total([n]) == n + Total([]);
        TotalWithin(s.pending, m);
        TimesGrows(|s.pending|, k - 1, m);
      }
    case Commit(i) => WithoutWithin(s.pending, i, m);
    case GiveUp(i) =>
      WithoutWithin(s.pending, i, m);
      if i < |s.pending| {
        GivenUpAndRemoved(limit, s, i, 0);
      }
    case Remove(n) =>
      if s.used >= n {
        WithLimit(limit, s.used - n, n);
      } else {
        WithLimit(limit, s.used, n);
      }
  }

  lemma {:induction false} RunBounded(limit: int, s: Uploads, es: seq<Event>, k: nat, m: nat)
    requires limit > 0 && k > 0 && Bounded(limit, s, k, m) && Overlap(limit, s, es, k, m)
    ensures Bounded(limit, Run(limit, s, es), k, m)
    decreases |es|
  {
    if es != [] {
      assert Overlap(limit, Step(limit, s, es[0]), es[1..], k, m);
      StepBounded(limit, s, es[0], k, m);
      RunBounded(limit, Step(limit, s, es[0]), es[1..], k, m);
    }
  }

  /**
   With at most `k` overlapping uploads of at most `m` bytes, the counter never
   passes the limit by more than (k - 1) * m; one at a time, not at all.
   */
  lemma OvershootIsBounded(limit: int, used: nat, es: seq<Event>, k: nat, m: nat)
    requires 0 < limit && used <= limit && k > 0 && Overlap(limit, Uploads(used, []), es, k, m)
    ensures 0 <= Run(limit, Uploads(used, []), es).used <= limit + (k - 1) * m
  {
    RunBounded(limit, Uploads(used, []), es, k, m);
    TimesIsProduct(k - 1, m);
  }

  // ----- and the bound is reached -----

  function Copies(k: nat, m: nat): seq<nat>
    ensures |Copies(k, m)| == k
  {
    if k == 0 then [] else [m] + Copies(k - 1, m)
  }

  function AdmitAll(k: nat, m: nat): seq<Event> {
    if k == 0 then [] else [Admit(m)] + AdmitAll(k - 1, m)
  }

  function CommitAll(k: nat): seq<Event> {
    if k == 0 then [] else [Commit(0)] + CommitAll(k - 1)
  }

  lemma {:induction false} CopiesAppend(j: nat, m: nat)
    ensures Copies(j, m) + [m] == Copies(j + 1, m)
    decreases j
  {
    if j > 0 {
      CopiesAppend(j - 1, m);
      assert Copies(j, m) + [m] == [m] + (Copies(j - 1, m) + [m]);
    }
  }

  lemma {:induction false} Committing(limit: int, used: nat, j: nat, k: nat, m: nat)
    requires limit > 0 && j <= k
    ensures Run(limit, Uploads(used, Copies(j, m)), CommitAll(j)).used == used + Times(j, m)
    ensures Overlap(limit, Uploads(used, Copies(j, m)), CommitAll(j), k, m)
    decreases j
  {
    if j > 0 {
      var s := Uploads(used, Copies(j, m));
      assert CommitAll(j)[1..] == CommitAll(j - 1);
      assert Without(Copies(j, m), 0) == Copies(j - 1, m);
      assert Step(limit, s, Commit(0)) == Uploads(used + m, Copies(j - 1, m));
      Committing(limit, used + m, j - 1, k, m);
    }
  }

  lemma {:induction false} Admitting(limit: int, used: nat, j: nat, k: nat, m: nat)
    requires limit > 0 && used + m <= limit && j <= k
    ensures var s, es := Uploads(used, Copies(k - j, m)), AdmitAll(j, m) + CommitAll(k);
      Run(limit, s, es).used == used + Times(k, m) && Overlap(limit, s, es, k, m)
    decreases j
  {
    var s, es := Uploads(used, Copies(k - j, m)), AdmitAll(j, m) + CommitAll(k);
    if j == 0 {
      assert es == CommitAll(k);
      Committing(limit, used, k, k, m);
    } else {
      assert es[0] == Admit(m) && es[1..] == AdmitAll(j - 1, m) + CommitAll(k);
      CopiesAppend(k - j, m);
      assert Step(limit, s, Admit(m)) == Uploads(used, Copies(k - (j - 1), m));
      Admitting(limit, used, j - 1, k, m);
    }
  }

  /** For every limit, overlap and length, uploads that are checked together reach exactly that excess. */
  lemma OvershootIsReached(limit: nat, k: nat, m: nat)
    requires 0 < m <= limit && k > 0
    ensures var s, es := Uploads(limit - m, []), AdmitAll(k, m) + CommitAll(k);
      Overlap(limit, s, es, k, m) && Run(limit, s, es).used == limit + (k - 1) * m
  {
    Admitting(limit, limit - m, k, k, m);
    TimesIsProduct(k, m);
    TimesIsProduct(k - 1, m);
  }
}
