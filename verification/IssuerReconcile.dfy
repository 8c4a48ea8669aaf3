/**
 * HomeKitLock::controllerCallback: stored issuers follow the paired controllers. The comment
 * promises a sweep over a snapshot copy; the code sweeps the store's own list while erasing from it.
 */
module IssuerReconcile {
  import opened Bytes
  import opened CredentialCodec
  import opened CredentialStore
  import opened NvsCredentials

  /** A paired controller's long-term public key, and the hash that names its issuer. */
  datatype Pairings = Pairings(ltpks: seq<bytes>, idOf: bytes -> bytes)

  predicate KeysSized(p: Pairings) {
    forall k <- p.ltpks :: |k| >= 32
  }

  predicate Current(p: Pairings, id: bytes) {
    exists k <- p.ltpks :: p.idOf(k) == id
  }

  /** The first half: an issuer for every controller that has none. */
  function Enrolled(issuers: seq<Issuer>, p: Pairings, n: nat): seq<Issuer>
    requires KeysSized(p) && n <= |p.ltpks|
  {
    if n == 0 then issuers else AddIssuer(Enrolled(issuers, p, n - 1), p.idOf(p.ltpks[n - 1]), p.ltpks[n - 1])
  }

  /** The issuers that still have a controller. */
  function Survivors(issuers: seq<Issuer>, p: Pairings): seq<Issuer> {
    if issuers == [] then []
    else (if Current(p, issuers[0].id) then [issuers[0]] else []) + Survivors(issuers[1..], p)
  }

  /** The labels that go with the issuers of this list that have no controller. */
  function StaleLabels(issuers: seq<Issuer>, p: Pairings): set<string> {
    set i | 0 <= i < |issuers| && !Current(p, issuers[i].id) :: LabelKey(issuers[i].id)
  }

  /** The second half as promised: the stale issuers of the snapshot are removed one by one. */
  function Swept(s: Snapshot, copy: seq<Issuer>, p: Pairings): Snapshot
    decreases |copy|
  {
    if copy == [] then s
    else Swept(if Current(p, copy[0].id) then s else RemoveIssuer(s, copy[0].id), copy[1..], p)
  }

  function Reconciled(s: Snapshot, p: Pairings): Snapshot
    requires KeysSized(p)
  {
    var enrolled := s.(issuers := Enrolled(s.issuers, p, |p.ltpks|));
    Swept(enrolled, enrolled.issuers, p)
  }

  // ---- As promised ----

  lemma {:induction false} SurvivorsAppend(a: seq<Issuer>, i: Issuer, p: Pairings)
    ensures Survivors(a + [i], p) == Survivors(a, p) + if Current(p, i.id) then [i] else []
  {
    if a == [] {
      assert [i][1..] == [];
    } else {
      assert (a + [i])[1..] == a[1..] + [i];
      SurvivorsAppend(a[1..], i, p);
    }
  }

  lemma {:induction false} SurvivorsCurrent(issuers: seq<Issuer>, p: Pairings)
    ensures forall i <- Survivors(issuers, p) :: i in issuers && Current(p, i.id)
    ensures forall i <- issuers :: Current(p, i.id) ==> i in Survivors(issuers, p)
  {
    if issuers != [] {
      SurvivorsCurrent(issuers[1..], p);
      assert issuers == [issuers[0]] + issuers[1..];
    }
  }

  /** Removing a stale issuer behind survivors removes exactly it. */
  lemma RemoveFirstStale(s: Snapshot, kept: seq<Issuer>, rest: seq<Issuer>, p: Pairings)
    requires rest != [] && s.issuers == kept + rest && !Current(p, rest[0].id)
    requires forall i <- kept :: Current(p, i.id)
    ensures RemoveIssuer(s, rest[0].id)
            == s.(issuers := kept + rest[1..], labels := s.labels - {LabelKey(rest[0].id)})
  {
    assert s.issuers[|kept|] == rest[0];
    assert forall j :: 0 <= j < |kept| ==> s.issuers[j] == kept[j] && kept[j] in kept;
    assert IndexOf(s.issuers, rest[0].id) == |kept|;
    assert s.issuers[..|kept|] == kept && s.issuers[|kept| + 1..] == rest[1..];
  }

  lemma {:induction false} SweptFrom(s: Snapshot, kept: seq<Issuer>, rest: seq<Issuer>, p: Pairings)
    requires s.issuers == kept + rest && forall i <- kept :: Current(p, i.id)
    ensures Swept(s, rest, p) == s.(issuers := kept + Survivors(rest, p), labels := s.labels - StaleLabels(rest, p))
    decreases |rest|, 1
  {
    if rest == [] {
      assert kept + [] == kept;
      assert s.labels - StaleLabels(rest, p) == s.labels;
    } else {
      if Current(p, rest[0].id) {
        StaleLabelsCons(rest, p);
        assert rest == [rest[0]] + rest[1..];
        Regroup(kept, rest[0], rest[1..]);
        SweptFrom(s, kept + [rest[0]], rest[1..], p);
        Regroup(kept, rest[0], Survivors(rest[1..], p));
      } else {
        SweptStale(s, kept, rest, p);
      }
    }
  }

  lemma SweptStale(s: Snapshot, kept: seq<Issuer>, rest: seq<Issuer>, p: Pairings)
    requires rest != [] && !Current(p, rest[0].id)
    requires s.issuers == kept + rest && forall i <- kept :: Current(p, i.id)
    ensures Swept(s, rest, p) == s.(issuers := kept + Survivors(rest, p), labels := s.labels - StaleLabels(rest, p))
    decreases |rest|, 0
  {
    var tail, gone := rest[1..], {LabelKey(rest[0].id)};
    var after := s.(issuers := kept + tail, labels := s.labels - gone);
    assert Swept(s, rest, p) == Swept(after, tail, p) by {
      RemoveFirstStale(s, kept, rest, p);
    }
    assert StaleLabels(rest, p) == StaleLabels(tail, p) + gone by {
      StaleLabelsCons(rest, p);
    }
    assert Survivors(rest, p) == Survivors(tail, p);
    SweptFrom(after, kept, tail, p);
    MinusTwice(s.labels, gone, StaleLabels(tail, p));
  }

  lemma Regroup(a: seq<Issuer>, i: Issuer, b: seq<Issuer>)
    ensures (a + [i]) + b == a + ([i] + b)
  {
  }

  lemma MinusTwice(labels: map<string, string>, x: set<string>, y: set<string>)
    ensures labels - x - y == labels - (y + x)
  {
  }

  lemma StaleLabelsCons(rest: seq<Issuer>, p: Pairings)
    requires rest != []
    ensures StaleLabels(rest, p)
            == StaleLabels(rest[1..], p) + if Current(p, rest[0].id) then {} else {LabelKey(rest[0].id)}
  {
  }

  lemma AddFacts(issuers: seq<Issuer>, id: bytes, key: bytes)
    requires |key| >= 32
    ensures var after := AddIssuer(issuers, id, key);
            && issuers <= after && Has(after, id)
            && (forall other :: Has(issuers, other) ==> Has(after, other))
            && forall i :: |issuers| <= i < |after| ==> after[i].id == id
  {
    var after := AddIssuer(issuers, id, key);
    if !Has(issuers, id) {
      assert after[|issuers|].id == id;
    }
    forall other | Has(issuers, other)
      ensures Has(after, other)
    {
      assert after[IndexOf(issuers, other)].id == other;
    }
  }

  lemma {:induction false} EnrolledFacts(issuers: seq<Issuer>, p: Pairings, n: nat)
    requires KeysSized(p) && n <= |p.ltpks|
    ensures issuers <= Enrolled(issuers, p, n)
    ensures forall k :: 0 <= k < n ==> Has(Enrolled(issuers, p, n), p.idOf(p.ltpks[k]))
    ensures forall i :: |issuers| <= i < |Enrolled(issuers, p, n)| ==> Current(p, Enrolled(issuers, p, n)[i].id)
    decreases n
  {
    if n > 0 {
      EnrolledFacts(issuers, p, n - 1);
      EnrolledStep(issuers, Enrolled(issuers, p, n - 1), p, n);
    }
  }

  lemma EnrolledStep(issuers: seq<Issuer>, mid: seq<Issuer>, p: Pairings, n: nat)
    requires KeysSized(p) && 0 < n <= |p.ltpks| && issuers <= mid
    requires forall k :: 0 <= k < n - 1 ==> Has(mid, p.idOf(p.ltpks[k]))
    requires forall i :: |issuers| <= i < |mid| ==> Current(p, mid[i].id)
    ensures var after := AddIssuer(mid, p.idOf(p.ltpks[n - 1]), p.ltpks[n - 1]);
            && issuers <= after
            && (forall k :: 0 <= k < n ==> Has(after, p.idOf(p.ltpks[k])))
            && forall i :: |issuers| <= i < |after| ==> Current(p, after[i].id)
  {
    var key := p.ltpks[n - 1];
    var after := AddIssuer(mid, p.idOf(key), key);
    AddFacts(mid, p.idOf(key), key);
    assert Current(p, p.idOf(key));
    forall i | |issuers| <= i < |after|
      ensures Current(p, after[i].id)
    {
      assert i < |mid| ==> after[i] == mid[i];
    }
  }

  /** The callback's outcome in closed form. */
  lemma ReconciledIs(s: Snapshot, p: Pairings)
    requires KeysSized(p)
    ensures var all := Enrolled(s.issuers, p, |p.ltpks|);
            Reconciled(s, p) == s.(issuers := Survivors(all, p), labels := s.labels - StaleLabels(s.issuers, p))
  {
    var all := Enrolled(s.issuers, p, |p.ltpks|);
    EnrolledFacts(s.issuers, p, |p.ltpks|);
    SurvivorsOfPrefix(s.issuers, all, p);
    SweptWhole(s.(issuers := all), p);
  }

  lemma SweptWhole(s: Snapshot, p: Pairings)
    ensures Swept(s, s.issuers, p)
            == s.(issuers := Survivors(s.issuers, p), labels := s.labels - StaleLabels(s.issuers, p))
  {
    assert [] + s.issuers == s.issuers;
    SweptFrom(s, [], s.issuers, p);
    assert [] + Survivors(s.issuers, p) == Survivors(s.issuers, p);
  }

  lemma HasIffMember(issuers: seq<Issuer>, id: bytes)
    ensures Has(issuers, id) <==> exists i <- issuers :: i.id == id
  {
  }

  /** Exactly the current controllers' ids are left. */
  lemma ReconciledIds(s: Snapshot, p: Pairings, id: bytes)
    requires KeysSized(p)
    ensures Has(Reconciled(s, p).issuers, id) <==> Current(p, id)
  {
    var all := Enrolled(s.issuers, p, |p.ltpks|);
    ReconciledIs(s, p);
    EnrolledFacts(s.issuers, p, |p.ltpks|);
    SurvivorsCurrent(all, p);
    HasIffMember(Survivors(all, p), id);
    if Current(p, id) {
      var k :| k in p.ltpks && p.idOf(k) == id;
      var n :| 0 <= n < |p.ltpks| && p.ltpks[n] == k;
      assert all[IndexOf(all, id)] in all;
    }
  }

  /**
   * With a snapshot sweep: the issuers left are exactly those of the current controllers, every
   * surviving issuer keeps its keys, endpoints and place, removed issuers lose their labels and no
   * other label changes.
   */
  lemma Reconciles(s: Snapshot, p: Pairings)
    requires KeysSized(p)
    ensures var r := Reconciled(s, p);
            && (forall id :: Has(r.issuers, id) <==> Current(p, id))
            && Survivors(s.issuers, p) <= r.issuers
            && r.labels == s.labels - StaleLabels(s.issuers, p) && r.identity == s.identity
  {
    ReconciledIs(s, p);
    EnrolledFacts(s.issuers, p, |p.ltpks|);
    SurvivorsOfPrefix(s.issuers, Enrolled(s.issuers, p, |p.ltpks|), p);
    forall id
      ensures Has(Reconciled(s, p).issuers, id) <==> Current(p, id)
    {
      ReconciledIds(s, p, id);
    }
  }

  /** New issuers all have controllers, so they add neither stale labels nor gaps. */
  lemma {:induction false} SurvivorsOfPrefix(a: seq<Issuer>, b: seq<Issuer>, p: Pairings)
    requires a <= b && forall i :: |a| <= i < |b| ==> Current(p, b[i].id)
    ensures Survivors(a, p) <= Survivors(b, p) && StaleLabels(b, p) == StaleLabels(a, p)
    decreases |b|
  {
    if |a| < |b| {
      var n := |b| - 1;
      SurvivorsOfPrefix(a, b[..n], p);
      SurvivorsAppend(b[..n], b[n], p);
      assert b == b[..n] + [b[n]];
      assert StaleLabels(b, p) == StaleLabels(b[..n], p);
    } else {
      assert a == b;
    }
  }

  lemma {:induction false} AllSurvive(issuers: seq<Issuer>, p: Pairings)
    requires forall i <- issuers :: Current(p, i.id)
    ensures Survivors(issuers, p) == issuers && StaleLabels(issuers, p) == {}
  {
    if issuers != [] {
      AllSurvive(issuers[1..], p);
      assert issuers == [issuers[0]] + issuers[1..];
    }
  }

  lemma {:induction false} NothingToEnrol(issuers: seq<Issuer>, p: Pairings, n: nat)
    requires KeysSized(p) && n <= |p.ltpks|
    requires forall k <- p.ltpks :: Has(issuers, p.idOf(k))
    ensures Enrolled(issuers, p, n) == issuers
    decreases n
  {
    if n > 0 {
      NothingToEnrol(issuers, p, n - 1);
      assert p.ltpks[n - 1] in p.ltpks;
    }
  }

  /** A second call with the same controllers changes nothing. */
  lemma ReconcileIdempotent(s: Snapshot, p: Pairings)
    requires KeysSized(p)
    ensures Reconciled(Reconciled(s, p), p) == Reconciled(s, p)
  {
    var r := Reconciled(s, p);
    Reconciles(s, p);
    forall k | k in p.ltpks
      ensures Has(r.issuers, p.idOf(k))
    {
      assert Current(p, p.idOf(k));
    }
    NothingToEnrol(r.issuers, p, |p.ltpks|);
    forall i | i in r.issuers
      ensures Current(p, i.id)
    {
      HasIffMember(r.issuers, i.id);
    }
    AllSurvive(r.issuers, p);
    ReconciledIs(r, p);
    assert r.labels - {} == r.labels;
  }

  // ---- As written ----

  /**
   * The sweep over the live list: after an erase the next issuer slides into the position just
   * visited and is not looked at. Positions past the shrunken list hold moved-from issuers, whose
   * empty id matches nothing.
   */
  function SweptLive(rest: seq<Issuer>, p: Pairings): seq<Issuer>
    decreases |rest|
  {
    if rest == [] then []
    else if Current(p, rest[0].id) then [rest[0]] + SweptLive(rest[1..], p)
    else if |rest| == 1 then []
    else [rest[1]] + SweptLive(rest[2..], p)
  }

  /** The labels that go with the issuers it erases. */
  function GoneLive(rest: seq<Issuer>, p: Pairings): set<string>
    decreases |rest|
  {
    if rest == [] then {}
    else if Current(p, rest[0].id) then GoneLive(rest[1..], p)
    else {LabelKey(rest[0].id)} + if |rest| == 1 then {} else GoneLive(rest[2..], p)
  }

  function LiveSwept(s: Snapshot, p: Pairings): Snapshot {
    s.(issuers := SweptLive(s.issuers, p), labels := s.labels - GoneLive(s.issuers, p))
  }

  /** The callback's outcome as compiled. */
  function ReconciledAsCompiled(s: Snapshot, p: Pairings): Snapshot
    requires KeysSized(p)
  {
    LiveSwept(s.(issuers := Enrolled(s.issuers, p, |p.ltpks|)), p)
  }

  predicate StalePair(issuers: seq<Issuer>, p: Pairings, i: nat) {
    i + 1 < |issuers| && !Current(p, issuers[i].id) && !Current(p, issuers[i + 1].id)
  }

  /** No two stale issuers stand next to each other. */
  ghost predicate Spaced(issuers: seq<Issuer>, p: Pairings) {
    forall i: nat :: !StalePair(issuers, p, i)
  }

  /** The code meets its comment exactly when no two stale issuers stand next to each other. */
  lemma {:induction false} LiveSweepIff(issuers: seq<Issuer>, p: Pairings)
    ensures SweptLive(issuers, p) == Survivors(issuers, p) <==> Spaced(issuers, p)
    decreases |issuers|
  {
    if issuers == [] {
    } else if Current(p, issuers[0].id) {
      LiveSweepIff(issuers[1..], p);
      PairsShift(issuers, p, 1);
      SameTail(issuers[0], SweptLive(issuers[1..], p), Survivors(issuers[1..], p));
    } else if |issuers| == 1 {
      assert issuers[1..] == [];
    } else if !Current(p, issuers[1].id) {
      assert StalePair(issuers, p, 0);
      SurvivorsCurrent(issuers, p);
      assert SweptLive(issuers, p)[0] == issuers[1];
      assert issuers[1] in SweptLive(issuers, p);
    } else {
      LiveSweepIff(issuers[2..], p);
      assert issuers[1..][1..] == issuers[2..];
      PairsShift(issuers, p, 2);
      SameTail(issuers[1], SweptLive(issuers[2..], p), Survivors(issuers[2..], p));
    }
  }

  lemma {:induction false} GoneWhenSpaced(issuers: seq<Issuer>, p: Pairings)
    requires Spaced(issuers, p)
    ensures GoneLive(issuers, p) == StaleLabels(issuers, p)
    decreases |issuers|
  {
    if issuers != [] {
      StaleLabelsCons(issuers, p);
      if Current(p, issuers[0].id) {
        PairsShift(issuers, p, 1);
        GoneWhenSpaced(issuers[1..], p);
      } else if |issuers| > 1 {
        assert !StalePair(issuers, p, 0);
        PairsShift(issuers, p, 2);
        GoneWhenSpaced(issuers[2..], p);
        StaleLabelsCons(issuers[1..], p);
        assert issuers[1..][1..] == issuers[2..];
      }
    }
  }

  /**
   * The whole store: as compiled, the callback leaves what its comment promises exactly when no two
   * stale issuers stand next to each other in the enrolled list.
   */
  lemma CompiledIff(s: Snapshot, p: Pairings)
    requires KeysSized(p)
    ensures ReconciledAsCompiled(s, p) == Reconciled(s, p) <==> Spaced(Enrolled(s.issuers, p, |p.ltpks|), p)
  {
    var all := Enrolled(s.issuers, p, |p.ltpks|);
    SweptWhole(s.(issuers := all), p);
    LiveSweepIff(all, p);
    if Spaced(all, p) {
      GoneWhenSpaced(all, p);
    }
  }

  /** Two adjacent stale issuers: the promised sweep removes both, the live one only the first. */
  lemma AdjacentStaleSkipped()
    ensures var p := Pairings([], k => k);
            var a, b := Issuer([1], [], [], []), Issuer([2], [], [], []);
            SweptLive([a, b], p) == [b] && Survivors([a, b], p) == []
  {
    var p := Pairings([], k => k);
    var a, b := Issuer([1], [], [], []), Issuer([2], [], [], []);
    assert [a, b][1..] == [b] && [b][1..] == [] && [a, b][2..] == [];
    assert Survivors([b], p) == [];
  }

  lemma SameTail(i: Issuer, a: seq<Issuer>, b: seq<Issuer>)
    ensures [i] + a == [i] + b <==> a == b
  {
    assert ([i] + a)[1..] == a && ([i] + b)[1..] == b;
  }

  lemma PairsShift(issuers: seq<Issuer>, p: Pairings, n: nat)
    requires 0 < n <= |issuers| && (n == 1 || n == 2) && Current(p, issuers[n - 1].id)
    ensures Spaced(issuers, p) <==> Spaced(issuers[n..], p)
  {
    forall i: nat | StalePair(issuers[n..], p, i)
      ensures StalePair(issuers, p, i + n)
    {
      assert issuers[n..][i] == issuers[i + n] && issuers[n..][i + 1] == issuers[i + 1 + n];
    }
    forall i: nat | StalePair(issuers, p, i)
      ensures i >= n && StalePair(issuers[n..], p, i - n)
    {
      assert i != n - 1 && i + 1 != n - 1;
      assert issuers[n..][i - n] == issuers[i];
      assert issuers[n..][i - n + 1] == issuers[i + 1];
    }
  }

  // ---- The callback ----

  method ContainsId(ids: seq<bytes>, id: bytes) returns (found: bool)
    ensures found <==> id in ids
  {
    for i := 0 to |ids|
      invariant id !in ids[..i]
    {
      if ids[i] == id {
        return true;
      }
      assert ids[..i + 1] == ids[..i] + [ids[i]];
    }
    assert ids[..|ids|] == ids;
    return false;
  }

  /** Adds the missing issuers and collects the ids that are still paired. */
  method EnrolControllers(store: NvsCredentialStore, p: Pairings) returns (ids: seq<bytes>, changed: bool)
    requires KeysSized(p)
    modifies store
    ensures store.State() == old(store.State()).(issuers := Enrolled(old(store.issuers), p, |p.ltpks|))
    ensures forall id :: id in ids <==> Current(p, id)
    ensures changed <==> store.issuers != old(store.issuers)
    ensures store.stored == old(store.stored)
  {
    ids, changed := [], false;
    assert Enrolled(store.issuers, p, 0) == store.issuers;
    for n := 0 to |p.ltpks|
      invariant store.issuers == Enrolled(old(store.issuers), p, n)
      invariant store.identity == old(store.identity) && store.labels == old(store.labels)
      invariant Collected(ids, p, n)
      invariant |store.issuers| >= |old(store.issuers)| && (changed <==> |store.issuers| > |old(store.issuers)|)
      invariant !changed ==> store.issuers == old(store.issuers)
      invariant store.stored == old(store.stored)
    {
      EnrolledNext(old(store.issuers), p, n);
      var id := p.idOf(p.ltpks[n]);
      ids := ids + [id];
      var added := store.AddIssuerIfNotExists(id, p.ltpks[n]);
      changed := changed || added;
    }
    CollectedIds(ids, p);
  }

  lemma EnrolledNext(issuers: seq<Issuer>, p: Pairings, n: nat)
    requires KeysSized(p) && n < |p.ltpks|
    ensures |p.ltpks[n]| >= 32
    ensures Enrolled(issuers, p, n + 1) == AddIssuer(Enrolled(issuers, p, n), p.idOf(p.ltpks[n]), p.ltpks[n])
  {
  }

  /** The ids of the first `n` controllers, in order. */
  predicate Collected(ids: seq<bytes>, p: Pairings, n: nat) {
    |ids| == n <= |p.ltpks| && forall k :: 0 <= k < n ==> ids[k] == p.idOf(p.ltpks[k])
  }

  lemma CollectedIds(ids: seq<bytes>, p: Pairings)
    requires Collected(ids, p, |p.ltpks|)
    ensures forall id :: id in ids <==> Current(p, id)
  {
  }

  lemma SweptStep(s: Snapshot, copy: seq<Issuer>, i: nat, p: Pairings)
    requires i < |copy|
    ensures Swept(s, copy[i..], p)
            == Swept(if Current(p, copy[i].id) then s else RemoveIssuer(s, copy[i].id), copy[i + 1..], p)
  {
    assert copy[i..][1..] == copy[i + 1..];
  }

  /** The sweep over a snapshot copy. */
  method SweepCopy(store: NvsCredentialStore, ids: seq<bytes>, p: Pairings) returns (changed: bool)
    requires forall id :: id in ids <==> Current(p, id)
    modifies store
    ensures store.State() == Swept(old(store.State()), old(store.issuers), p)
    ensures changed <==> store.State() != old(store.State())
    ensures store.stored == old(store.stored)
  {
    changed := false;
    var copy := store.issuers;
    for i := 0 to |copy|
      invariant Swept(store.State(), copy[i..], p) == Swept(old(store.State()), copy, p)
      invariant |store.issuers| <= |copy| && (changed <==> |store.issuers| < |copy|)
      invariant !changed ==> store.State() == old(store.State())
      invariant store.stored == old(store.stored)
    {
      SweptStep(store.State(), copy, i, p);
      var removed := SweepOne(store, ids, p, copy[i].id);
      changed := changed || removed;
    }
  }

  method SweepOne(store: NvsCredentialStore, ids: seq<bytes>, p: Pairings, id: bytes) returns (removed: bool)
    requires forall other :: other in ids <==> Current(p, other)
    modifies store
    ensures store.State() == if Current(p, id) then old(store.State()) else RemoveIssuer(old(store.State()), id)
    ensures |store.issuers| == |old(store.issuers)| - if removed then 1 else 0
    ensures !removed ==> store.State() == old(store.State())
    ensures store.stored == old(store.stored)
  {
    removed := false;
    var paired := ContainsId(ids, id);
    if !paired {
      removed := store.RemoveIssuerIfExists(id);
    }
  }

  /** Where the live sweep of `start` is once it has visited `k` positions. */
  ghost predicate Sweeping(start: Snapshot, now: Snapshot, k: nat, p: Pairings) {
    UniqueIds(now.issuers) && Rest(now, k, p) == LiveSwept(start, p)
  }

  /** What is left of the live sweep from position `k` on. */
  function Rest(now: Snapshot, k: nat, p: Pairings): Snapshot {
    if k > |now.issuers| then now
    else now.(issuers := now.issuers[..k] + SweptLive(now.issuers[k..], p), labels := now.labels - GoneLive(now.issuers[k..], p))
  }

  lemma VisitPaired(now: Snapshot, k: nat, p: Pairings)
    requires k < |now.issuers| ==> Current(p, now.issuers[k].id)
    ensures Rest(now, k + 1, p) == Rest(now, k, p)
  {
    var l := now.issuers;
    if k < |l| {
      assert l[k..][1..] == l[k + 1..];
      assert l[..k + 1] == l[..k] + [l[k]];
    } else if k == |l| {
      assert l[..k] == l && l[k..] == [];
      assert now.labels - {} == now.labels;
    }
  }

  lemma StillUnique(now: seq<Issuer>, k: nat)
    requires UniqueIds(now) && k < |now|
    ensures UniqueIds(now[..k] + now[k + 1..])
  {
  }

  lemma UniqueIndex(now: seq<Issuer>, k: nat)
    requires UniqueIds(now) && k < |now|
    ensures IndexOf(now, now[k].id) == k
  {
  }

  lemma VisitStale(now: Snapshot, k: nat, p: Pairings)
    requires UniqueIds(now.issuers) && k < |now.issuers| && !Current(p, now.issuers[k].id)
    ensures var after := RemoveIssuer(now, now.issuers[k].id);
            UniqueIds(after.issuers) && Rest(after, k + 1, p) == Rest(now, k, p)
  {
    var l := now.issuers;
    StillUnique(l, k);
    UniqueIndex(l, k);
    ErasedTail(l, k, p);
    ErasedLabels(now.labels, l, k, p);
  }

  lemma ErasedTail(now: seq<Issuer>, k: nat, p: Pairings)
    requires k < |now| && !Current(p, now[k].id)
    ensures var after := now[..k] + now[k + 1..];
            now[..k] + SweptLive(now[k..], p)
            == if k + 1 <= |after| then after[..k + 1] + SweptLive(after[k + 1..], p) else after
  {
    var after, rest := now[..k] + now[k + 1..], now[k..];
    if |rest| > 1 {
      assert rest[1] == after[k] && rest[2..] == after[k + 1..];
      assert after[..k + 1] == now[..k] + [after[k]];
    } else {
      assert now[k + 1..] == [];
    }
  }

  lemma ErasedLabels(labels: map<string, string>, now: seq<Issuer>, k: nat, p: Pairings)
    requires k < |now| && !Current(p, now[k].id)
    ensures var after := now[..k] + now[k + 1..];
            labels - GoneLive(now[k..], p)
            == labels - {LabelKey(now[k].id)} - if k + 1 <= |after| then GoneLive(after[k + 1..], p) else {}
  {
    var after, rest := now[..k] + now[k + 1..], now[k..];
    if |rest| > 1 {
      assert rest[2..] == after[k + 1..];
      MinusTwice(labels, {LabelKey(now[k].id)}, GoneLive(rest[2..], p));
    }
  }

  /** One position of the live list. */
  method SweepPosition(store: NvsCredentialStore, ids: seq<bytes>, p: Pairings, k: nat, ghost start: Snapshot)
    returns (removed: bool)
    requires Sweeping(start, store.State(), k, p) && forall id :: id in ids <==> Current(p, id)
    modifies store
    ensures Sweeping(start, store.State(), k + 1, p) && store.stored == old(store.stored)
    ensures |store.issuers| == |old(store.issuers)| - if removed then 1 else 0
    ensures !removed ==> store.issuers == old(store.issuers)
  {
    removed := false;
    if k < |store.issuers| {
      var paired := ContainsId(ids, store.issuers[k].id);
      if !paired {
        VisitStale(store.State(), k, p);
        removed := store.RemoveIssuerIfExists(store.issuers[k].id);
        return;
      }
    }
    VisitPaired(store.State(), k, p);
  }

  /** The sweep as compiled, over positions of the list that is being erased from. */
  method SweepLive(store: NvsCredentialStore, ids: seq<bytes>, p: Pairings) returns (changed: bool)
    requires UniqueIds(store.issuers) && forall id :: id in ids <==> Current(p, id)
    modifies store
    ensures store.State() == LiveSwept(old(store.State()), p) && store.stored == old(store.stored)
    ensures changed <==> store.issuers != old(store.issuers)
  {
    changed := false;
    ghost var start := store.State();
    assert start.issuers[0..] == start.issuers;
    for k := 0 to |store.issuers|
      invariant |store.issuers| <= |start.issuers| && (changed <==> |store.issuers| < |start.issuers|)
      invariant !changed ==> store.issuers == start.issuers
      invariant Sweeping(start, store.State(), k, p) && store.stored == old(store.stored)
    {
      var removed := SweepPosition(store, ids, p, k, start);
      changed := changed || removed;
    }
    VisitPaired(store.State(), |start.issuers|, p);
  }

  /** A reconciliation that ends where it began added nothing on the way. */
  lemma NothingAdded(s: Snapshot, p: Pairings)
    requires KeysSized(p) && Reconciled(s, p).issuers == s.issuers
    ensures Enrolled(s.issuers, p, |p.ltpks|) == s.issuers
  {
    Reconciles(s, p);
    forall k | k in p.ltpks
      ensures Has(s.issuers, p.idOf(k))
    {
      assert Current(p, p.idOf(k));
    }
    NothingToEnrol(s.issuers, p, |p.ltpks|);
  }

  /**
   * The callback with the sweep its comment promises. Without an admin controller everything is
   * wiped; otherwise the store is written exactly when it changed. `walk` is the order in which
   * labels are packed, `nvsOk` whether NVS carries out the write or the erase.
   */
  method ControllerCallback(store: NvsCredentialStore, p: Pairings, hasAdmin: bool,
                            walk: map<string, string> -> seq<string>, nvsOk: bool)
    requires KeysSized(p) && forall m :: Walks(walk(m), m)
    modifies store
    ensures store.State() == if hasAdmin then Reconciled(old(store.State()), p) else FRESH
    ensures hasAdmin ==>
              store.stored == if store.State() != old(store.State()) && nvsOk then Some(PackedBy(walk, store.State()))
                              else old(store.stored)
    ensures !hasAdmin ==> store.stored == if nvsOk then None else old(store.stored)
  {
    if !hasAdmin {
      store.DeleteAllReaderData(nvsOk);
      return;
    }
    ghost var before := store.State();
    var ids, added := EnrolControllers(store, p);
    var removed := SweepCopy(store, ids, p);
    if store.State() == before {
      NothingAdded(before, p);
    }
    if added || removed {
      store.SaveStore(walk(store.labels), nvsOk);
    }
  }

  /** The callback as compiled: the same first half, then the live sweep. */
  method ControllerCallbackAsCompiled(store: NvsCredentialStore, p: Pairings, hasAdmin: bool,
                                      walk: map<string, string> -> seq<string>, nvsOk: bool)
    requires KeysSized(p) && UniqueIds(store.issuers) && forall m :: Walks(walk(m), m)
    modifies store
    ensures store.State() == if hasAdmin then ReconciledAsCompiled(old(store.State()), p) else FRESH
    ensures var enrolled := Enrolled(old(store.issuers), p, |p.ltpks|);
            hasAdmin ==>
              store.stored == if (enrolled != old(store.issuers) || store.issuers != enrolled) && nvsOk
                              then Some(PackedBy(walk, store.State()))
                              else old(store.stored)
    ensures !hasAdmin ==> store.stored == if nvsOk then None else old(store.stored)
  {
    if !hasAdmin {
      store.DeleteAllReaderData(nvsOk);
      return;
    }
    EnrolledUnique(store.issuers, p, |p.ltpks|);
    var ids, added := EnrolControllers(store, p);
    var removed := SweepLive(store, ids, p);
    if added || removed {
      store.SaveStore(walk(store.labels), nvsOk);
    }
  }

  lemma {:induction false} EnrolledUnique(issuers: seq<Issuer>, p: Pairings, n: nat)
    requires KeysSized(p) && n <= |p.ltpks| && UniqueIds(issuers)
    ensures UniqueIds(Enrolled(issuers, p, n))
    decreases n
  {
    if n > 0 {
      EnrolledUnique(issuers, p, n - 1);
      AddKeepsUnique(Enrolled(issuers, p, n - 1), p.idOf(p.ltpks[n - 1]), p.ltpks[n - 1]);
    }
  }
}
