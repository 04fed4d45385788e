/** What every step of the reassembler keeps, over every run. */
module ChunkInvariants {
  import opened Segments
  import opened ChunkProtocol

  /** Bookkeeping that holds of every buffer ever allocated. */
  ghost predicate GoodBuffer(b: Buffer) {
    && 0 < b.total == |b.data|
    && SortedDisjoint(b.segments) && Within(b.segments, b.total)
    && b.received == SumLengths(b.segments)
    && (forall k :: 0 <= k < b.total && !Covers(b.segments, k) ==> b.data[k] == 0)
  }

  /** A buffer still in the cache is unfinished. */
  ghost predicate Unfinished(b: Buffer) {
    GoodBuffer(b) && !b.dispatched && b.received < b.total
  }

  ghost predicate Inv(s: State, cfg: Config) {
    && (forall id :: id in s.cache ==>
          Unfinished(s.cache[id].buffer) && s.cache[id].buffer.total <= cfg.MaxBytes())
    && |s.cache| <= cfg.MaxTransfers()
    && |s.poisoned| <= cfg.MaxPoisoned()
    && s.cache.Keys !! s.poisoned.Keys
  }

  lemma FreshIsUnfinished(total: nat)
    requires total > 0
    ensures Unfinished(FreshBuffer(total))
  {
    assert forall k :: !Covers(FreshBuffer(total).segments, k);
  }

  /** One section under the mutex: what is stored, what is left alone. */
  lemma ReceiveKeeps(b: Buffer, f: Frame)
    requires GoodBuffer(b)
    ensures var (got, b') := Receive(b, f);
      && GoodBuffer(b') && b'.total == b.total
      && (got.Rejected? ==> b' == b)
      && (got.Stored? ==> forall k :: Covers(b'.segments, k) <==> Covers(b.segments, k) || f.Range().Has(k))
      && (got == Stored(true) ==> forall k :: 0 <= k < b.total ==> Covers(b'.segments, k))
      && (got == Stored(false) && !b.dispatched ==> b'.received < b'.total && !b'.dispatched)
  {
    var seg := f.Range();
    if f.offset + |f.data| <= |b.data| && |f.data| > 0 {
      var claim := Verdict(b.segments, seg);
      if claim == New {
        RecordNew(b.segments, seg, b.total);
        CompleteIffCovered(Record(b.segments, seg), b.total);
      } else if claim == Duplicate {
        CompleteIffCovered(b.segments, b.total);
        var j :| 0 <= j < |b.segments| && b.segments[j] == seg;
        assert forall k :: seg.Has(k) ==> b.segments[j].Has(k);
      }
    }
  }

  lemma SubmapSmaller<V>(m: map<nat, V>, n: map<nat, V>)
    requires m.Keys <= n.Keys
    ensures |m| <= |n|
  {
    SubsetSmaller(m.Keys, n.Keys);
    assert |m| == |m.Keys| && |n| == |n.Keys|;
  }

  lemma {:induction false} SubsetSmaller(a: set<nat>, b: set<nat>)
    requires a <= b
    ensures |a| <= |b|
  {
    if a != {} {
      var x :| x in a;
      SubsetSmaller(a - {x}, b - {x});
    }
  }

  lemma PruneKeeps(s: State, cfg: Config, now: int)
    requires Inv(s, cfg)
    ensures Inv(Prune(s, cfg, now), cfg)
  {
    var p := Prune(s, cfg, now);
    SubmapSmaller(p.cache, s.cache);
    SubmapSmaller(p.poisoned, s.poisoned);
  }

  lemma CheckKeeps(s: State, cfg: Config, id: nat, now: int)
    requires Inv(s, cfg)
    ensures var (bad, s1) := CheckPoisoned(s, cfg, id, now);
      Inv(s1, cfg) && (!bad ==> id !in s1.poisoned) && s1.cache == s.cache
  {
    SubmapSmaller(CheckPoisoned(s, cfg, id, now).1.poisoned, s.poisoned);
  }

  lemma AdmitKeeps(s: State, cfg: Config, id: nat, total: nat, now: int)
    requires Inv(s, cfg) && id !in s.poisoned
    ensures var (adm, s1) := Admit(s, cfg, id, total, now);
      Inv(s1, cfg) && id !in s1.poisoned && (adm.Admitted? ==> s1.cache[id].buffer.total == total)
  {
    if 0 < total <= cfg.MaxBytes() {
      PruneKeeps(s, cfg, now);
      var s0 := if id in s.cache || |s.cache| < cfg.MaxTransfers() then s else Prune(s, cfg, now);
      if id in s.cache && s.cache[id].buffer.total == total {
        StoreKeeps(s, cfg, id, Transfer(s.cache[id].buffer, now));
      } else if id in s0.cache || |s0.cache| < cfg.MaxTransfers() {
        InsertKeeps(s0, cfg, id, total, now);
      }
    }
  }

  lemma InsertKeeps(s: State, cfg: Config, id: nat, total: nat, now: int)
    requires Inv(s, cfg) && id !in s.poisoned && 0 < total <= cfg.MaxBytes()
    requires id in s.cache || |s.cache| < cfg.MaxTransfers()
    ensures Inv(s.(cache := s.cache[id := Transfer(FreshBuffer(total), now)]), cfg)
  {
    FreshIsUnfinished(total);
    if id in s.cache {
      StoreKeeps(s, cfg, id, Transfer(FreshBuffer(total), now));
    }
  }

  lemma DropKeeps(s: State, cfg: Config, id: nat)
    requires Inv(s, cfg)
    ensures Inv(s.(cache := s.cache - {id}), cfg)
  {
    SubmapSmaller(s.cache - {id}, s.cache);
  }

  lemma StoreKeeps(s: State, cfg: Config, id: nat, tr: Transfer)
    requires Inv(s, cfg) && id in s.cache
    requires Unfinished(tr.buffer) && tr.buffer.total <= cfg.MaxBytes()
    ensures Inv(s.(cache := s.cache[id := tr]), cfg)
  {
    var c := s.cache[id := tr];
    assert c.Keys == s.cache.Keys;
    assert |c| == |c.Keys| && |s.cache| == |s.cache.Keys|;
    assert forall i :: i in c ==> c[i] == if i == id then tr else s.cache[i];
  }

  /** A nonempty choice of entries has an oldest one. */
  lemma {:induction false} SomeOldest(p: map<nat, int>, ids: set<nat>) returns (oldest: nat)
    requires ids <= p.Keys && ids != {}
    ensures oldest in ids && forall id :: id in ids ==> p[oldest] <= p[id]
    decreases |ids|
  {
    oldest :| oldest in ids;
    if ids != {oldest} {
      assert ids - {oldest} != {};
      var next := SomeOldest(p, ids - {oldest});
      if p[next] < p[oldest] {
        oldest := next;
      }
    }
  }

  lemma PoisonBound(p: map<nat, int>, cap: nat, id: nat, now: int, victim: nat)
    requires 0 < cap && |p| <= cap && (|p| == cap ==> victim in p)
    ensures |(if |p| >= cap then p - {victim} else p)[id := now]| <= cap
  {
    if |p| >= cap {
      var q := p - {victim};
      assert q.Keys == p.Keys - {victim};
      assert |q| == |q.Keys| && |p| == |p.Keys|;
    }
  }

  lemma PoisonKeeps(s: State, cfg: Config, id: nat, now: int, victim: nat)
    requires Inv(s, cfg) && VictimOk(s, cfg, id, now, victim)
    ensures Inv(Poison(s, cfg, id, now, victim), cfg)
    ensures id in Poison(s, cfg, id, now, victim).poisoned && id !in Poison(s, cfg, id, now, victim).cache
  {
    DropKeeps(s, cfg, id);
    PruneKeeps(s.(cache := s.cache - {id}), cfg, now);
    var s1 := BeforePoison(s, cfg, id, now);
    assert Inv(s1, cfg) && id !in s1.cache;
    PoisonBound(s1.poisoned, cfg.MaxPoisoned(), id, now, victim);
  }

  lemma HandleChunkKeeps(s: State, cfg: Config, f: Frame, t: Clock, victim: nat)
    requires Inv(s, cfg) && Legal(s, cfg, f, t, victim)
    ensures Inv(HandleChunk(s, cfg, f, t, victim).1, cfg)
  {
    AdmittingKeeps(s, cfg, f, t);
    var (adm, s1) := Admitting(s, cfg, f, t);
    if adm.Admitted? {
      var b0 := s1.cache[f.id].buffer;
      ReceiveKeeps(b0, f);
      var (got, b) := Receive(b0, f);
      if got.Rejected? {
        PoisonKeeps(s1, cfg, f.id, t.reject, victim);
      } else if got.complete {
        DropKeeps(s1, cfg, f.id);
      } else {
        StoreKeeps(s1, cfg, f.id, s1.cache[f.id].(buffer := b));
      }
    }
  }

  lemma AdmittingKeeps(s: State, cfg: Config, f: Frame, t: Clock)
    requires Inv(s, cfg)
    ensures var (adm, s1) := Admitting(s, cfg, f, t);
      Inv(s1, cfg) && (adm.Admitted? ==> f.id in s1.cache && s1.cache[f.id].buffer.total == f.total)
  {
    CheckKeeps(s, cfg, f.id, t.check);
    var (bad, s0) := CheckPoisoned(s, cfg, f.id, t.check);
    if !bad {
      AdmitKeeps(s0, cfg, f.id, f.total, t.admit);
    }
  }

  lemma StepKeeps(s: State, cfg: Config, e: Event)
    requires Inv(s, cfg) && LegalEvent(s, cfg, e)
    ensures Inv(Step(s, cfg, e), cfg)
  {
    match e
    case Chunk(f, t, victim) => HandleChunkKeeps(s, cfg, f, t, victim);
    case Sweep(now) => PruneKeeps(s, cfg, now);
  }

  /** Every run keeps the admission and poison bounds. */
  lemma {:induction false} RunKeeps(s: State, cfg: Config, es: seq<Event>)
    requires Inv(s, cfg) && LegalRun(s, cfg, es)
    ensures Inv(Run(s, cfg, es), cfg)
    decreases |es|
  {
    if es != [] {
      StepKeeps(s, cfg, es[0]);
      RunKeeps(Step(s, cfg, es[0]), cfg, es[1..]);
    }
  }

  /** Every resident transfer has been touched within the TTL. */
  ghost predicate AllFresh(s: State, cfg: Config, now: int) {
    forall id :: id in s.cache ==> now - s.cache[id].lastAccess <= cfg.Ttl()
  }

  lemma {:induction false} SubsetStrict(a: set<nat>, b: set<nat>, x: nat)
    requires a <= b && x in b && x !in a
    ensures |a| < |b|
  {
    SubsetSmaller(a, b - {x});
    assert |b - {x}| == |b| - 1;
  }

  /** Pruning makes room exactly when something resident has gone stale. */
  lemma PruneMakesRoom(s: State, cfg: Config, now: int)
    ensures AllFresh(s, cfg, now) ==> Prune(s, cfg, now).cache == s.cache
    ensures !AllFresh(s, cfg, now) ==> |Prune(s, cfg, now).cache| < |s.cache|
  {
    var p := Prune(s, cfg, now);
    if !AllFresh(s, cfg, now) {
      var id :| id in s.cache && now - s.cache[id].lastAccess > cfg.Ttl();
      SubsetStrict(p.cache.Keys, s.cache.Keys, id);
      assert |p.cache| == |p.cache.Keys| && |s.cache| == |s.cache.Keys|;
    }
  }

  /** Admission, exactly: a new transfer is turned away for the count bound only
      when the cache is full of transfers that are all still fresh; a resident
      one never is. */
  lemma AdmissionExact(s: State, cfg: Config, id: nat, total: nat, now: int)
    requires Inv(s, cfg)
    ensures var adm := Admit(s, cfg, id, total, now).0;
      && (adm == Denied(TotalNonPositive) <==> total == 0)
      && (adm == Denied(TotalTooLarge) <==> total > cfg.MaxBytes())
      && (adm == Denied(TooManyTransfers) <==>
            0 < total <= cfg.MaxBytes() && id !in s.cache
            && |s.cache| == cfg.MaxTransfers() && AllFresh(s, cfg, now))
  {
    PruneMakesRoom(s, cfg, now);
  }

  /** Every poison entry is still inside its window. */
  ghost predicate AllRecent(s: State, cfg: Config, now: int) {
    forall q :: q in s.poisoned ==> now - s.poisoned[q] <= cfg.Ttl()
  }

  lemma PruneForgets(s: State, cfg: Config, now: int)
    ensures AllRecent(s, cfg, now) ==> Prune(s, cfg, now).poisoned == s.poisoned
    ensures !AllRecent(s, cfg, now) ==> |Prune(s, cfg, now).poisoned| < |s.poisoned|
  {
    var p := Prune(s, cfg, now);
    if !AllRecent(s, cfg, now) {
      var q :| q in s.poisoned && now - s.poisoned[q] > cfg.Ttl();
      SubsetStrict(p.poisoned.Keys, s.poisoned.Keys, q);
      assert |p.poisoned| == |p.poisoned.Keys| && |s.poisoned| == |s.poisoned.Keys|;
    }
  }

  /** Eviction, exactly: a poison entry gives way to a new violation only when the
      set is full of entries that are all still inside their window. */
  lemma EvictionExact(s: State, cfg: Config, id: nat, now: int)
    requires Inv(s, cfg)
    ensures Evicts(s, cfg, id, now) <==> |s.poisoned| == cfg.MaxPoisoned() && AllRecent(s, cfg, now)
  {
    var s0 := s.(cache := s.cache - {id});
    PruneForgets(s0, cfg, now);
    assert AllRecent(s0, cfg, now) <==> AllRecent(s, cfg, now);
  }

  /** A chunk is refused for poison exactly inside the window of a recorded
      violation, and such a refusal changes nothing. */
  lemma PoisonRefusal(s: State, cfg: Config, f: Frame, t: Clock, victim: nat)
    requires Inv(s, cfg)
    ensures var (out, s') := HandleChunk(s, cfg, f, t, victim);
      && (out == Refused(Poisoned) <==> f.id in s.poisoned && t.check - s.poisoned[f.id] <= cfg.Ttl())
      && (out == Refused(Poisoned) ==> s' == s)
  {
    var (bad, s0) := CheckPoisoned(s, cfg, f.id, t.check);
    assert bad <==> f.id in s.poisoned && t.check - s.poisoned[f.id] <= cfg.Ttl();
    var (adm, s1) := Admitting(s, cfg, f, t);
    assert adm == Denied(Poisoned) <==> bad;
    if adm.Admitted? {
      assert Receive(s1.cache[f.id].buffer, f).0 != Rejected(Poisoned);
    }
  }

  lemma AdmittingEffect(s: State, cfg: Config, f: Frame, t: Clock)
    requires Inv(s, cfg)
    ensures var (adm, s1) := Admitting(s, cfg, f, t);
      && s1.poisoned.Keys <= s.poisoned.Keys
      && (adm.Denied? ==> s1.cache.Keys <= s.cache.Keys && !adm.reason.Violation())
      && (adm.Admitted? ==> f.id !in s1.poisoned && s1.cache[f.id].lastAccess == t.admit)
  {
    CheckKeeps(s, cfg, f.id, t.check);
    var (bad, s0) := CheckPoisoned(s, cfg, f.id, t.check);
    if !bad {
      AdmitKeeps(s0, cfg, f.id, f.total, t.admit);
    }
  }

  /** Past admission: a rejection poisons the id, a dispatch frees it. */
  lemma ConcludeEffect(s: State, cfg: Config, f: Frame, t: Clock, victim: nat)
    requires f.id in s.cache && f.id !in s.poisoned
    ensures var (out, s') := Conclude(s, cfg, f, t, victim);
      && (out.Refused? ==>
            out.reason.Violation() && f.id !in s'.cache && f.id in s'.poisoned && s'.poisoned[f.id] == t.reject)
      && (out.Dispatched? ==> f.id !in s'.cache && f.id !in s'.poisoned)
  {
  }

  /** Framing faults, and nothing else, put an id in the poison set; a resource
      refusal opens no transfer and poisons no id. */
  lemma RefusalEffect(s: State, cfg: Config, f: Frame, t: Clock, victim: nat)
    requires Inv(s, cfg)
    ensures var (out, s') := HandleChunk(s, cfg, f, t, victim);
      && (out.Refused? && out.reason.Violation() ==>
            f.id !in s'.cache && f.id in s'.poisoned && s'.poisoned[f.id] == t.reject)
      && (out.Refused? && !out.reason.Violation() ==>
            s'.cache.Keys <= s.cache.Keys && s'.poisoned.Keys <= s.poisoned.Keys)
      && (out.Dispatched? ==> f.id !in s'.cache && f.id !in s'.poisoned)
  {
    AdmittingEffect(s, cfg, f, t);
    AdmittingKeeps(s, cfg, f, t);
    var (adm, s1) := Admitting(s, cfg, f, t);
    if adm.Admitted? {
      ConcludeEffect(s1, cfg, f, t, victim);
    }
  }

  ghost predicate EvictsEntry(s: State, cfg: Config, e: Event, id: nat) {
    && e.Chunk?
    && var (adm, s1) := Admitting(s, cfg, e.frame, e.clock);
    && adm.Admitted?
    && Receive(s1.cache[e.frame.id].buffer, e.frame).0.Rejected?
    && Evicts(s1, cfg, e.frame.id, e.clock.reject)
    && e.victim == id
  }

  /** Every clock reading of e falls inside the window opened at `at`. */
  ghost predicate InWindow(cfg: Config, e: Event, at: int) {
    match e
    case Chunk(_, t, _) => t.check - at <= cfg.Ttl() && t.admit - at <= cfg.Ttl() && t.reject - at <= cfg.Ttl()
    case Sweep(now) => now - at <= cfg.Ttl()
  }

  lemma PoisonStays(s: State, cfg: Config, e: Event, id: nat)
    requires Inv(s, cfg) && LegalEvent(s, cfg, e) && id in s.poisoned
    requires InWindow(cfg, e, s.poisoned[id]) && !EvictsEntry(s, cfg, e, id)
    ensures id in Step(s, cfg, e).poisoned && Step(s, cfg, e).poisoned[id] == s.poisoned[id]
    ensures e.Chunk? && e.frame.id == id ==>
      HandleChunk(s, cfg, e.frame, e.clock, e.victim) == (Refused(Poisoned), s)
  {
    if e.Chunk? {
      PoisonRefusal(s, cfg, e.frame, e.clock, e.victim);
      if e.frame.id != id {
        AdmittingKeepsPoison(s, cfg, e.frame, e.clock, id);
      }
    }
  }

  lemma AdmittingKeepsPoison(s: State, cfg: Config, f: Frame, t: Clock, id: nat)
    requires id in s.poisoned && f.id != id
    requires t.check - s.poisoned[id] <= cfg.Ttl() && t.admit - s.poisoned[id] <= cfg.Ttl()
    ensures var s1 := Admitting(s, cfg, f, t).1; id in s1.poisoned && s1.poisoned[id] == s.poisoned[id]
  {
  }

  /** The run stays inside the window and no step evicts id's record. */
  ghost predicate Undisturbed(s: State, cfg: Config, es: seq<Event>, id: nat, at: int)
    decreases |es|
  {
    es == [] ||
    (InWindow(cfg, es[0], at) && !EvictsEntry(s, cfg, es[0], id)
     && Undisturbed(Step(s, cfg, es[0]), cfg, es[1..], id, at))
  }

  /** Every chunk of the run that carries id is refused as poisoned. */
  ghost predicate AllRefused(s: State, cfg: Config, es: seq<Event>, id: nat)
    decreases |es|
  {
    es == [] ||
    ((es[0].Chunk? && es[0].frame.id == id ==>
        HandleChunk(s, cfg, es[0].frame, es[0].clock, es[0].victim).0 == Refused(Poisoned))
     && AllRefused(Step(s, cfg, es[0]), cfg, es[1..], id))
  }

  /** From a violation until its record expires or is evicted, every chunk on
      that id is refused and nothing is dispatched for it, whatever else runs. */
  lemma {:induction false} PoisonWindow(s: State, cfg: Config, es: seq<Event>, id: nat)
    requires Inv(s, cfg) && LegalRun(s, cfg, es) && id in s.poisoned
    requires Undisturbed(s, cfg, es, id, s.poisoned[id])
    ensures var s' := Run(s, cfg, es); id in s'.poisoned && s'.poisoned[id] == s.poisoned[id]
    ensures AllRefused(s, cfg, es, id)
    decreases |es|
  {
    if es != [] {
      StepKeeps(s, cfg, es[0]);
      PoisonStays(s, cfg, es[0], id);
      PoisonWindow(Step(s, cfg, es[0]), cfg, es[1..], id);
    }
  }
}
