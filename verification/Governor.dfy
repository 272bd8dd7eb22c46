// Sessions, the models they use, and the VRAM those models take.
module Governor {
  import opened Common
  import S = Sorting

  datatype Tier = Vram | Ram | CpuOnly
  datatype Class = Interactive | Batch | Cognitive

  datatype Entry = Entry(tier: Tier, vramEstimate: nat, active: nat)
  datatype Session = Session(id: nat, kind: Class, model: string, lastActive: int)
  datatype Telemetry = Telemetry(gapMs: real, promptLen: nat, processed: nat)

  // ----- what the registry counts -----

  /** VRAM a model takes while it is in use. */
  function Used(e: Entry): nat
  {
    if e.tier.Vram? && e.active > 0 then e.vramEstimate else 0
  }

  /** `total_vram_active`. */
  ghost function Total(entries: map<string, Entry>): nat
    decreases |entries|
  {
    if entries == map[] then 0
    else var k :| k in entries; Used(entries[k]) + Total(entries - {k})
  }

  /** The total does not depend on the order of the entries. */
  lemma {:induction false} TotalSplits(entries: map<string, Entry>, k: string)
    requires k in entries
    ensures Total(entries) == Used(entries[k]) + Total(entries - {k})
    decreases |entries|
  {
    var j :| j in entries && Total(entries) == Used(entries[j]) + Total(entries - {j});
    if j != k {
      TotalSplits(entries - {j}, k);
      TotalSplits(entries - {k}, j);
      assert entries - {j} - {k} == entries - {k} - {j};
    }
  }

  lemma TotalUpdated(entries: map<string, Entry>, k: string, e: Entry)
    ensures Total(entries[k := e]) == Total(entries) + Used(e) - if k in entries then Used(entries[k]) else 0
  {
    TotalSplits(entries[k := e], k);
    assert entries[k := e] - {k} == entries - {k};
    if k in entries {
      TotalSplits(entries, k);
    } else {
      assert entries - {k} == entries;
    }
  }

  /** What the total is: nothing for no models, and a model more adds its estimate if it is a VRAM one
      in use, and nothing otherwise. */
  lemma TotalIs(entries: map<string, Entry>, k: string, e: Entry)
    requires k !in entries
    ensures Total(map[]) == 0
    ensures Total(entries[k := e]) == Total(entries) + if e.tier == Vram && e.active > 0 then e.vramEstimate else 0
  {
    TotalUpdated(entries, k, e);
  }

  /** Live sessions of a model. */
  function Live(sessions: seq<Session>, name: string): nat
  {
    if sessions == [] then 0
    else Live(sessions[..|sessions| - 1], name) + if sessions[|sessions| - 1].model == name then 1 else 0
  }

  lemma {:induction false} LiveJoins(a: seq<Session>, b: seq<Session>, name: string)
    ensures Live(a + b, name) == Live(a, name) + Live(b, name)
  {
    if b == [] {
      assert a + b == a;
    } else {
      LiveJoins(a, b[..|b| - 1], name);
      assert (a + b)[..|a + b| - 1] == a + b[..|b| - 1];
    }
  }

  /** Every VRAM model is in use by exactly its live sessions; other models are never counted. */
  ghost predicate Conserved(entries: map<string, Entry>, sessions: seq<Session>)
  {
    forall name :: name in entries ==>
      entries[name].active == if entries[name].tier.Vram? then Live(sessions, name) else 0
  }

  function Acquire(entries: map<string, Entry>, name: string): map<string, Entry>
  {
    if name in entries then entries[name := entries[name].(active := entries[name].active + 1)] else entries
  }

  /** `release`, which stops at zero. */
  function Release(entries: map<string, Entry>, name: string): map<string, Entry>
  {
    if name in entries
    then entries[name := entries[name].(active := if entries[name].active == 0 then 0 else entries[name].active - 1)]
    else entries
  }

  /** The registry after a session of this model is registered: VRAM models are acquired. */
  function Registered(entries: map<string, Entry>, name: string): map<string, Entry>
  {
    if name in entries && entries[name].tier.Vram? then Acquire(entries, name) else entries
  }

  /** VRAM that a session of this model brings into use. */
  function Newly(entries: map<string, Entry>, name: string): nat
  {
    if name in entries && entries[name].tier.Vram? && entries[name].active == 0 then entries[name].vramEstimate else 0
  }

  /** The same models with the same tiers and estimates; only counts may differ. */
  ghost predicate SameModels(a: map<string, Entry>, b: map<string, Entry>)
  {
    && (forall name :: name in a <==> name in b)
    && (forall name :: name in a ==> a[name].tier == b[name].tier && a[name].vramEstimate == b[name].vramEstimate)
  }

  /** Removing a session and releasing its model keeps the count. */
  lemma ReleaseConserves(entries: map<string, Entry>, before: seq<Session>, s: Session, after: seq<Session>)
    requires Conserved(entries, before + [s] + after)
    ensures Conserved(Release(entries, s.model), before + after)
    ensures Total(Release(entries, s.model)) <= Total(entries)
  {
    forall name | name in entries
      ensures Live(before + [s] + after, name) == Live(before + after, name) + if s.model == name then 1 else 0
    {
      LiveJoins(before + [s], after, name);
      LiveJoins(before, [s], name);
      LiveJoins(before, after, name);
      assert Live([s], name) == Live([], name) + if s.model == name then 1 else 0;
    }
    if s.model in entries {
      TotalUpdated(entries, s.model, Release(entries, s.model)[s.model]);
    }
  }

  /** Registering a model keeps the count exactly when the model is not a VRAM one with live
      sessions: a new entry starts at zero, also when it replaces one in use. */
  lemma RegisterConserves(entries: map<string, Entry>, sessions: seq<Session>, name: string, tier: Tier, estimate: nat)
    requires Conserved(entries, sessions)
    ensures Conserved(entries[name := Entry(tier, estimate, 0)], sessions) <==>
        !(tier.Vram? && Live(sessions, name) > 0)
    ensures Total(entries[name := Entry(tier, estimate, 0)]) <= Total(entries)
  {
    TotalUpdated(entries, name, Entry(tier, estimate, 0));
    var now := entries[name := Entry(tier, estimate, 0)];
    assert name in now && now[name].active == 0;
  }

  // ----- admission -----

  const MIN_SAFE_HEADROOM: real := 0.15

  /** `classify_workload`: interactive while fewer than 5 tokens are processed, and later when they come
      at intervals from 50 up to 1000 milliseconds for a prompt of fewer than 512. */
  function Classify(t: Telemetry): (c: Class)
    ensures c == Interactive || c == Batch
    ensures c == Interactive <==> t.processed < 5 || (50.0 <= t.gapMs < 1000.0 && t.promptLen < 512)
  {
    if t.processed < 5 then Interactive
    else if t.gapMs < 50.0 then Batch
    else if t.gapMs < 1000.0 && t.promptLen < 512 then Interactive
    else Batch
  }

  /** Free VRAM less the share of the budget that is held back. */
  function Usable(capacity: nat, active: nat, budget: real): int
    requires budget >= MIN_SAFE_HEADROOM
  {
    var available := if capacity > active then capacity - active else 0;
    (available as real * ((budget - MIN_SAFE_HEADROOM) / budget)).Floor
  }

  /** `can_admit`. */
  predicate CanAdmit(size: nat, kind: Class, capacity: nat, active: nat, budget: real)
  {
    if kind.Cognitive? then size < 500_000_000
    else if budget < MIN_SAFE_HEADROOM then false
    else if kind.Batch? then size <= Usable(capacity, active, budget) / 2
    else size <= Usable(capacity, active, budget)
  }

  lemma UsableBound(capacity: nat, active: nat, budget: real)
    requires budget >= MIN_SAFE_HEADROOM
    ensures 0 <= Usable(capacity, active, budget)
    ensures active <= capacity ==> Usable(capacity, active, budget) <= capacity - active
    ensures active > capacity ==> Usable(capacity, active, budget) == 0
  {
    var f := (budget - MIN_SAFE_HEADROOM) / budget;
    FractionBounds(budget - MIN_SAFE_HEADROOM, budget);
    var available := (if capacity > active then capacity - active else 0) as real;
    ShareBounds(available, f);
  }

  lemma FractionBounds(a: real, b: real)
    requires 0.0 <= a <= b && b > 0.0
    ensures 0.0 <= a / b <= 1.0
  {
  }

  lemma ShareBounds(x: real, f: real)
    requires x >= 0.0 && 0.0 <= f <= 1.0
    ensures 0.0 <= x * f <= x
  {
    assert x * (1.0 - f) >= 0.0;
  }

  /** What is admitted fits beside what is in use. */
  lemma AdmittedFits(size: nat, kind: Class, capacity: nat, active: nat, budget: real)
    requires kind != Cognitive && CanAdmit(size, kind, capacity, active, budget) && active <= capacity
    ensures active + size <= capacity
  {
    UsableBound(capacity, active, budget);
  }

  /** The held-back share of the budget stays free: what is admitted takes at most the rest of
      the free VRAM's share. */
  lemma HeadroomStaysFree(size: nat, kind: Class, capacity: nat, active: nat, budget: real)
    requires kind != Cognitive && CanAdmit(size, kind, capacity, active, budget) && active <= capacity
    ensures size as real * budget <= (capacity - active) as real * (budget - MIN_SAFE_HEADROOM)
  {
    var f := (budget - MIN_SAFE_HEADROOM) / budget;
    var available := (capacity - active) as real;
    UsableBound(capacity, active, budget);
    assert size as real <= available * f;
    ProductMonotone(size as real, available * f, budget);
    assert f * budget == budget - MIN_SAFE_HEADROOM;
    assert available * f * budget == available * (f * budget);
  }

  lemma FloorExact(n: int, x: real)
    ensures n <= x.Floor <==> n as real <= x
  {
  }

  lemma HalfExact(n: int, m: int)
    ensures n <= m / 2 <==> 2 * n <= m
  {
  }

  /** A number is within a share of another exactly when it is so multiplied out. */
  lemma ShareExact(n: real, x: real, a: real, b: real)
    requires b > 0.0
    ensures n <= x * (a / b) <==> n * b <= x * a
  {
    var f := a / b;
    assert f * b == a;
    assert x * f * b == x * (f * b);
    if n <= x * f {
      ProductMonotone(n, x * f, b);
    } else {
      assert (n - x * f) * b > 0.0;
    }
  }

  lemma UsableExact(n: nat, capacity: nat, active: nat, budget: real)
    requires budget >= MIN_SAFE_HEADROOM
    ensures n <= Usable(capacity, active, budget) <==>
        n as real * budget <= Max(capacity - active, 0) as real * (budget - MIN_SAFE_HEADROOM)
  {
    var available := Max(capacity - active, 0) as real;
    FloorExact(n, available * ((budget - MIN_SAFE_HEADROOM) / budget));
    ShareExact(n as real, available, budget - MIN_SAFE_HEADROOM, budget);
  }

  /** What is admitted, exactly: an interactive request whose size is within the free VRAM's share of
      the budget beyond the safe headroom, a batch one of at most half of that, and nothing with
      a smaller budget; a cognitive one by its size alone. */
  lemma AdmissionExact(size: nat, kind: Class, capacity: nat, active: nat, budget: real)
    ensures
      var available := Max(capacity - active, 0) as real;
      CanAdmit(size, kind, capacity, active, budget) <==>
        match kind
        case Cognitive => size < 500_000_000
        case Batch => budget >= 0.15 && (2 * size) as real * budget <= available * (budget - 0.15)
        case Interactive => budget >= 0.15 && size as real * budget <= available * (budget - 0.15)
  {
    if budget >= MIN_SAFE_HEADROOM && !kind.Cognitive? {
      UsableExact(if kind.Batch? then 2 * size else size, capacity, active, budget);
      HalfExact(size, Usable(capacity, active, budget));
      hide Usable, Max;
    }
  }

  lemma ProductMonotone(a: real, b: real, c: real)
    requires a <= b && c >= 0.0
    ensures a * c <= b * c
  {
    assert (b - a) * c >= 0.0;
  }

  /** The share of the free VRAM that may be used grows with the budget. */
  lemma FractionGrows(a: real, b: real)
    requires MIN_SAFE_HEADROOM <= a <= b
    ensures (a - MIN_SAFE_HEADROOM) / a <= (b - MIN_SAFE_HEADROOM) / b
  {
    var f := (a - MIN_SAFE_HEADROOM) / a;
    FractionBounds(a - MIN_SAFE_HEADROOM, a);
    assert f * a == a - MIN_SAFE_HEADROOM;
    ProductMonotone(f, 1.0, b - a);
    assert f * b == f * a + f * (b - a);
    QuotientAbove(f, b - MIN_SAFE_HEADROOM, b);
  }

  lemma QuotientAbove(x: real, y: real, c: real)
    requires c > 0.0 && x * c <= y
    ensures x <= y / c
  {
    var q := y / c;
    assert q * c == y;
    if x > q {
      assert (x - q) * c > 0.0;
    }
  }

  lemma FloorMonotone(x: real, y: real)
    requires x <= y
    ensures x.Floor <= y.Floor
  {
  }

  lemma UsableMonotone(capacity: nat, active: nat, budget: real, active': nat, budget': real)
    requires active' <= active && MIN_SAFE_HEADROOM <= budget <= budget'
    ensures Usable(capacity, active, budget) <= Usable(capacity, active', budget')
  {
    var x, y := (if capacity > active then capacity - active else 0) as real,
        (if capacity > active' then capacity - active' else 0) as real;
    var f, g := (budget - MIN_SAFE_HEADROOM) / budget, (budget' - MIN_SAFE_HEADROOM) / budget';
    assert x * f <= y * g by {
      FractionGrows(budget, budget');
      FractionBounds(budget - MIN_SAFE_HEADROOM, budget);
      ProductMonotone(x, y, f);
      ProductMonotone(f, g, y);
    }
    FloorMonotone(x * f, y * g);
  }

  /** More budget, less VRAM in use and a smaller model never turn an admission into a refusal. */
  lemma AdmissionMonotone(size: nat, kind: Class, capacity: nat, active: nat, budget: real, size': nat, active': nat,
                          budget': real)
    requires CanAdmit(size, kind, capacity, active, budget) && size' <= size && active' <= active && budget <= budget'
    ensures CanAdmit(size', kind, capacity, active', budget')
  {
    if !kind.Cognitive? {
      UsableMonotone(capacity, active, budget, active', budget');
    }
  }

  // ----- the governor -----

  class ResourceGovernor {
    var entries: map<string, Entry>
    var sessions: seq<Session>
    var nextSessionId: nat
    var budget: real
    const vramCapacity: nat

    ghost predicate Valid()
      reads this
    {
      && Conserved(entries, sessions)
      && (forall i, j :: 0 <= i < j < |sessions| ==> sessions[i].id < sessions[j].id)
      && (forall i :: 0 <= i < |sessions| ==> sessions[i].id < nextSessionId && sessions[i].kind != Cognitive)
    }

    constructor (capacity: nat)
      ensures Valid() && sessions == [] && entries == map[] && vramCapacity == capacity && Total(entries) == 0
    {
      entries, sessions, nextSessionId, budget, vramCapacity := map[], [], 1, 1.0, capacity;
    }

    /** `total_vram_active`, entry by entry. */
    method TotalVramActive() returns (total: nat)
      ensures total == Total(entries)
    {
      total := 0;
      var rest := entries;
      while rest != map[]
        invariant rest.Keys <= entries.Keys && total + Total(rest) == Total(entries)
        decreases |rest|
      {
        var k :| k in rest;
        TotalSplits(rest, k);
        total := total + Used(rest[k]);
        rest := rest - {k};
      }
    }

    /** `register`: a new entry starts with no sessions, also when it replaces one in use; the
        invariant holds on exactly when no VRAM model is replaced while in use. */
    method RegisterModel(name: string, tier: Tier, estimate: nat)
      requires Valid()
      modifies this`entries
      ensures entries == old(entries)[name := Entry(tier, estimate, 0)] && Total(entries) <= old(Total(entries))
      ensures Valid() <==> !(tier.Vram? && Live(sessions, name) > 0)
    {
      RegisterConserves(entries, sessions, name, tier, estimate);
      entries := entries[name := Entry(tier, estimate, 0)];
    }

    /** `register_session`: admitted or refused; and if callers state sizes no smaller than the
        registry's estimates, the VRAM in use never exceeds the capacity. */
    method RegisterSession(model: string, size: nat, t: Telemetry, now: int) returns (id: Option<nat>)
      requires Valid()
      modifies this`entries, this`sessions, this`nextSessionId
      ensures Valid()
      ensures id.Some? <==> CanAdmit(size, Classify(t), vramCapacity, old(Total(entries)), budget)
      ensures id.None? ==> sessions == old(sessions) && entries == old(entries)
      ensures SameModels(old(entries), entries)
      ensures id.Some? ==> sessions == old(sessions) + [Session(id.value, Classify(t), model, now)]
      ensures id.Some? ==> forall i :: 0 <= i < |old(sessions)| ==> old(sessions)[i].id != id.value
      ensures id.Some? ==> entries == Registered(old(entries), model)
      ensures id.Some? ==> Total(entries) == old(Total(entries)) + Newly(old(entries), model)
      ensures old(Total(entries)) <= vramCapacity && size >= Newly(old(entries), model) ==>
          Total(entries) <= vramCapacity
    {
      var kind := Classify(t);
      var active := TotalVramActive();
      if !CanAdmit(size, kind, vramCapacity, active, budget) {
        return None;
      }
      id := Some(nextSessionId);
      nextSessionId := nextSessionId + 1;
      sessions := sessions + [Session(id.value, kind, model, now)];
      SessionAdded(old(entries), old(sessions), sessions[|sessions| - 1]);
      CapacityExact(old(entries), old(sessions), sessions[|sessions| - 1], size, vramCapacity, budget);
      if model in entries && entries[model].tier.Vram? {
        entries := Acquire(entries, model);
      }
    }

    /** `unregister_session`: that session goes, its model is released, nothing else changes. */
    method UnregisterSession(id: nat)
      requires Valid()
      modifies this`entries, this`sessions
      ensures Valid() && Total(entries) <= old(Total(entries)) && SameModels(old(entries), entries)
      ensures forall s :: s in sessions <==> s in old(sessions) && s.id != id
    {
      var pos := PositionOf(id);
      if pos < |sessions| {
        var s, rest := sessions[pos], sessions[..pos] + sessions[pos + 1..];
        assert Conserved(Release(entries, s.model), rest) && Total(Release(entries, s.model)) <= Total(entries) by {
          assert sessions == sessions[..pos] + [s] + sessions[pos + 1..];
          ReleaseConserves(entries, sessions[..pos], s, sessions[pos + 1..]);
        }
        OneGone(sessions, pos);
        sessions, entries := rest, Release(entries, s.model);
      }
    }

    method PositionOf(id: nat) returns (pos: nat)
      ensures pos <= |sessions| && (pos < |sessions| ==> sessions[pos].id == id)
      ensures forall i :: 0 <= i < pos ==> sessions[i].id != id
    {
      pos := 0;
      while pos < |sessions| && sessions[pos].id != id
        invariant pos <= |sessions| && forall i :: 0 <= i < pos ==> sessions[i].id != id
      {
        pos := pos + 1;
      }
    }

    /** One session: kept, or its model released. */
    method EvictIfStale(kept: seq<Session>, i: nat, now: int) returns (more: seq<Session>)
      requires i < |sessions| && Conserved(entries, kept + sessions[i..]) && KeptOf(kept, sessions, i, now)
      requires forall a, b :: 0 <= a < b < |sessions| ==> sessions[a].id < sessions[b].id
      modifies this`entries
      ensures Conserved(entries, more + sessions[i + 1..]) && KeptOf(more, sessions, i + 1, now)
      ensures Total(entries) <= old(Total(entries)) && SameModels(old(entries), entries)
    {
      var s := sessions[i];
      KeptNext(kept, sessions, i, now);
      NextApart(kept, sessions, i);
      if now - s.lastActive > 30_000 {
        ReleaseConserves(entries, kept, s, sessions[i + 1..]);
        entries := Release(entries, s.model);
        more := kept;
      } else {
        more := kept + [s];
      }
    }

    /** `evict_stale_sessions`: every session idle for more than 30 seconds goes. */
    method EvictStaleSessions(now: int)
      requires Valid()
      modifies this`entries, this`sessions
      ensures Valid() && Total(entries) <= old(Total(entries)) && SameModels(old(entries), entries)
      ensures forall s :: s in sessions <==> s in old(sessions) && now - s.lastActive <= 30_000
    {
      hide Total, Live;
      var kept: seq<Session> := [];
      assert kept + sessions[0..] == sessions;
      for i := 0 to |sessions|
        invariant sessions == old(sessions) && Total(entries) <= old(Total(entries)) &&
            SameModels(old(entries), entries)
        invariant Conserved(entries, kept + sessions[i..]) && KeptOf(kept, sessions, i, now)
      {
        kept := EvictIfStale(kept, i, now);
      }
      assert kept + sessions[|sessions|..] == kept;
      KeptAll(kept, sessions, now);
      sessions := kept;
    }
  }

  /** Of the first i sessions, those not idle for more than 30 seconds, in order. */
  ghost predicate KeptOf(kept: seq<Session>, sessions: seq<Session>, i: nat, now: int)
    requires i <= |sessions|
  {
    && (forall s :: s in kept <==> s in sessions[..i] && now - s.lastActive <= 30_000)
    && (forall a, b :: 0 <= a < b < |kept| ==> kept[a].id < kept[b].id)
    && (forall s :: s in kept ==> s in sessions)
  }

  lemma KeptAll(kept: seq<Session>, sessions: seq<Session>, now: int)
    requires KeptOf(kept, sessions, |sessions|, now)
    ensures forall s :: s in kept <==> s in sessions && now - s.lastActive <= 30_000
    ensures forall i :: 0 <= i < |kept| ==> kept[i] in sessions
  {
    assert sessions[..|sessions|] == sessions;
  }

  lemma OneGone(sessions: seq<Session>, pos: nat)
    requires pos < |sessions|
    requires forall a, b :: 0 <= a < b < |sessions| ==> sessions[a].id < sessions[b].id
    ensures
      var rest := sessions[..pos] + sessions[pos + 1..];
      && (forall s :: s in rest <==> s in sessions && s.id != sessions[pos].id)
      && (forall a, b :: 0 <= a < b < |rest| ==> rest[a].id < rest[b].id)
  {
    var rest := sessions[..pos] + sessions[pos + 1..];
    assert forall a :: 0 <= a < |rest| ==> rest[a] == if a < pos then sessions[a] else sessions[a + 1];
    forall s | s in sessions && s.id != sessions[pos].id
      ensures s in rest
    {
      var a :| 0 <= a < |sessions| && sessions[a] == s;
      assert s == if a < pos then rest[a] else rest[a - 1];
    }
  }

  lemma NextApart(kept: seq<Session>, sessions: seq<Session>, i: nat)
    requires i < |sessions|
    ensures kept + sessions[i..] == kept + [sessions[i]] + sessions[i + 1..]
  {
  }

  lemma KeptNext(kept: seq<Session>, sessions: seq<Session>, i: nat, now: int)
    requires i < |sessions| && KeptOf(kept, sessions, i, now)
    requires forall a, b :: 0 <= a < b < |sessions| ==> sessions[a].id < sessions[b].id
    ensures KeptOf(if now - sessions[i].lastActive > 30_000 then kept else kept + [sessions[i]], sessions, i + 1, now)
  {
    assert sessions[..i + 1] == sessions[..i] + [sessions[i]];
    forall a | 0 <= a < |kept|
      ensures kept[a].id < sessions[i].id
    {
      assert kept[a] in sessions[..i];
      var j :| 0 <= j < i && sessions[j] == kept[a];
    }
  }

  /** A session more keeps the count, and brings exactly that VRAM into use. */
  lemma SessionAdded(entries: map<string, Entry>, sessions: seq<Session>, s: Session)
    requires Conserved(entries, sessions)
    ensures Conserved(Registered(entries, s.model), sessions + [s])
    ensures Total(Registered(entries, s.model)) == Total(entries) + Newly(entries, s.model)
  {
    assert (sessions + [s])[..|sessions|] == sessions;
    if s.model in entries {
      TotalUpdated(entries, s.model, Acquire(entries, s.model)[s.model]);
    }
  }

  /** An admitted session leaves the VRAM in use within the capacity exactly when what it brings
      into use fits beside what was; a stated size no smaller than that is enough. */
  lemma CapacityExact(entries: map<string, Entry>, sessions: seq<Session>, s: Session, size: nat, capacity: nat,
                      budget: real)
    requires Conserved(entries, sessions)
    requires s.kind != Cognitive && CanAdmit(size, s.kind, capacity, Total(entries), budget)
    ensures Total(Registered(entries, s.model)) <= capacity <==> Total(entries) + Newly(entries, s.model) <= capacity
    ensures Total(entries) <= capacity && size >= Newly(entries, s.model) ==>
        Total(Registered(entries, s.model)) <= capacity
  {
    SessionAdded(entries, sessions, s);
    if Total(entries) <= capacity {
      AdmittedFits(size, s.kind, capacity, Total(entries), budget);
    }
  }

  /** So a caller can take the VRAM in use past any capacity by stating size 0, whenever there is
      an idle model too large for what is free. */
  lemma UnderstatedSize(entries: map<string, Entry>, name: string, capacity: nat, budget: real)
    requires budget >= MIN_SAFE_HEADROOM && Total(entries) + Newly(entries, name) > capacity
    ensures CanAdmit(0, Interactive, capacity, Total(entries), budget) && Total(Registered(entries, name)) > capacity
  {
    UsableBound(capacity, Total(entries), budget);
    if name in entries {
      TotalUpdated(entries, name, Acquire(entries, name)[name]);
    }
  }

  // ----- backpressure -----

  function Rank(s: Session): real
  {
    match s.kind
    case Batch => 0.0
    case Interactive => 1.0
    case Cognitive => 2.0
  }

  function Sacrificed(s: seq<Session>): seq<nat>
  {
    if s == [] then []
    else Sacrificed(s[..|s| - 1]) + if s[|s| - 1].kind.Cognitive? then [] else [s[|s| - 1].id]
  }

  /** `backpressure_order`. */
  function BackpressureOrder(sessions: seq<Session>): seq<nat>
  {
    Sacrificed(S.SortBy(sessions, Rank))
  }

  function Ids(s: seq<Session>): seq<nat>
  {
    seq(|s|, i requires 0 <= i < |s| => s[i].id)
  }

  lemma {:induction false} SacrificedByRank(s: seq<Session>)
    requires S.Ascending(s, Rank)
    ensures Sacrificed(s) == Ids(S.WithKey(s, Rank, 0.0)) + Ids(S.WithKey(s, Rank, 1.0))
  {
    if s != [] {
      var rest, x := s[..|s| - 1], s[|s| - 1];
      SacrificedByRank(rest);
      assert x.kind.Batch? ==> Ids(S.WithKey(rest, Rank, 1.0)) == [] by {
        if x.kind.Batch? {
          NoneOfRank(rest, 1.0);
        }
      }
      assert s == rest + [x];
      assert Sacrificed(s) == Sacrificed(rest) + if x.kind.Cognitive? then [] else [x.id];
      RankedGrow(rest, x);
    }
  }

  lemma RankedGrow(rest: seq<Session>, x: Session)
    ensures rest + [x] != [] && (rest + [x])[..|rest + [x]| - 1] == rest
    ensures Ids(S.WithKey(rest + [x], Rank, 0.0)) ==
        Ids(S.WithKey(rest, Rank, 0.0)) + if x.kind.Batch? then [x.id] else []
    ensures Ids(S.WithKey(rest + [x], Rank, 1.0)) ==
        Ids(S.WithKey(rest, Rank, 1.0)) + if x.kind.Interactive? then [x.id] else []
  {
    assert (rest + [x])[..|rest|] == rest;
    var b, c := S.WithKey(rest, Rank, 0.0), S.WithKey(rest, Rank, 1.0);
    assert Ids(b + [x]) == Ids(b) + [x.id] && Ids(c + [x]) == Ids(c) + [x.id];
  }

  lemma {:induction false} NoneOfRank(s: seq<Session>, v: real)
    requires forall i :: 0 <= i < |s| ==> Rank(s[i]) < v
    ensures S.WithKey(s, Rank, v) == []
  {
    if s != [] {
      NoneOfRank(s[..|s| - 1], v);
    }
  }

  /** The ids of the sessions of one kind, in order of arrival. */
  function OfKind(s: seq<Session>, kind: Class): seq<nat>
  {
    if s == [] then [] else OfKind(s[..|s| - 1], kind) + if s[|s| - 1].kind == kind then [s[|s| - 1].id] else []
  }

  lemma {:induction false} RankIsKind(s: seq<Session>, kind: Class)
    ensures Ids(S.WithKey(s, Rank, if kind.Batch? then 0.0 else if kind.Interactive? then 1.0 else 2.0)) ==
        OfKind(s, kind)
  {
    if s != [] {
      var rest, x := s[..|s| - 1], s[|s| - 1];
      RankIsKind(rest, kind);
      var group := S.WithKey(rest, Rank, if kind.Batch? then 0.0 else if kind.Interactive? then 1.0 else 2.0);
      assert Ids(group + [x]) == Ids(group) + [x.id];
    }
  }

  /** Batch sessions yield first, then interactive ones, each group in order of arrival;
      cognitive ones never. */
  lemma BatchYieldsFirst(sessions: seq<Session>)
    ensures BackpressureOrder(sessions) == OfKind(sessions, Batch) + OfKind(sessions, Interactive)
  {
    S.SortBySorts(sessions, Rank);
    SacrificedByRank(S.SortBy(sessions, Rank));
    S.SortByStable(sessions, Rank, 0.0);
    S.SortByStable(sessions, Rank, 1.0);
    RankIsKind(sessions, Batch);
    RankIsKind(sessions, Interactive);
  }
}
