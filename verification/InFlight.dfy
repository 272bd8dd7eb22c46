// How many requests are in the threaded pipeline at once.
module InFlight {
  import opened Common
  import opened Pipeline

  function Busy<T>(t: Thread<T>): nat
  {
    if t.Working? || t.Sending? then 1 else 0
  }

  /** Messages waiting in the first channels, and threads working on or sending one. */
  function Load<T>(chans: seq<seq<Msg<T>>>, threads: seq<Thread<T>>): nat
    requires |chans| == |threads|
  {
    if threads == [] then 0
    else
      var last := |threads| - 1;
      Load(chans[..last], threads[..last]) + |chans[last]| + Busy(threads[last])
  }

  /** Requests sent into the pipeline that have not left it. */
  function Active<T>(s: State<T>): nat
    requires |s.chans| == |s.threads|
  {
    Load(s.chans, s.threads)
  }

  lemma {:induction false} LoadUpdated<T>(chans: seq<seq<Msg<T>>>, threads: seq<Thread<T>>, i: nat, c: seq<Msg<T>>,
                                          t: Thread<T>)
    requires |chans| == |threads| && i < |threads|
    ensures Load(chans[i := c], threads[i := t]) == Load(chans, threads) - |chans[i]| - Busy(threads[i]) + |c| + Busy(t)
  {
    var last := |threads| - 1;
    if i == last {
      assert chans[i := c][..last] == chans[..last] && threads[i := t][..last] == threads[..last];
    } else {
      LoadUpdated(chans[..last], threads[..last], i, c, t);
      assert chans[i := c][..last] == chans[..last][i := c] && threads[i := t][..last] == threads[..last][i := t];
    }
  }

  lemma LoadForwarded<T>(chans: seq<seq<Msg<T>>>, threads: seq<Thread<T>>, i: nat, m: Msg<T>)
    requires |chans| == |threads| && i + 1 < |threads| && Busy(threads[i]) == 1
    ensures Load(chans[i + 1 := chans[i + 1] + [m]], threads[i := Idle]) == Load(chans, threads)
  {
    LoadUpdated(chans, threads, i, chans[i], Idle);
    assert chans[i := chans[i]] == chans;
    var idle := threads[i := Idle];
    LoadUpdated(chans, idle, i + 1, chans[i + 1] + [m], idle[i + 1]);
    assert idle[i + 1 := idle[i + 1]] == idle;
  }

  /** A step changes the load only by sending a request in, or by a stage that ends it. */
  lemma StepLoad<T>(cfg: Config<T>, requests: seq<T>, s: State<T>, e: Event, s': State<T>)
    requires Took(cfg, requests, s, e, s')
    ensures |s'.chans| == |s'.threads|
    ensures Active(s') <= Active(s) + s'.next - s.next
    ensures (e.RunStage? ==> s'.threads[e.i].Sending?) ==> Active(s') == Active(s) + s'.next - s.next
  {
    match e
    case SendRequest =>
      LoadUpdated(s.chans, s.threads, 0, s'.chans[0], s.threads[0]);
      assert s.threads[0 := s.threads[0]] == s.threads;
    case DropSenders =>
    case Receive(i) =>
      LoadUpdated(s.chans, s.threads, i, s'.chans[i], s'.threads[i]);
    case RunStage(i) =>
      LoadUpdated(s.chans, s.threads, i, s.chans[i], s'.threads[i]);
      assert s.chans[i := s.chans[i]] == s.chans;
    case Forward(i) =>
      LoadForwarded(s.chans, s.threads, i, s.threads[i].out);
    case Exit(i) =>
      LoadUpdated(s.chans, s.threads, i, s.chans[i], Exited);
      assert s.chans[i := s.chans[i]] == s.chans;
  }

  // ----- the most there can be -----

  /** A stage holds at most a full channel and the request it is busy with. */
  ghost predicate Capped<T>(cfg: Config<T>, s: State<T>)
    requires |s.chans| == |s.threads|
  {
    forall i :: 0 <= i < |s.threads| ==> |s.chans[i]| + Busy(s.threads[i]) <= cfg.bound + 1
  }

  lemma StepCapped<T>(cfg: Config<T>, requests: seq<T>, s: State<T>, e: Event, s': State<T>)
    requires Took(cfg, requests, s, e, s') && Capped(cfg, s)
    ensures |s'.chans| == |s'.threads| && Capped(cfg, s')
  {
  }

  lemma {:induction false} CappedLoad<T>(cfg: Config<T>, chans: seq<seq<Msg<T>>>, threads: seq<Thread<T>>)
    requires |chans| == |threads|
    requires forall i :: 0 <= i < |threads| ==> |chans[i]| + Busy(threads[i]) <= cfg.bound + 1
    ensures Load(chans, threads) <= |threads| * (cfg.bound + 1)
    decreases |threads|
  {
    if threads != [] {
      var last := |threads| - 1;
      CappedLoad(cfg, chans[..last], threads[..last]);
    }
  }

  lemma {:induction false} EmptyLoad<T>(chans: seq<seq<Msg<T>>>, threads: seq<Thread<T>>)
    requires |chans| == |threads| && forall i :: 0 <= i < |threads| ==> chans[i] == [] && threads[i].Idle?
    ensures Load(chans, threads) == 0
  {
    if threads != [] {
      EmptyLoad(chans[..|threads| - 1], threads[..|threads| - 1]);
    }
  }

  /** At every moment of every run, the active requests are among those sent, and each stage
      holds at most its channel's bound and one more. */
  lemma {:induction false} ActiveBound<T>(cfg: Config<T>, requests: seq<T>, run: seq<State<T>>, events: seq<Event>,
                                          k: nat)
    requires cfg.stages >= 1 && IsRun(cfg, requests, run, events) && k <= |events|
    ensures Shaped(cfg, requests, run[k]) && Capped(cfg, run[k])
    ensures Active(run[k]) <= run[k].next <= |requests|
    ensures Active(run[k]) <= cfg.stages * (cfg.bound + 1)
  {
    if k == 0 {
      EmptyLoad(run[0].chans, run[0].threads);
    } else {
      ActiveBound(cfg, requests, run, events, k - 1);
      assert Took(cfg, requests, run[k - 1], events[k - 1], run[k]);
      StepLoad(cfg, requests, run[k - 1], events[k - 1], run[k]);
      StepCapped(cfg, requests, run[k - 1], events[k - 1], run[k]);
    }
    CappedLoad(cfg, run[k].chans, run[k].threads);
  }

  // ----- reaching it -----

  /** A run that can be continued from its last state. */
  ghost predicate Reached<T>(cfg: Config<T>, requests: seq<T>, run: seq<State<T>>, events: seq<Event>, s: State<T>)
  {
    IsRun(cfg, requests, run, events) && run[|events|] == s
  }

  lemma Continue<T>(cfg: Config<T>, requests: seq<T>, run: seq<State<T>>, events: seq<Event>, s: State<T>, e: Event)
    returns (run': seq<State<T>>, events': seq<Event>, s': State<T>)
    requires Reached(cfg, requests, run, events, s) && Shaped(cfg, requests, s) && Enabled(cfg, requests, s, e)
    ensures s' == Apply(cfg, requests, s, e) && Reached(cfg, requests, run', events', s')
  {
    s' := Apply(cfg, requests, s, e);
    run', events' := run + [s'], events + [e];
    forall k | 0 <= k < |events'|
      ensures Took(cfg, requests, run'[k], events'[k], run'[k + 1])
    {
      if k < |events| {
        assert Took(cfg, requests, run[k], events[k], run[k + 1]);
      }
    }
  }

  /** The first channel can be filled while the first thread is at work: one request more than
      the bound is active, in some run, whenever there are so many. */
  lemma {:induction false} ActiveExceedsBound<T>(cfg: Config<T>, requests: seq<T>)
    returns (run: seq<State<T>>, events: seq<Event>)
    requires cfg.stages >= 1 && |requests| > cfg.bound
    ensures IsRun(cfg, requests, run, events) && Shaped(cfg, requests, run[|events|])
    ensures Active(run[|events|]) == cfg.bound + 1
  {
    var s := Initial(cfg, requests);
    run, events := [s], [];
    EmptyLoad(s.chans, s.threads);
    run, events, s := Continue(cfg, requests, run, events, s, SendRequest);
    StepLoad(cfg, requests, run[0], SendRequest, s);
    if cfg.bound >= 1 {
      var t := s;
      run, events, s := Continue(cfg, requests, run, events, s, Receive(0));
      StepLoad(cfg, requests, t, Receive(0), s);
      while s.next <= cfg.bound
        invariant Reached(cfg, requests, run, events, s) && Shaped(cfg, requests, s)
        invariant |s.chans[0]| + 1 == s.next == Active(s) <= cfg.bound + 1
      {
        t := s;
        run, events, s := Continue(cfg, requests, run, events, s, SendRequest);
        StepLoad(cfg, requests, t, SendRequest, s);
      }
    }
  }

  /** `max_concurrency` bounds the active requests of every run exactly when it is at least the
      number of requests. */
  lemma ActiveWithinBoundExact<T>(cfg: Config<T>, requests: seq<T>)
    requires cfg.stages >= 1
    ensures (forall run: seq<State<T>>, events: seq<Event>, k: nat ::
               IsRun(cfg, requests, run, events) && k <= |events| ==>
               |run[k].chans| == |run[k].threads| && Active(run[k]) <= cfg.bound)
       <==> |requests| <= cfg.bound
  {
    if |requests| <= cfg.bound {
      forall run: seq<State<T>>, events: seq<Event>, k: nat | IsRun(cfg, requests, run, events) && k <= |events|
        ensures |run[k].chans| == |run[k].threads| && Active(run[k]) <= cfg.bound
      {
        ActiveBound(cfg, requests, run, events, k);
      }
    } else {
      var run, events := ActiveExceedsBound(cfg, requests);
      assert !(Active(run[|events|]) <= cfg.bound);
    }
  }

  // ----- the peak, when no stage fails -----

  /** Requests stage i holds when the stages after j are full and those before it empty. */
  function Held<T>(cfg: Config<T>, j: nat, c: nat, i: nat): nat
  {
    if i < j then 0 else if i == j then c else cfg.bound + 1
  }

  /** A stage that holds h requests is at work on the first of them. */
  predicate Holding<T>(s: State<T>, i: nat, h: nat, waiting: nat)
    requires i < |s.chans| == |s.threads|
  {
    (if h == 0 then s.threads[i].Idle? else s.threads[i].Working?) &&
        |s.chans[i]| == (if h == 0 then 0 else h - 1) + waiting
  }

  predicate PackedAt<T>(cfg: Config<T>, s: State<T>, j: nat, c: nat, at: nat, i: nat)
    requires i < |s.chans| == |s.threads|
  {
    Holding(s, i, Held(cfg, j, c, i), if i == at then 1 else 0)
  }

  /** Every stage holds what it is to, and channel `at`, if there is one, a message more. */
  ghost predicate Packed<T>(cfg: Config<T>, s: State<T>, j: nat, c: nat, at: nat)
    requires |s.chans| == |s.threads|
  {
    forall i :: 0 <= i < |s.threads| ==> PackedAt(cfg, s, j, c, at, i)
  }

  ghost predicate NoStageFails<T(!new)>(cfg: Config<T>)
  {
    forall i: nat, text: T :: i < cfg.stages ==> cfg.run(i, text).Some?
  }

  /** A message in transit moves on by one stage. */
  lemma PassOn<T(!new)>(cfg: Config<T>, requests: seq<T>, run: seq<State<T>>, events: seq<Event>, s: State<T>, j: nat,
                        c: nat, at: nat)
    returns (run': seq<State<T>>, events': seq<Event>, s': State<T>)
    requires Reached(cfg, requests, run, events, s) && Shaped(cfg, requests, s) && NoStageFails(cfg)
    requires at < j < cfg.stages && c <= cfg.bound && Packed(cfg, s, j, c, at)
    ensures Reached(cfg, requests, run', events', s') && Shaped(cfg, requests, s') && Packed(cfg, s', j, c, at + 1)
    ensures Active(s') == Active(s) && s'.next == s.next
  {
    assert PackedAt(cfg, s, j, c, at, at) && PackedAt(cfg, s, j, c, at, at + 1);
    var s1, s2;
    run', events', s1 := Continue(cfg, requests, run, events, s, Receive(at));
    StepLoad(cfg, requests, s, Receive(at), s1);
    assert s1.threads[at].msg.req < |requests| by {
      var loc := RunKeepsInv(cfg, requests, run', events', |events'|);
      assert ThreadOk(cfg, requests, s1, loc, at);
    }
    run', events', s2 := Continue(cfg, requests, run', events', s1, RunStage(at));
    StepLoad(cfg, requests, s1, RunStage(at), s2);
    run', events', s' := Continue(cfg, requests, run', events', s2, Forward(at));
    StepLoad(cfg, requests, s2, Forward(at), s');
    PackedPassed(cfg, s, s', j, c, at);
  }

  lemma PackedPassed<T>(cfg: Config<T>, s: State<T>, s': State<T>, j: nat, c: nat, at: nat)
    requires |s.chans| == |s.threads| == |s'.chans| == |s'.threads| && at < j < |s.threads| && Packed(cfg, s, j, c, at)
    requires s'.threads[at].Idle? && |s'.chans[at]| == |s.chans[at]| - 1 && |s'.chans[at + 1]| == |s.chans[at + 1]| + 1
    requires forall i :: 0 <= i < |s.threads| && i != at ==> s'.threads[i] == s.threads[i]
    requires forall i :: 0 <= i < |s.threads| && i != at && i != at + 1 ==> s'.chans[i] == s.chans[i]
    ensures Packed(cfg, s', j, c, at + 1)
  {
    var next := at + 1;
    forall i | 0 <= i < |s'.threads|
      ensures PackedAt(cfg, s', j, c, next, i)
    {
      assert PackedAt(cfg, s, j, c, at, i);
    }
  }

  /** One more request is brought to stage j. */
  lemma Deliver<T(!new)>(cfg: Config<T>, requests: seq<T>, run: seq<State<T>>, events: seq<Event>, s: State<T>, j: nat,
                         c: nat)
    returns (run': seq<State<T>>, events': seq<Event>, s': State<T>)
    requires Reached(cfg, requests, run, events, s) && Shaped(cfg, requests, s) && NoStageFails(cfg)
    requires j < cfg.stages && c <= cfg.bound && s.next < |requests| && Packed(cfg, s, j, c, cfg.stages)
    ensures Reached(cfg, requests, run', events', s') && Shaped(cfg, requests, s') &&
        Packed(cfg, s', j, c + 1, cfg.stages)
    ensures Active(s') == Active(s) + 1 && s'.next == s.next + 1
  {
    assert PackedAt(cfg, s, j, c, cfg.stages, 0);
    run', events', s' := Continue(cfg, requests, run, events, s, SendRequest);
    StepLoad(cfg, requests, s, SendRequest, s');
    assert Packed(cfg, s', j, c, 0) by {
      forall i | 0 <= i < |s'.threads|
        ensures PackedAt(cfg, s', j, c, 0, i)
      {
        assert PackedAt(cfg, s, j, c, cfg.stages, i);
      }
    }
    for at := 0 to j
      invariant Reached(cfg, requests, run', events', s') && Shaped(cfg, requests, s') && Packed(cfg, s', j, c, at)
      invariant Active(s') == Active(s) + 1 && s'.next == s.next + 1
    {
      run', events', s' := PassOn(cfg, requests, run', events', s', j, c, at);
    }
    var t := s';
    assert PackedAt(cfg, t, j, c, j, j);
    if c == 0 {
      run', events', s' := Continue(cfg, requests, run', events', t, Receive(j));
      StepLoad(cfg, requests, t, Receive(j), s');
    }
    var more := c + 1;
    forall i | 0 <= i < |s'.threads|
      ensures PackedAt(cfg, s', j, more, cfg.stages, i)
    {
      assert PackedAt(cfg, t, j, c, j, i);
    }
  }

  /** When no stage fails, some run has as many requests active as `ActiveBound` allows. */
  lemma PeakReached<T(!new)>(cfg: Config<T>, requests: seq<T>) returns (run: seq<State<T>>, events: seq<Event>)
    requires cfg.stages >= 1 && NoStageFails(cfg)
    ensures IsRun(cfg, requests, run, events) && Shaped(cfg, requests, run[|events|])
    ensures Active(run[|events|]) == Min(|requests|, cfg.stages * (cfg.bound + 1))
  {
    var s := Initial(cfg, requests);
    run, events := [s], [];
    EmptyLoad(s.chans, s.threads);
    var j, c, full := cfg.stages - 1, 0, 0;
    while s.next < |requests| && (j > 0 || c <= cfg.bound)
      invariant Reached(cfg, requests, run, events, s) && Shaped(cfg, requests, s)
      invariant 0 <= j < cfg.stages && 0 <= c <= cfg.bound + 1 && Packed(cfg, s, j, c, cfg.stages)
      invariant Active(s) == s.next == full + c && full == (cfg.stages - 1 - j) * (cfg.bound + 1)
      decreases |requests| - s.next, j
    {
      if c > cfg.bound {
        OneMore(cfg.stages - 1 - j, cfg.bound + 1);
        NextStage(cfg, s, j);
        j, c, full := j - 1, 0, full + c;
      } else {
        run, events, s := Deliver(cfg, requests, run, events, s, j, c);
        c := c + 1;
      }
    }
    OneMore(cfg.stages - 1, cfg.bound + 1);
    ActiveBound(cfg, requests, run, events, |events|);
  }

  lemma OneMore(k: int, b: int)
    ensures (k + 1) * b == k * b + b
  {
  }

  lemma NextStage<T>(cfg: Config<T>, s: State<T>, j: nat)
    requires |s.chans| == |s.threads| && j > 0 && Packed(cfg, s, j, cfg.bound + 1, cfg.stages)
    ensures Packed(cfg, s, j - 1, 0, cfg.stages)
  {
    var before := j - 1;
    forall i | 0 <= i < |s.threads|
      ensures PackedAt(cfg, s, before, 0, cfg.stages, i)
    {
      assert PackedAt(cfg, s, j, cfg.bound + 1, cfg.stages, i);
    }
  }
}
