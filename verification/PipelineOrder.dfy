// Requests go through the threaded pipeline in the order in which they were sent.
module PipelineOrder {
  import opened Common
  import opened Pipeline

  /** An earlier request that is still under way is at least as far as a later one. */
  ghost predicate InOrder<T>(cfg: Config<T>, s: State<T>, loc: seq<Loc>, q: nat, r: nat)
    requires |s.results| == |loc| && q < r < |loc|
  {
    loc[q] != Done ==>
      && |s.results[r]| <= |s.results[q]|
      && (loc[r] != Done ==> Left(cfg.stages, loc[q]) <= Left(cfg.stages, loc[r]))
  }

  ghost predicate Ascending<T>(chan: seq<Msg<T>>)
  {
    forall j, k :: 0 <= j < k < |chan| ==> chan[j].req < chan[k].req
  }

  /** All requests are in order, and so are the messages waiting in every channel. */
  ghost predicate Ordered<T>(cfg: Config<T>, s: State<T>, loc: seq<Loc>)
  {
    && |s.results| == |loc|
    && (forall i :: 0 <= i < |s.chans| ==> Ascending(s.chans[i]))
    && forall q: nat, r: nat :: q < r < |loc| ==> InOrder(cfg, s, loc, q, r)
  }

  /** Whoever is still under way before request m, and not at its place, is at least a step ahead. */
  lemma StepAhead<T>(cfg: Config<T>, requests: seq<T>, s: State<T>, loc: seq<Loc>, q: nat, m: nat)
    requires Inv(cfg, requests, s, loc) && Ordered(cfg, s, loc) && q < m < |loc|
    requires loc[q] != Done && loc[m] != Done && loc[q] != loc[m]
    ensures Left(cfg.stages, loc[q]) < Left(cfg.stages, loc[m])
  {
    assert InOrder(cfg, s, loc, q, m);
    assert PlaceOk(cfg, requests, s, loc, q) && PlaceOk(cfg, requests, s, loc, m);
  }

  /** Request m alone moves, by a step that leaves it no further than those before it. */
  lemma MovedInOrder<T>(cfg: Config<T>, s: State<T>, loc: seq<Loc>, m: nat, s': State<T>, loc': seq<Loc>)
    requires Ordered(cfg, s, loc) && |s'.results| == |loc'| == |loc| && m < |loc| && loc[m] != Done
    requires forall q :: 0 <= q < |loc| && q != m ==> loc'[q] == loc[q] && s'.results[q] == s.results[q]
    requires |s.results[m]| <= |s'.results[m]|
    requires loc'[m] != Done ==> Left(cfg.stages, loc'[m]) <= Left(cfg.stages, loc[m])
    requires forall q :: 0 <= q < m && loc[q] != Done ==>
        && |s'.results[m]| <= |s.results[q]|
        && (loc'[m] != Done ==> Left(cfg.stages, loc[q]) <= Left(cfg.stages, loc'[m]))
    ensures forall q: nat, r: nat :: q < r < |loc| ==> InOrder(cfg, s', loc', q, r)
  {
    forall q: nat, r: nat | q < r < |loc|
      ensures InOrder(cfg, s', loc', q, r)
    {
      assert InOrder(cfg, s, loc, q, r);
    }
  }

  lemma SendInOrder<T>(cfg: Config<T>, requests: seq<T>, s: State<T>, loc: seq<Loc>, s': State<T>, loc': seq<Loc>)
    requires Inv(cfg, requests, s, loc) && Ordered(cfg, s, loc) && Enabled(cfg, requests, s, SendRequest)
    requires s' == Apply(cfg, requests, s, SendRequest) && loc' == NextLoc(cfg, requests, s, loc, SendRequest)
    ensures Ordered(cfg, s', loc')
  {
    var m := s.next;
    assert PlaceOk(cfg, requests, s, loc, m) && ChanOk(cfg, requests, s.results, loc, 0, s.chans[0]);
    forall q | 0 <= q < m && loc[q] != Done
      ensures Left(cfg.stages, loc[q]) <= Left(cfg.stages, Waiting(0))
    {
      assert PlaceOk(cfg, requests, s, loc, q);
    }
    MovedInOrder(cfg, s, loc, m, s', loc');
    forall k | 0 <= k < |s.chans[0]|
      ensures s.chans[0][k].req < m
    {
      assert Follows(requests, s.results, loc, Waiting(0), s.chans[0][k]);
      assert PlaceOk(cfg, requests, s, loc, s.chans[0][k].req);
    }
    assert Ascending(s.chans[0]);
  }

  lemma ReceiveInOrder<T>(cfg: Config<T>, requests: seq<T>, s: State<T>, loc: seq<Loc>, i: nat, s': State<T>,
                          loc': seq<Loc>)
    requires Inv(cfg, requests, s, loc) && Ordered(cfg, s, loc) && Enabled(cfg, requests, s, Receive(i))
    requires s' == Apply(cfg, requests, s, Receive(i)) && loc' == NextLoc(cfg, requests, s, loc, Receive(i))
    ensures Ordered(cfg, s', loc')
  {
    assert ChanOk(cfg, requests, s.results, loc, i, s.chans[i]) && Ascending(s.chans[i]);
    assert Follows(requests, s.results, loc, Waiting(i), s.chans[i][0]);
    var m := s.chans[i][0].req;
    forall q | 0 <= q < m && loc[q] != Done
      ensures Left(cfg.stages, loc[q]) <= Left(cfg.stages, At(i)) && |s.results[m]| <= |s.results[q]|
    {
      assert InOrder(cfg, s, loc, q, m) && PlaceOk(cfg, requests, s, loc, q);
      StepAhead(cfg, requests, s, loc, q, m);
    }
    MovedInOrder(cfg, s, loc, m, s', loc');
  }

  lemma RunInOrder<T>(cfg: Config<T>, requests: seq<T>, s: State<T>, loc: seq<Loc>, i: nat, s': State<T>,
                      loc': seq<Loc>)
    requires Inv(cfg, requests, s, loc) && Ordered(cfg, s, loc) && Enabled(cfg, requests, s, RunStage(i))
    requires s' == Apply(cfg, requests, s, RunStage(i)) && loc' == NextLoc(cfg, requests, s, loc, RunStage(i))
    ensures Ordered(cfg, s', loc')
  {
    assert ThreadOk(cfg, requests, s, loc, i);
    var m := s.threads[i].msg.req;
    assert PlaceOk(cfg, requests, s, loc, m);
    forall q | 0 <= q < m && loc[q] != Done
      ensures Left(cfg.stages, loc[q]) <= Left(cfg.stages, Leaving(i)) && i + 1 <= |s.results[q]|
    {
      assert PlaceOk(cfg, requests, s, loc, q);
      StepAhead(cfg, requests, s, loc, q, m);
    }
    MovedInOrder(cfg, s, loc, m, s', loc');
  }

  lemma ForwardInOrder<T>(cfg: Config<T>, requests: seq<T>, s: State<T>, loc: seq<Loc>, i: nat, s': State<T>,
                          loc': seq<Loc>)
    requires Inv(cfg, requests, s, loc) && Ordered(cfg, s, loc) && Enabled(cfg, requests, s, Forward(i))
    requires s' == Apply(cfg, requests, s, Forward(i)) && loc' == NextLoc(cfg, requests, s, loc, Forward(i))
    ensures Ordered(cfg, s', loc')
  {
    assert ThreadOk(cfg, requests, s, loc, i);
    var m := s.threads[i].out.req;
    assert PlaceOk(cfg, requests, s, loc, m) && ChanOk(cfg, requests, s.results, loc, i + 1, s.chans[i + 1]);
    forall q | 0 <= q < m && loc[q] != Done
      ensures Left(cfg.stages, loc[q]) <= Left(cfg.stages, Waiting(i + 1)) && |s.results[m]| <= |s.results[q]|
    {
      assert InOrder(cfg, s, loc, q, m) && PlaceOk(cfg, requests, s, loc, q);
      StepAhead(cfg, requests, s, loc, q, m);
    }
    MovedInOrder(cfg, s, loc, m, s', loc');
    var chan := s.chans[i + 1];
    forall k | 0 <= k < |chan|
      ensures chan[k].req < m
    {
      assert Follows(requests, s.results, loc, Waiting(i + 1), chan[k]);
      assert chan[k].req > m ==> InOrder(cfg, s, loc, m, chan[k].req);
    }
    assert Ascending(chan);
  }

  lemma StepInOrder<T>(cfg: Config<T>, requests: seq<T>, s: State<T>, loc: seq<Loc>, e: Event)
    requires Inv(cfg, requests, s, loc) && Ordered(cfg, s, loc) && Enabled(cfg, requests, s, e)
    ensures Ordered(cfg, Apply(cfg, requests, s, e), NextLoc(cfg, requests, s, loc, e))
  {
    var s', loc' := Apply(cfg, requests, s, e), NextLoc(cfg, requests, s, loc, e);
    match e
    case SendRequest => SendInOrder(cfg, requests, s, loc, s', loc');
    case Receive(i) => ReceiveInOrder(cfg, requests, s, loc, i, s', loc');
    case RunStage(i) => RunInOrder(cfg, requests, s, loc, i, s', loc');
    case Forward(i) => ForwardInOrder(cfg, requests, s, loc, i, s', loc');
    case _ =>
      forall q: nat, r: nat | q < r < |loc|
        ensures InOrder(cfg, s', loc', q, r)
      {
        assert InOrder(cfg, s, loc, q, r);
      }
  }

  lemma {:induction false} RunStaysInOrder<T>(cfg: Config<T>, requests: seq<T>, run: seq<State<T>>, events: seq<Event>,
                                              n: nat) returns (loc: seq<Loc>)
    requires cfg.stages >= 1 && IsRun(cfg, requests, run, events) && n <= |events|
    ensures Inv(cfg, requests, run[n], loc) && Ordered(cfg, run[n], loc)
  {
    if n == 0 {
      loc := seq(|requests|, _ => NotSent);
      InitialOk(cfg, requests);
    } else {
      var before := RunStaysInOrder(cfg, requests, run, events, n - 1);
      assert Took(cfg, requests, run[n - 1], events[n - 1], run[n - 1 + 1]);
      StepKeeps(cfg, requests, run[n - 1], before, events[n - 1]);
      StepInOrder(cfg, requests, run[n - 1], before, events[n - 1]);
      loc := NextLoc(cfg, requests, run[n - 1], before, events[n - 1]);
    }
  }

  /** No request overtakes another: at every moment of every run, of two requests the later one has
      no more outputs than the earlier one, unless that has all it will ever have. */
  lemma NoOvertaking<T>(cfg: Config<T>, requests: seq<T>, run: seq<State<T>>, events: seq<Event>, n: nat, q: nat,
                        r: nat)
    requires cfg.stages >= 1 && IsRun(cfg, requests, run, events) && n <= |events| && q < r < |requests|
    ensures
      var results := run[n].results;
      && |results| == |requests|
      && (|results[r]| <= |results[q]| || results[q] == Outputs(cfg, requests[q], cfg.stages))
  {
    var loc := RunStaysInOrder(cfg, requests, run, events, n);
    assert InOrder(cfg, run[n], loc, q, r) && PlaceOk(cfg, requests, run[n], loc, q);
  }
}
