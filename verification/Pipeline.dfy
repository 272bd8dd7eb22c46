// The stage pipeline: sequential execution, and one thread per stage over bounded channels.
module Pipeline {
  import opened Common

  /** `run(i, input)`: the model lookup and inference of stage i; None for a missing model or a
      failed inference. Stages are deterministic; timings are left out. */
  datatype Config<!T> = Config(stages: nat, bound: nat, run: (nat, T) -> Option<T>)

  // ----- sequential meaning -----

  /** Outputs of the first n stages, up to the first that fails. */
  function Outputs<T>(cfg: Config<T>, input: T, n: nat): (r: seq<T>)
    ensures |r| <= n
  {
    if n == 0 then []
    else
      var before := Outputs(cfg, input, n - 1);
      if |before| < n - 1 then before
      else
        match cfg.run(n - 1, InputOf(input, before))
        case Some(out) => before + [out]
        case None => before
  }

  /** What the stage after these outputs is fed. */
  function InputOf<T>(input: T, outs: seq<T>): T
  {
    if outs == [] then input else outs[|outs| - 1]
  }

  lemma {:induction false} OutputsGrow<T>(cfg: Config<T>, input: T, n: nat, m: nat)
    requires n <= m
    ensures Outputs(cfg, input, n) <= Outputs(cfg, input, m)
    ensures |Outputs(cfg, input, n)| < n ==> Outputs(cfg, input, m) == Outputs(cfg, input, n)
    decreases m
  {
    if n < m {
      OutputsGrow(cfg, input, n, m - 1);
    }
  }

  /** Each stage's output, the first one's from the input and every other's from the output before
      it, up to the first stage that fails. */
  ghost predicate IsChain<T>(cfg: Config<T>, input: T, outs: seq<T>, stages: nat)
  {
    && |outs| <= stages
    && (forall i :: 0 <= i < |outs| ==> cfg.run(i, if i == 0 then input else outs[i - 1]) == Some(outs[i]))
    && (|outs| < stages ==> cfg.run(|outs|, if outs == [] then input else outs[|outs| - 1]).None?)
  }

  /** A chain of n stages, with the next stage's outcome. */
  lemma ChainGrows<T>(cfg: Config<T>, input: T, before: seq<T>, outs: seq<T>, n: nat)
    requires IsChain(cfg, input, before, n)
    requires if |before| < n then outs == before
             else match cfg.run(n, InputOf(input, before)) case Some(out) => outs == before + [out]
                                                           case None => outs == before
    ensures IsChain(cfg, input, outs, n + 1)
  {
    forall i | 0 <= i < |outs|
      ensures cfg.run(i, if i == 0 then input else outs[i - 1]) == Some(outs[i])
    {
      assert i < |before| ==> cfg.run(i, if i == 0 then input else before[i - 1]) == Some(before[i]);
    }
  }

  lemma {:induction false} OutputsChain<T>(cfg: Config<T>, input: T, n: nat)
    ensures IsChain(cfg, input, Outputs(cfg, input, n), n)
  {
    if n > 0 {
      OutputsChain(cfg, input, n - 1);
      ChainGrows(cfg, input, Outputs(cfg, input, n - 1), Outputs(cfg, input, n), n - 1);
    }
  }

  /** There is only one. */
  lemma {:induction false} ChainIsOnly<T>(cfg: Config<T>, input: T, a: seq<T>, b: seq<T>, i: nat)
    requires IsChain(cfg, input, a, cfg.stages) && IsChain(cfg, input, b, cfg.stages) && i < |a|
    ensures i < |b| && a[i] == b[i]
  {
    if i > 0 {
      ChainIsOnly(cfg, input, a, b, i - 1);
    }
    assert cfg.run(i, if i == 0 then input else a[i - 1]) == Some(a[i]);
    assert i < |b| ==> cfg.run(i, if i == 0 then input else b[i - 1]) == Some(b[i]);
  }

  /** `execute`: every stage's output, or an error as soon as one stage fails. */
  method Execute<T>(cfg: Config<T>, input: T) returns (result: Option<seq<T>>)
    ensures
      var outs := Outputs(cfg, input, cfg.stages);
      result == if |outs| == cfg.stages then Some(outs) else None
    ensures exists outs ::
      IsChain(cfg, input, outs, cfg.stages) && result == if |outs| == cfg.stages then Some(outs) else None
  {
    OutputsChain(cfg, input, cfg.stages);
    var results, current := [], input;
    for i := 0 to cfg.stages
      invariant results == Outputs(cfg, input, i) && |results| == i && current == InputOf(input, results)
    {
      var answer := cfg.run(i, current);
      if answer.None? {
        OutputsGrow(cfg, input, i + 1, cfg.stages);
        return None;
      }
      results := results + [answer.value];
      current := answer.value;
    }
    result := Some(results);
  }

  // ----- the threads -----

  datatype Msg<T> = Msg(req: nat, text: T)
  datatype Thread<T> = Idle | Working(msg: Msg<T>) | Sending(out: Msg<T>) | Exited

  datatype State<T> = State(chans: seq<seq<Msg<T>>>, threads: seq<Thread<T>>, next: nat, dropped: bool,
                            results: seq<seq<T>>)

  datatype Event = SendRequest | DropSenders | Receive(i: nat) | RunStage(i: nat) | Forward(i: nat) | Exit(i: nat)

  predicate Shaped<T>(cfg: Config<T>, requests: seq<T>, s: State<T>)
  {
    |s.chans| == |s.threads| == cfg.stages >= 1 && |s.results| == |requests| && s.next <= |requests|
  }

  function Initial<T>(cfg: Config<T>, requests: seq<T>): State<T>
  {
    State(seq(cfg.stages, _ => []), seq(cfg.stages, _ => Idle), 0, false, seq(|requests|, _ => []))
  }

  /** A bounded channel takes a message when it is not full; one of bound 0 hands it over, when
      its receiver is waiting. */
  predicate CanSend<T>(cfg: Config<T>, s: State<T>, i: nat)
    requires i < |s.chans| && i < |s.threads|
  {
    |s.chans[i]| < cfg.bound || (cfg.bound == 0 && s.chans[i] == [] && s.threads[i].Idle?)
  }

  predicate Enabled<T>(cfg: Config<T>, requests: seq<T>, s: State<T>, e: Event)
    requires Shaped(cfg, requests, s)
  {
    match e
    case SendRequest => s.next < |requests| && CanSend(cfg, s, 0)
    case DropSenders => s.next == |requests| && !s.dropped
    case Receive(i) => i < cfg.stages && s.threads[i].Idle? && s.chans[i] != []
    case RunStage(i) => i < cfg.stages && s.threads[i].Working? && s.threads[i].msg.req < |requests|
    case Forward(i) => i + 1 < cfg.stages && s.threads[i].Sending? && CanSend(cfg, s, i + 1)
    case Exit(i) =>
      i < cfg.stages && s.threads[i].Idle? && s.chans[i] == [] && s.dropped && (i == 0 || s.threads[i - 1].Exited?)
  }

  function Apply<T>(cfg: Config<T>, requests: seq<T>, s: State<T>, e: Event): (r: State<T>)
    requires Shaped(cfg, requests, s) && Enabled(cfg, requests, s, e)
    ensures Shaped(cfg, requests, r)
  {
    match e
    case SendRequest => s.(chans := s.chans[0 := s.chans[0] + [Msg(s.next, requests[s.next])]], next := s.next + 1)
    case DropSenders => s.(dropped := true)
    case Receive(i) => s.(chans := s.chans[i := s.chans[i][1..]], threads := s.threads[i := Working(s.chans[i][0])])
    case RunStage(i) =>
      var m := s.threads[i].msg;
      (match cfg.run(i, m.text)
       case None => s.(threads := s.threads[i := Idle])
       case Some(out) =>
         s.(threads := s.threads[i := if i + 1 < cfg.stages then Sending(Msg(m.req, out)) else Idle],
            results := s.results[m.req := s.results[m.req] + [out]]))
    case Forward(i) =>
      s.(chans := s.chans[i + 1 := s.chans[i + 1] + [s.threads[i].out]], threads := s.threads[i := Idle])
    case Exit(i) => s.(threads := s.threads[i := Exited])
  }

  predicate AllExited<T>(s: State<T>)
  {
    forall i :: 0 <= i < |s.threads| ==> s.threads[i].Exited?
  }

  // ----- where each request is -----

  datatype Loc = NotSent | Waiting(i: nat) | At(i: nat) | Leaving(i: nat) | Done

  /** The state and the requests' places agree, and each request has exactly the outputs of the
      stages it has passed. */
  ghost predicate Inv<T>(cfg: Config<T>, requests: seq<T>, s: State<T>, loc: seq<Loc>)
  {
    && Shaped(cfg, requests, s) && |loc| == |requests|
    && ThreadsOk(cfg, requests, s, loc) && ChansOk(cfg, requests, s, loc) && ExitsOk(s)
    && (s.dropped ==> s.next == |requests|)
    && forall r :: 0 <= r < |loc| ==> PlaceOk(cfg, requests, s, loc, r)
  }

  ghost predicate ThreadsOk<T>(cfg: Config<T>, requests: seq<T>, s: State<T>, loc: seq<Loc>)
    requires Shaped(cfg, requests, s) && |loc| == |requests|
  {
    forall i :: 0 <= i < cfg.stages ==> ThreadOk(cfg, requests, s, loc, i)
  }

  /** A message of a request at this place carries what the next stage is to be fed. */
  ghost predicate Follows<T>(requests: seq<T>, results: seq<seq<T>>, loc: seq<Loc>, place: Loc, m: Msg<T>)
    requires |loc| == |requests| == |results|
  {
    m.req < |loc| && loc[m.req] == place && m.text == InputOf(requests[m.req], results[m.req])
  }

  ghost predicate ThreadOk<T>(cfg: Config<T>, requests: seq<T>, s: State<T>, loc: seq<Loc>, i: nat)
    requires Shaped(cfg, requests, s) && |loc| == |requests| && i < cfg.stages
  {
    match s.threads[i]
    case Working(m) => Follows(requests, s.results, loc, At(i), m)
    case Sending(m) => i + 1 < cfg.stages && Follows(requests, s.results, loc, Leaving(i), m)
    case _ => true
  }

  ghost predicate ChansOk<T>(cfg: Config<T>, requests: seq<T>, s: State<T>, loc: seq<Loc>)
    requires Shaped(cfg, requests, s) && |loc| == |requests|
  {
    forall i :: 0 <= i < cfg.stages ==> ChanOk(cfg, requests, s.results, loc, i, s.chans[i])
  }

  ghost predicate ChanOk<T>(cfg: Config<T>, requests: seq<T>, results: seq<seq<T>>, loc: seq<Loc>, i: nat,
                            chan: seq<Msg<T>>)
    requires |loc| == |requests| == |results|
  {
    && |chan| <= Max(cfg.bound, 1)
    && (forall k :: 0 <= k < |chan| ==> Follows(requests, results, loc, Waiting(i), chan[k]))
    && (forall j, k :: 0 <= j < k < |chan| ==> chan[j].req != chan[k].req)
  }

  /** A channel none of whose messages is of request r stays fine when only r's place changes. */
  lemma ChanKept<T>(cfg: Config<T>, requests: seq<T>, results: seq<seq<T>>, loc: seq<Loc>, i: nat, chan: seq<Msg<T>>,
                    r: nat, results': seq<seq<T>>, loc': seq<Loc>)
    requires |loc| == |requests| == |results| == |loc'| == |results'| && r < |loc|
    requires ChanOk(cfg, requests, results, loc, i, chan) && forall k :: 0 <= k < |chan| ==> chan[k].req != r
    requires forall q :: 0 <= q < |loc| && q != r ==> loc'[q] == loc[q] && results'[q] == results[q]
    ensures ChanOk(cfg, requests, results', loc', i, chan)
  {
    forall k | 0 <= k < |chan|
      ensures Follows(requests, results', loc', Waiting(i), chan[k])
    {
      assert Follows(requests, results, loc, Waiting(i), chan[k]);
    }
  }

  /** Only request r has moved: threads and channels that do not hold it are as fine as before. */
  lemma OthersKept<T>(cfg: Config<T>, requests: seq<T>, s: State<T>, loc: seq<Loc>, r: nat, s': State<T>,
                      loc': seq<Loc>)
    requires Inv(cfg, requests, s, loc) && Shaped(cfg, requests, s') && |loc'| == |loc| && r < |loc|
    requires forall q :: 0 <= q < |loc| && q != r ==> loc'[q] == loc[q] && s'.results[q] == s.results[q]
    ensures forall i ::
              0 <= i < cfg.stages && s'.threads[i] == s.threads[i] && loc[r] != At(i) && loc[r] != Leaving(i) ==>
              ThreadOk(cfg, requests, s', loc', i)
    ensures forall i :: 0 <= i < cfg.stages && s'.chans[i] == s.chans[i] && loc[r] != Waiting(i) ==>
              ChanOk(cfg, requests, s'.results, loc', i, s'.chans[i])
  {
    forall i | 0 <= i < cfg.stages && s'.threads[i] == s.threads[i] && loc[r] != At(i) && loc[r] != Leaving(i)
      ensures ThreadOk(cfg, requests, s', loc', i)
    {
      assert ThreadOk(cfg, requests, s, loc, i);
    }
    forall i | 0 <= i < cfg.stages && s'.chans[i] == s.chans[i] && loc[r] != Waiting(i)
      ensures ChanOk(cfg, requests, s'.results, loc', i, s'.chans[i])
    {
      assert ChanOk(cfg, requests, s.results, loc, i, s.chans[i]);
      forall k | 0 <= k < |s.chans[i]|
        ensures s.chans[i][k].req != r
      {
        assert Follows(requests, s.results, loc, Waiting(i), s.chans[i][k]);
      }
      ChanKept(cfg, requests, s.results, loc, i, s.chans[i], r, s'.results, loc');
    }
  }

  /** The other requests' places are as fine as before, if no thread or channel lost one. */
  lemma PlacesKept<T>(cfg: Config<T>, requests: seq<T>, s: State<T>, loc: seq<Loc>, r: nat, s': State<T>,
                      loc': seq<Loc>)
    requires Inv(cfg, requests, s, loc) && Shaped(cfg, requests, s') && |loc'| == |loc| && r < |loc|
    requires forall q :: 0 <= q < |loc| && q != r ==> loc'[q] == loc[q] && s'.results[q] == s.results[q]
    requires s.next <= s'.next <= s.next + 1 && (s'.next > s.next ==> r == s.next)
    requires forall i :: 0 <= i < cfg.stages && s'.threads[i] != s.threads[i] ==>
               s.threads[i].Idle? || (s.threads[i].Working? && s.threads[i].msg.req == r) ||
                   (s.threads[i].Sending? && s.threads[i].out.req == r)
    requires forall i, k :: 0 <= i < cfg.stages && 0 <= k < |s.chans[i]| && s.chans[i][k].req != r ==>
               exists k' :: 0 <= k' < |s'.chans[i]| && s'.chans[i][k'].req == s.chans[i][k].req
    ensures forall q :: 0 <= q < |loc| && q != r ==> PlaceOk(cfg, requests, s', loc', q)
  {
    forall q | 0 <= q < |loc| && q != r
      ensures PlaceOk(cfg, requests, s', loc', q)
    {
      assert PlaceOk(cfg, requests, s, loc, q);
    }
  }

  ghost predicate ExitsOk<T>(s: State<T>)
    requires |s.chans| == |s.threads|
  {
    && (forall i :: 0 <= i < |s.threads| && s.threads[i].Exited? ==> s.dropped && s.chans[i] == [])
    && (forall i :: 1 <= i < |s.threads| && s.threads[i].Exited? ==> s.threads[i - 1].Exited?)
  }

  ghost predicate PlaceOk<T>(cfg: Config<T>, requests: seq<T>, s: State<T>, loc: seq<Loc>, r: nat)
    requires Shaped(cfg, requests, s) && |loc| == |requests| && r < |loc|
  {
    match loc[r]
    case NotSent => s.next <= r && s.results[r] == []
    case Waiting(i) =>
      && r < s.next && i < cfg.stages && |s.results[r]| == i && s.results[r] == Outputs(cfg, requests[r], i)
      && exists k :: 0 <= k < |s.chans[i]| && s.chans[i][k].req == r
    case At(i) =>
      && r < s.next && i < cfg.stages && |s.results[r]| == i && s.results[r] == Outputs(cfg, requests[r], i)
      && s.threads[i].Working? && s.threads[i].msg.req == r
    case Leaving(i) =>
      && r < s.next && i < cfg.stages && |s.results[r]| == i + 1 && s.results[r] == Outputs(cfg, requests[r], i + 1)
      && s.threads[i].Sending? && s.threads[i].out.req == r
    case Done => r < s.next && s.results[r] == Outputs(cfg, requests[r], cfg.stages)
  }

  function NextLoc<T>(cfg: Config<T>, requests: seq<T>, s: State<T>, loc: seq<Loc>, e: Event): (r: seq<Loc>)
    requires Shaped(cfg, requests, s) && Enabled(cfg, requests, s, e) && |loc| == |requests|
    ensures |r| == |loc|
  {
    match e
    case SendRequest => loc[s.next := Waiting(0)]
    case Receive(i) => if s.chans[i][0].req < |loc| then loc[s.chans[i][0].req := At(i)] else loc
    case RunStage(i) =>
      loc[s.threads[i].msg.req :=
            if cfg.run(i, s.threads[i].msg.text).Some? && i + 1 < cfg.stages then Leaving(i) else Done]
    case Forward(i) => if s.threads[i].out.req < |loc| then loc[s.threads[i].out.req := Waiting(i + 1)] else loc
    case _ => loc
  }

  lemma InitialOk<T>(cfg: Config<T>, requests: seq<T>)
    requires cfg.stages >= 1
    ensures Inv(cfg, requests, Initial(cfg, requests), seq(|requests|, _ => NotSent))
  {
  }

  lemma SendKeeps<T>(cfg: Config<T>, requests: seq<T>, s: State<T>, loc: seq<Loc>, s': State<T>, loc': seq<Loc>)
    requires Inv(cfg, requests, s, loc) && Enabled(cfg, requests, s, SendRequest)
    requires s' == Apply(cfg, requests, s, SendRequest) && loc' == NextLoc(cfg, requests, s, loc, SendRequest)
    ensures Inv(cfg, requests, s', loc')
  {
    var r := s.next;
    assert PlaceOk(cfg, requests, s, loc, r);
    OthersKept(cfg, requests, s, loc, r, s', loc');
    ChanAppended(cfg, requests, s.results, loc, 0, s.chans[0], s'.chans[0][|s.chans[0]|], s'.results, loc');
    AppendedHolds(s, s', 0, r);
    PlacesKept(cfg, requests, s, loc, r, s', loc');
    assert s'.chans[0][|s.chans[0]|].req == r;
  }

  /** A channel that only got longer holds what it held. */
  lemma AppendedHolds<T>(s: State<T>, s': State<T>, i: nat, r: nat)
    requires |s.chans| == |s'.chans| && i < |s.chans| && s.chans[i] <= s'.chans[i]
    requires forall j :: 0 <= j < |s.chans| && j != i ==> s'.chans[j] == s.chans[j]
    ensures forall j, k :: 0 <= j < |s.chans| && 0 <= k < |s.chans[j]| && s.chans[j][k].req != r ==>
              exists k' :: 0 <= k' < |s'.chans[j]| && s'.chans[j][k'].req == s.chans[j][k].req
  {
    forall j, k | 0 <= j < |s.chans| && 0 <= k < |s.chans[j]| && s.chans[j][k].req != r
      ensures exists k' :: 0 <= k' < |s'.chans[j]| && s'.chans[j][k'].req == s.chans[j][k].req
    {
      assert s'.chans[j][k].req == s.chans[j][k].req;
    }
  }

  lemma ChanAppended<T>(cfg: Config<T>, requests: seq<T>, results: seq<seq<T>>, loc: seq<Loc>, i: nat,
                        chan: seq<Msg<T>>,
                        m: Msg<T>, results': seq<seq<T>>, loc': seq<Loc>)
    requires |loc| == |requests| == |results| == |loc'| == |results'| && m.req < |loc|
    requires ChanOk(cfg, requests, results, loc, i, chan) && loc[m.req] != Waiting(i)
    requires forall q :: 0 <= q < |loc| && q != m.req ==> loc'[q] == loc[q] && results'[q] == results[q]
    requires Follows(requests, results', loc', Waiting(i), m) && |chan| + 1 <= Max(cfg.bound, 1)
    ensures ChanOk(cfg, requests, results', loc', i, chan + [m])
  {
    forall k | 0 <= k < |chan|
      ensures chan[k].req != m.req
    {
      assert Follows(requests, results, loc, Waiting(i), chan[k]);
    }
    ChanKept(cfg, requests, results, loc, i, chan, m.req, results', loc');
    forall k | 0 <= k < |chan| + 1
      ensures Follows(requests, results', loc', Waiting(i), (chan + [m])[k])
    {
      if k < |chan| { assert Follows(requests, results', loc', Waiting(i), chan[k]); }
    }
  }

  lemma ReceiveKeeps<T>(cfg: Config<T>, requests: seq<T>, s: State<T>, loc: seq<Loc>, i: nat, s': State<T>,
                        loc': seq<Loc>)
    requires Inv(cfg, requests, s, loc) && Enabled(cfg, requests, s, Receive(i))
    requires s' == Apply(cfg, requests, s, Receive(i)) && loc' == NextLoc(cfg, requests, s, loc, Receive(i))
    ensures Inv(cfg, requests, s', loc')
  {
    var m := s.chans[i][0];
    assert Follows(requests, s.results, loc, Waiting(i), m);
    assert PlaceOk(cfg, requests, s, loc, m.req);
    OthersKept(cfg, requests, s, loc, m.req, s', loc');
    ChanRest(cfg, requests, s.results, loc, i, s.chans[i]);
    ChanKept(cfg, requests, s.results, loc, i, s.chans[i][1..], m.req, s'.results, loc');
    forall j, k | 0 <= j < cfg.stages && 0 <= k < |s.chans[j]| && s.chans[j][k].req != m.req
      ensures exists k' :: 0 <= k' < |s'.chans[j]| && s'.chans[j][k'].req == s.chans[j][k].req
    {
      assert s'.chans[j][if j == i then k - 1 else k].req == s.chans[j][k].req;
    }
    PlacesKept(cfg, requests, s, loc, m.req, s', loc');
  }

  lemma ChanRest<T>(cfg: Config<T>, requests: seq<T>, results: seq<seq<T>>, loc: seq<Loc>, i: nat, chan: seq<Msg<T>>)
    requires |loc| == |requests| == |results| && chan != [] && ChanOk(cfg, requests, results, loc, i, chan)
    ensures ChanOk(cfg, requests, results, loc, i, chan[1..])
    ensures forall k :: 0 <= k < |chan[1..]| ==> chan[1..][k].req != chan[0].req
  {
    forall k | 0 <= k < |chan[1..]|
      ensures Follows(requests, results, loc, Waiting(i), chan[1..][k])
    {
      assert Follows(requests, results, loc, Waiting(i), chan[k + 1]);
    }
  }

  lemma RunKeeps<T>(cfg: Config<T>, requests: seq<T>, s: State<T>, loc: seq<Loc>, i: nat, s': State<T>, loc': seq<Loc>)
    requires Inv(cfg, requests, s, loc) && Enabled(cfg, requests, s, RunStage(i))
    requires s' == Apply(cfg, requests, s, RunStage(i)) && loc' == NextLoc(cfg, requests, s, loc, RunStage(i))
    ensures Inv(cfg, requests, s', loc')
  {
    var m := s.threads[i].msg;
    assert ThreadOk(cfg, requests, s, loc, i) && PlaceOk(cfg, requests, s, loc, m.req);
    assert ThreadsOk(cfg, requests, s', loc') && ChansOk(cfg, requests, s', loc') by {
      OthersKept(cfg, requests, s, loc, m.req, s', loc');
    }
    RunPlaces(cfg, requests, s, loc, i, s', loc');
  }

  /** Every request's place is right after a stage has run. */
  lemma RunPlaces<T>(cfg: Config<T>, requests: seq<T>, s: State<T>, loc: seq<Loc>, i: nat, s': State<T>,
                     loc': seq<Loc>)
    requires Inv(cfg, requests, s, loc) && Enabled(cfg, requests, s, RunStage(i))
    requires s' == Apply(cfg, requests, s, RunStage(i)) && loc' == NextLoc(cfg, requests, s, loc, RunStage(i))
    ensures forall q :: 0 <= q < |loc| ==> PlaceOk(cfg, requests, s', loc', q)
  {
    var m := s.threads[i].msg;
    assert ThreadOk(cfg, requests, s, loc, i) && PlaceOk(cfg, requests, s, loc, m.req);
    OutputsGrow(cfg, requests[m.req], i + 1, cfg.stages);
    PlacesKept(cfg, requests, s, loc, m.req, s', loc');
    assert PlaceOk(cfg, requests, s', loc', m.req);
  }

  lemma ForwardKeeps<T>(cfg: Config<T>, requests: seq<T>, s: State<T>, loc: seq<Loc>, i: nat, s': State<T>,
                        loc': seq<Loc>)
    requires Inv(cfg, requests, s, loc) && Enabled(cfg, requests, s, Forward(i))
    requires s' == Apply(cfg, requests, s, Forward(i)) && loc' == NextLoc(cfg, requests, s, loc, Forward(i))
    ensures Inv(cfg, requests, s', loc')
  {
    var m := s.threads[i].out;
    assert ThreadOk(cfg, requests, s, loc, i) && PlaceOk(cfg, requests, s, loc, m.req);
    assert ThreadsOk(cfg, requests, s', loc') by {
      OthersKept(cfg, requests, s, loc, m.req, s', loc');
    }
    assert ChansOk(cfg, requests, s', loc') by {
      ForwardChans(cfg, requests, s, loc, i, m, s', loc');
    }
    ForwardPlaces(cfg, requests, s, loc, i, s', loc');
  }

  lemma ForwardPlaces<T>(cfg: Config<T>, requests: seq<T>, s: State<T>, loc: seq<Loc>, i: nat, s': State<T>,
                         loc': seq<Loc>)
    requires Inv(cfg, requests, s, loc) && Enabled(cfg, requests, s, Forward(i))
    requires s' == Apply(cfg, requests, s, Forward(i)) && loc' == NextLoc(cfg, requests, s, loc, Forward(i))
    ensures forall q :: 0 <= q < |loc| ==> PlaceOk(cfg, requests, s', loc', q)
  {
    var m := s.threads[i].out;
    assert ThreadOk(cfg, requests, s, loc, i) && PlaceOk(cfg, requests, s, loc, m.req);
    AppendedHolds(s, s', i + 1, m.req);
    PlacesKept(cfg, requests, s, loc, m.req, s', loc');
    assert s'.chans[i + 1][|s.chans[i + 1]|].req == m.req;
  }

  lemma ForwardChans<T>(cfg: Config<T>, requests: seq<T>, s: State<T>, loc: seq<Loc>, i: nat, m: Msg<T>, s': State<T>,
                        loc': seq<Loc>)
    requires Inv(cfg, requests, s, loc) && Shaped(cfg, requests, s') && i + 1 < cfg.stages && CanSend(cfg, s, i + 1)
    requires m.req < |loc| && loc[m.req] == Leaving(i) && loc' == loc[m.req := Waiting(i + 1)]
    requires Follows(requests, s.results, loc, Leaving(i), m) && s'.results == s.results
    requires s'.chans == s.chans[i + 1 := s.chans[i + 1] + [m]]
    ensures ChansOk(cfg, requests, s', loc')
  {
    OthersKept(cfg, requests, s, loc, m.req, s', loc');
    ChanAppended(cfg, requests, s.results, loc, i + 1, s.chans[i + 1], m, s'.results, loc');
  }

  lemma ExitKeeps<T>(cfg: Config<T>, requests: seq<T>, s: State<T>, loc: seq<Loc>, e: Event, s': State<T>)
    requires Inv(cfg, requests, s, loc) && Enabled(cfg, requests, s, e) && (e.Exit? || e.DropSenders?)
    requires s' == Apply(cfg, requests, s, e)
    ensures Inv(cfg, requests, s', loc)
  {
    forall r | 0 <= r < |loc|
      ensures PlaceOk(cfg, requests, s', loc, r)
    {
      assert PlaceOk(cfg, requests, s, loc, r);
    }
    forall k | 0 <= k < cfg.stages
      ensures ThreadOk(cfg, requests, s', loc, k)
    {
      assert ThreadOk(cfg, requests, s, loc, k);
    }
  }

  lemma StepKeeps<T>(cfg: Config<T>, requests: seq<T>, s: State<T>, loc: seq<Loc>, e: Event)
    requires Inv(cfg, requests, s, loc) && Enabled(cfg, requests, s, e)
    ensures Inv(cfg, requests, Apply(cfg, requests, s, e), NextLoc(cfg, requests, s, loc, e))
  {
    var s', loc' := Apply(cfg, requests, s, e), NextLoc(cfg, requests, s, loc, e);
    match e
    case SendRequest => SendKeeps(cfg, requests, s, loc, s', loc');
    case Receive(i) => ReceiveKeeps(cfg, requests, s, loc, i, s', loc');
    case RunStage(i) => RunKeeps(cfg, requests, s, loc, i, s', loc');
    case Forward(i) => ForwardKeeps(cfg, requests, s, loc, i, s', loc');
    case _ => ExitKeeps(cfg, requests, s, loc, e, s');
  }

  // ----- progress -----

  /** No deadlock: until every thread has exited, some step can be taken. */
  lemma SomeStepEnabled<T>(cfg: Config<T>, requests: seq<T>, s: State<T>, loc: seq<Loc>)
    requires Inv(cfg, requests, s, loc) && !AllExited(s)
    ensures exists e :: Enabled(cfg, requests, s, e)
  {
    if i :| 0 <= i < cfg.stages && s.threads[i].Working? {
      assert ThreadOk(cfg, requests, s, loc, i);
      assert Enabled(cfg, requests, s, RunStage(i));
    } else if i :| 0 <= i < cfg.stages && s.threads[i].Idle? && s.chans[i] != [] {
      assert Enabled(cfg, requests, s, Receive(i));
    } else if i :| 0 <= i < cfg.stages && s.threads[i].Sending? {
      var k := LastSending(s, i);
      assert ThreadOk(cfg, requests, s, loc, k);
      assert Enabled(cfg, requests, s, Forward(k));
    } else if !s.dropped {
      assert s.threads[0].Idle? && s.chans[0] == [];
      assert Enabled(cfg, requests, s, if s.next < |requests| then SendRequest else DropSenders);
    } else {
      var k := FirstNotExited(s, 0);
      assert Enabled(cfg, requests, s, Exit(k));
    }
  }

  lemma LastSending<T>(s: State<T>, i: nat) returns (k: nat)
    requires i < |s.threads| && s.threads[i].Sending?
    ensures i <= k < |s.threads| && s.threads[k].Sending?
    ensures k + 1 < |s.threads| ==> !s.threads[k + 1].Sending?
    decreases |s.threads| - i
  {
    if i + 1 < |s.threads| && s.threads[i + 1].Sending? {
      k := LastSending(s, i + 1);
    } else {
      k := i;
    }
  }

  lemma FirstNotExited<T>(s: State<T>, i: nat) returns (k: nat)
    requires i < |s.threads| && !AllExited(s) && forall j :: 0 <= j < i ==> s.threads[j].Exited?
    ensures k < |s.threads| && !s.threads[k].Exited? && forall j :: 0 <= j < k ==> s.threads[j].Exited?
    decreases |s.threads| - i
  {
    if s.threads[i].Exited? {
      if i + 1 == |s.threads| { assert AllExited(s); }
      k := FirstNotExited(s, i + 1);
    } else {
      k := i;
    }
  }

  /** Steps a request may still take. */
  function Left(stages: nat, place: Loc): int
  {
    match place
    case NotSent => 3 * stages + 1
    case Waiting(i) => 3 * (stages - i)
    case At(i) => 3 * (stages - i) - 1
    case Leaving(i) => 3 * (stages - i) - 2
    case Done => 0
  }

  function LeftAll(stages: nat, loc: seq<Loc>): int
  {
    if loc == [] then 0 else LeftAll(stages, loc[..|loc| - 1]) + Left(stages, loc[|loc| - 1])
  }

  function Running<T>(threads: seq<Thread<T>>): nat
  {
    if threads == [] then 0
    else Running(threads[..|threads| - 1]) + if threads[|threads| - 1].Exited? then 0 else 1
  }

  function Measure<T>(cfg: Config<T>, s: State<T>, loc: seq<Loc>): int
  {
    LeftAll(cfg.stages, loc) + Running(s.threads) + if s.dropped then 0 else 1
  }

  lemma {:induction false} LeftAllUpdated(stages: nat, loc: seq<Loc>, r: nat, place: Loc)
    requires r < |loc|
    ensures LeftAll(stages, loc[r := place]) == LeftAll(stages, loc) - Left(stages, loc[r]) + Left(stages, place)
  {
    var last := |loc| - 1;
    if r == last {
      assert loc[r := place][..last] == loc[..last];
    } else {
      LeftAllUpdated(stages, loc[..last], r, place);
      assert loc[r := place][..last] == loc[..last][r := place];
    }
  }

  lemma {:induction false} RunningUpdated<T>(threads: seq<Thread<T>>, i: nat, t: Thread<T>)
    requires i < |threads|
    ensures Running(threads[i := t])
         == Running(threads) - (if threads[i].Exited? then 0 else 1) + (if t.Exited? then 0 else 1)
  {
    var last := |threads| - 1;
    if i == last {
      assert threads[i := t][..last] == threads[..last];
    } else {
      RunningUpdated(threads[..last], i, t);
      assert threads[i := t][..last] == threads[..last][i := t];
    }
  }

  lemma StepLeft<T>(cfg: Config<T>, requests: seq<T>, s: State<T>, loc: seq<Loc>, e: Event)
    requires Inv(cfg, requests, s, loc) && Enabled(cfg, requests, s, e)
    ensures LeftAll(cfg.stages, NextLoc(cfg, requests, s, loc, e)) <= LeftAll(cfg.stages, loc)
    ensures !e.DropSenders? && !e.Exit? ==>
        LeftAll(cfg.stages, NextLoc(cfg, requests, s, loc, e)) < LeftAll(cfg.stages, loc)
  {
    match e
    case SendRequest =>
      assert PlaceOk(cfg, requests, s, loc, s.next);
      LeftAllUpdated(cfg.stages, loc, s.next, Waiting(0));
    case Receive(i) =>
      assert Follows(requests, s.results, loc, Waiting(i), s.chans[i][0]);
      LeftAllUpdated(cfg.stages, loc, s.chans[i][0].req, At(i));
    case RunStage(i) =>
      assert ThreadOk(cfg, requests, s, loc, i);
      LeftAllUpdated(cfg.stages, loc, s.threads[i].msg.req, NextLoc(cfg, requests, s, loc, e)[s.threads[i].msg.req]);
    case Forward(i) =>
      assert ThreadOk(cfg, requests, s, loc, i);
      LeftAllUpdated(cfg.stages, loc, s.threads[i].out.req, Waiting(i + 1));
    case _ =>
  }

  lemma StepRunning<T>(cfg: Config<T>, requests: seq<T>, s: State<T>, e: Event)
    requires Shaped(cfg, requests, s) && Enabled(cfg, requests, s, e)
    ensures Running(Apply(cfg, requests, s, e).threads) == Running(s.threads) - if e.Exit? then 1 else 0
  {
    var s' := Apply(cfg, requests, s, e);
    if e.Receive? || e.RunStage? || e.Forward? || e.Exit? {
      RunningUpdated(s.threads, e.i, s'.threads[e.i]);
    }
  }

  /** Every step brings the end nearer. */
  lemma StepDecreases<T>(cfg: Config<T>, requests: seq<T>, s: State<T>, loc: seq<Loc>, e: Event)
    requires Inv(cfg, requests, s, loc) && Enabled(cfg, requests, s, e)
    ensures Measure(cfg, Apply(cfg, requests, s, e), NextLoc(cfg, requests, s, loc, e)) < Measure(cfg, s, loc)
  {
    StepLeft(cfg, requests, s, loc, e);
    StepRunning(cfg, requests, s, e);
  }

  lemma {:induction false} LeftAllBounds<T>(cfg: Config<T>, requests: seq<T>, s: State<T>, loc: seq<Loc>, n: nat)
    requires Inv(cfg, requests, s, loc) && n <= |loc|
    ensures LeftAll(cfg.stages, loc[..n]) >= 0
  {
    if n > 0 {
      LeftAllBounds(cfg, requests, s, loc, n - 1);
      assert loc[..n][..n - 1] == loc[..n - 1];
      assert PlaceOk(cfg, requests, s, loc, n - 1);
    }
  }

  // ----- whole runs -----

  /** A run: any interleaving of the main thread and the stage threads. */
  ghost predicate IsRun<T>(cfg: Config<T>, requests: seq<T>, run: seq<State<T>>, events: seq<Event>)
  {
    && |run| == |events| + 1 && run[0] == Initial(cfg, requests)
    && forall k :: 0 <= k < |events| ==> Took(cfg, requests, run[k], events[k], run[k + 1])
  }

  ghost predicate Took<T>(cfg: Config<T>, requests: seq<T>, s: State<T>, e: Event, s': State<T>)
  {
    Shaped(cfg, requests, s) && Enabled(cfg, requests, s, e) && s' == Apply(cfg, requests, s, e)
  }

  lemma {:induction false} RunKeepsInv<T>(cfg: Config<T>, requests: seq<T>, run: seq<State<T>>, events: seq<Event>,
                                          k: nat)
    returns (loc: seq<Loc>)
    requires cfg.stages >= 1 && IsRun(cfg, requests, run, events) && k <= |events|
    ensures Inv(cfg, requests, run[k], loc)
    ensures Measure(cfg, run[k], loc) + k <= Measure(cfg, Initial(cfg, requests), seq(|requests|, _ => NotSent))
  {
    if k == 0 {
      InitialOk(cfg, requests);
      loc := seq(|requests|, _ => NotSent);
    } else {
      var before := RunKeepsInv(cfg, requests, run, events, k - 1);
      assert Took(cfg, requests, run[k - 1], events[k - 1], run[k]);
      StepKeeps(cfg, requests, run[k - 1], before, events[k - 1]);
      StepDecreases(cfg, requests, run[k - 1], before, events[k - 1]);
      loc := NextLoc(cfg, requests, run[k - 1], before, events[k - 1]);
    }
  }

  /** Safety: at every moment of every run, what is recorded for a request is a prefix of what
      running it alone through the stages gives. */
  lemma RecordedIsPrefix<T>(cfg: Config<T>, requests: seq<T>, run: seq<State<T>>, events: seq<Event>, k: nat, r: nat)
    requires cfg.stages >= 1 && IsRun(cfg, requests, run, events) && k <= |events| && r < |requests|
    ensures |run[k].results| == |requests| && run[k].results[r] <= Outputs(cfg, requests[r], cfg.stages)
  {
    var loc := RunKeepsInv(cfg, requests, run, events, k);
    assert PlaceOk(cfg, requests, run[k], loc, r);
    OutputsGrow(cfg, requests[r], |run[k].results[r]|, cfg.stages);
    OutputsGrow(cfg, requests[r], if loc[r].Done? then cfg.stages else |run[k].results[r]|, cfg.stages);
  }

  /** No deadlock, in any run: a state with no step left is one where every thread has exited. */
  lemma StuckMeansDone<T>(cfg: Config<T>, requests: seq<T>, run: seq<State<T>>, events: seq<Event>)
    requires cfg.stages >= 1 && IsRun(cfg, requests, run, events)
    ensures Shaped(cfg, requests, run[|events|])
    ensures AllExited(run[|events|]) <==> !exists e :: Enabled(cfg, requests, run[|events|], e)
  {
    var s := run[|events|];
    var loc := RunKeepsInv(cfg, requests, run, events, |events|);
    if !AllExited(s) {
      SomeStepEnabled(cfg, requests, s, loc);
    } else if e :| Enabled(cfg, requests, s, e) {
      assert s.threads[0].Exited?;
    }
  }

  /** Every run ends: it has at most this many steps. */
  lemma RunsAreShort<T>(cfg: Config<T>, requests: seq<T>, run: seq<State<T>>, events: seq<Event>)
    requires cfg.stages >= 1 && IsRun(cfg, requests, run, events)
    ensures |events| <= Measure(cfg, Initial(cfg, requests), seq(|requests|, _ => NotSent))
  {
    var loc := RunKeepsInv(cfg, requests, run, events, |events|);
    LeftAllBounds(cfg, requests, run[|events|], loc, |loc|);
    assert loc[..|loc|] == loc;
  }

  /** `execute_concurrent`'s answers: an error for a request with nothing recorded. */
  function Answers<T>(s: State<T>): seq<Option<seq<T>>>
  {
    seq(|s.results|, r requires 0 <= r < |s.results| => if s.results[r] == [] then None else Some(s.results[r]))
  }

  /** The outcome does not depend on the schedule: each request ends with its outputs up to its
      first failing stage, or an error when the first stage fails. */
  lemma FinalAnswers<T>(cfg: Config<T>, requests: seq<T>, run: seq<State<T>>, events: seq<Event>, r: nat)
    requires cfg.stages >= 1 && IsRun(cfg, requests, run, events) && AllExited(run[|events|]) && r < |requests|
    ensures
      var outs := Outputs(cfg, requests[r], cfg.stages);
      |run[|events|].results| == |requests| && Answers(run[|events|])[r] == if outs == [] then None else Some(outs)
    ensures exists outs ::
      && IsChain(cfg, requests[r], outs, cfg.stages)
      && Answers(run[|events|])[r] == if outs == [] then None else Some(outs)
  {
    OutputsChain(cfg, requests[r], cfg.stages);
    var s := run[|events|];
    var loc := RunKeepsInv(cfg, requests, run, events, |events|);
    assert PlaceOk(cfg, requests, s, loc, r);
    assert s.threads[0].Exited?;
  }

  /** A request's answer is the one `execute` gives exactly when all its stages succeed, or its
      first one fails; a later failure gives an error there, and a partial list here. */
  lemma AgreesWithExecute<T>(cfg: Config<T>, requests: seq<T>, run: seq<State<T>>, events: seq<Event>, r: nat)
    requires cfg.stages >= 1 && IsRun(cfg, requests, run, events) && AllExited(run[|events|]) && r < |requests|
    ensures
      var outs := Outputs(cfg, requests[r], cfg.stages);
      |run[|events|].results| == |requests| &&
      (Answers(run[|events|])[r] == (if |outs| == cfg.stages then Some(outs) else None)
       <==> |outs| == cfg.stages || cfg.run(0, requests[r]).None?)
  {
    FinalAnswers(cfg, requests, run, events, r);
    OutputsGrow(cfg, requests[r], 1, cfg.stages);
    assert Outputs(cfg, requests[r], 0) == [];
    assert Outputs(cfg, requests[r], 1)
        == if cfg.run(0, requests[r]).Some? then [cfg.run(0, requests[r]).value] else [];
  }
}
