// Prefill of a prompt, in one slice or chunk by chunk, against a cache whose reads return what
// was last stored.
module Prefill {
  import opened Common

  const PREFILL_CHUNK_SIZE: nat := 4096

  /** One transformer network: the float work of each stage, uninterpreted, over vectors V.
      `attend` sees the keys and values of positions 0..pos, in order; `mix` is the output
      projection, the residuals and the FFN. */
  datatype Net<!Tok, !V> = Net(
    embed: Tok -> V, project: (nat, V) -> (V, V, V), rope: (nat, V, V) -> (V, V),
    attend: (nat, V, seq<(V, V)>) -> V, mix: (nat, V, V) -> V, zero: V)

  // ----- what the network computes, position by position -----

  /** Hidden state of position p before layer l (after the last layer, for l the layer count). */
  function Hidden<Tok, V>(net: Net<Tok, V>, prompt: seq<Tok>, l: nat, p: nat): V
    requires p < |prompt|
    decreases l, 0
  {
    if l == 0 then net.embed(prompt[p])
    else
      var (q, _) := QKv(net, prompt, l - 1, p);
      net.mix(l - 1, Hidden(net, prompt, l - 1, p), net.attend(l - 1, q, Context(net, prompt, l - 1, p)))
  }

  /** Query, and key with value, of position p at layer l. */
  function QKv<Tok, V>(net: Net<Tok, V>, prompt: seq<Tok>, l: nat, p: nat): (V, (V, V))
    requires p < |prompt|
    decreases l, 1
  {
    var (q, k, v) := net.project(l, Hidden(net, prompt, l, p));
    var (q', k') := net.rope(p, q, k);
    (q', (k', v))
  }

  /** Keys and values of positions 0..p at layer l. */
  function Context<Tok, V>(net: Net<Tok, V>, prompt: seq<Tok>, l: nat, p: nat): (r: seq<(V, V)>)
    requires p < |prompt|
    ensures |r| == p + 1
    decreases l, 2
  {
    seq(p + 1, i requires 0 <= i <= p => QKv(net, prompt, l, i).1)
  }

  /** A position's hidden state and keys depend on no later token. */
  lemma {:induction false} LaterTokensDoNotMatter<Tok, V>(
      net: Net<Tok, V>, prompt: seq<Tok>, other: seq<Tok>, l: nat, p: nat)
    requires p < |prompt| && p < |other| && forall i :: 0 <= i <= p ==> prompt[i] == other[i]
    ensures Hidden(net, prompt, l, p) == Hidden(net, other, l, p)
    ensures QKv(net, prompt, l, p) == QKv(net, other, l, p)
    decreases l
  {
    if l > 0 {
      forall i {:trigger QKv(net, prompt, l - 1, i)} | 0 <= i <= p
        ensures QKv(net, prompt, l - 1, i) == QKv(net, other, l - 1, i)
      {
        LaterTokensDoNotMatter(net, prompt, other, l - 1, i);
      }
      LaterTokensDoNotMatter(net, prompt, other, l - 1, p);
      assert Context(net, prompt, l - 1, p) == Context(net, other, l - 1, p);
    }
  }

  // ----- the cache and the loops -----

  /** A layer's entries for positions 0..p. */
  function EntriesUpto<V>(entries: map<(nat, nat), (V, V)>, l: nat, p: nat): (r: seq<(V, V)>)
    requires forall i: nat {:trigger (l, i) in entries} :: i <= p ==> (l, i) in entries
    ensures |r| == p + 1 && forall i :: 0 <= i <= p ==> r[i] == entries[(l, i)]
  {
    seq(p + 1, i requires 0 <= i <= p requires (l, i) in entries => entries[(l, i)])
  }

  class KVStore<V> {
    var entries: map<(nat, nat), (V, V)>

    method SaveAt(layer: nat, pos: nat, k: V, v: V)
      modifies this
      ensures entries == old(entries)[(layer, pos) := (k, v)]
    {
      entries := entries[(layer, pos) := (k, v)];
    }

    /** What attention at a position reads: the entries of positions 0..pos. */
    function Upto(layer: nat, pos: nat): (r: seq<(V, V)>)
      requires forall i: nat {:trigger (layer, i) in entries} :: i <= pos ==> (layer, i) in entries
      reads this
      ensures |r| == pos + 1 && forall i :: 0 <= i <= pos ==> r[i] == entries[(layer, i)]
    {
      EntriesUpto(entries, layer, pos)
    }
  }

  /** Between the two stores, exactly the entries of layers fromL..toL-1 at positions from..to-1
      were written, each with the network's own key and value. */
  ghost predicate Wrote<Tok, V>(net: Net<Tok, V>, prompt: seq<Tok>,
      before: map<(nat, nat), (V, V)>, after: map<(nat, nat), (V, V)>, fromL: nat, toL: nat, from: nat, to: nat)
    requires to <= |prompt|
  {
    forall l: nat, p: nat {:trigger (l, p) in after} ::
      if fromL <= l < toL && from <= p < to then (l, p) in after && after[(l, p)] == QKv(net, prompt, l, p).1
      else ((l, p) in after <==> (l, p) in before) && ((l, p) in before ==> after[(l, p)] == before[(l, p)])
  }

  lemma WroteMoreLayers<Tok, V>(net: Net<Tok, V>, prompt: seq<Tok>,
      a: map<(nat, nat), (V, V)>, b: map<(nat, nat), (V, V)>, c: map<(nat, nat), (V, V)>, l: nat, from: nat, to: nat)
    requires to <= |prompt| && Wrote(net, prompt, a, b, 0, l, from, to) && Wrote(net, prompt, b, c, l, l + 1, from, to)
    ensures Wrote(net, prompt, a, c, 0, l + 1, from, to)
  {
    forall k: nat, p: nat {:trigger (k, p) in c}
      ensures if 0 <= k < l + 1 && from <= p < to then (k, p) in c && c[(k, p)] == QKv(net, prompt, k, p).1
        else ((k, p) in c <==> (k, p) in a) && ((k, p) in a ==> c[(k, p)] == a[(k, p)])
    {
      var inB := (k, p) in b;
    }
  }

  lemma WroteMorePositions<Tok, V>(net: Net<Tok, V>, prompt: seq<Tok>,
      a: map<(nat, nat), (V, V)>, b: map<(nat, nat), (V, V)>, c: map<(nat, nat), (V, V)>,
      layers: nat, mid: nat, to: nat)
    requires mid <= to <= |prompt|
    requires Wrote(net, prompt, a, b, 0, layers, 0, mid) && Wrote(net, prompt, b, c, 0, layers, mid, to)
    ensures Wrote(net, prompt, a, c, 0, layers, 0, to)
  {
    forall k: nat, p: nat {:trigger (k, p) in c}
      ensures if 0 <= k < layers && 0 <= p < to then (k, p) in c && c[(k, p)] == QKv(net, prompt, k, p).1
        else ((k, p) in c <==> (k, p) in a) && ((k, p) in a ==> c[(k, p)] == a[(k, p)])
    {
      var inB := (k, p) in b;
    }
  }

  /** What was written, and where, fixes the whole store. */
  lemma WroteDetermines<Tok, V>(net: Net<Tok, V>, prompt: seq<Tok>,
      before: map<(nat, nat), (V, V)>, b: map<(nat, nat), (V, V)>, c: map<(nat, nat), (V, V)>, layers: nat, n: nat)
    requires n <= |prompt|
    requires Wrote(net, prompt, before, b, 0, layers, 0, n) && Wrote(net, prompt, before, c, 0, layers, 0, n)
    ensures b == c
  {
    forall key: (nat, nat)
      ensures key in b <==> key in c
      ensures key in b ==> b[key] == c[key]
    {
      assert ((key.0, key.1) in b) == ((key.0, key.1) in c);
    }
  }

  /** The store holds layer l's keys and values of the prompt's first n positions. */
  ghost predicate LayerStored<Tok, V>(net: Net<Tok, V>, prompt: seq<Tok>, entries: map<(nat, nat), (V, V)>, l: nat,
                                      n: nat)
    requires n <= |prompt|
  {
    forall p: nat {:trigger (l, p) in entries} :: p < n ==>
        (l, p) in entries && entries[(l, p)] == QKv(net, prompt, l, p).1
  }

  /** The rows are the hidden states before layer l of the positions from offset on. */
  ghost predicate Rows<Tok, V>(net: Net<Tok, V>, prompt: seq<Tok>, l: nat, offset: nat, rows: seq<V>)
    requires offset + |rows| <= |prompt|
  {
    forall t :: 0 <= t < |rows| ==> rows[t] == Hidden(net, prompt, l, offset + t)
  }

  ghost predicate Queries<Tok, V>(net: Net<Tok, V>, prompt: seq<Tok>, l: nat, offset: nat, qs: seq<V>)
    requires offset + |qs| <= |prompt|
  {
    forall t :: 0 <= t < |qs| ==> qs[t] == QKv(net, prompt, l, offset + t).0
  }

  /** Queries, keys and values of one layer for a slice: project every token, then rotate by
      absolute position and store, in order. */
  method StoreLayer<Tok, V>(net: Net<Tok, V>, ghost prompt: seq<Tok>, l: nat, offset: nat,
                            xs: array<V>, qs: array<V>, ks: array<V>, vs: array<V>, store: KVStore<V>)
    requires xs.Length == qs.Length == ks.Length == vs.Length && offset + xs.Length <= |prompt|
    requires xs != qs && xs != ks && xs != vs && qs != ks && qs != vs && ks != vs
    requires Rows(net, prompt, l, offset, xs[..])
    modifies qs, ks, vs, store
    ensures Queries(net, prompt, l, offset, qs[..])
    ensures Wrote(net, prompt, old(store.entries), store.entries, l, l + 1, offset, offset + xs.Length)
  {
    for t := 0 to xs.Length
      invariant forall u :: 0 <= u < t ==> (qs[u], ks[u], vs[u]) == net.project(l, xs[u])
      invariant store.entries == old(store.entries)
    {
      var (q, k, v) := net.project(l, xs[t]);
      qs[t], ks[t], vs[t] := q, k, v;
    }
    for t := 0 to xs.Length
      invariant forall u :: t <= u < xs.Length ==> (qs[u], ks[u], vs[u]) == net.project(l, xs[u])
      invariant forall u :: 0 <= u < t ==> qs[u] == QKv(net, prompt, l, offset + u).0
      invariant Wrote(net, prompt, old(store.entries), store.entries, l, l + 1, offset, offset + t)
    {
      assert xs[t] == xs[..][t];
      var (q, k) := net.rope(offset + t, qs[t], ks[t]);
      assert (q, (k, vs[t])) == QKv(net, prompt, l, offset + t);
      qs[t], ks[t] := q, k;
      store.SaveAt(l, offset + t, k, vs[t]);
    }
  }

  /** Attention of one layer for a slice: position p reads the stored positions 0..p only. */
  method AttendLayer<Tok, V>(net: Net<Tok, V>, ghost prompt: seq<Tok>, l: nat, offset: nat,
                             qs: array<V>, outs: array<V>, store: KVStore<V>)
    requires qs.Length == outs.Length && offset + qs.Length <= |prompt| && qs != outs
    requires Queries(net, prompt, l, offset, qs[..])
    requires LayerStored(net, prompt, store.entries, l, offset + qs.Length)
    modifies outs
    ensures Attended(net, prompt, l, offset, outs[..])
  {
    for t := 0 to qs.Length
      invariant forall u :: 0 <= u < t ==> outs[u] == AttendedAt(net, prompt, l, offset + u)
    {
      assert qs[t] == qs[..][t];
      var seen := store.Upto(l, offset + t);
      forall i | 0 <= i <= offset + t
        ensures seen[i] == QKv(net, prompt, l, i).1
      {
        var stored := (l, i) in store.entries;
      }
      assert seen == Context(net, prompt, l, offset + t);
      outs[t] := net.attend(l, qs[t], seen);
    }
  }

  ghost function AttendedAt<Tok, V>(net: Net<Tok, V>, prompt: seq<Tok>, l: nat, p: nat): V
    requires p < |prompt|
  {
    net.attend(l, QKv(net, prompt, l, p).0, Context(net, prompt, l, p))
  }

  ghost predicate Attended<Tok, V>(net: Net<Tok, V>, prompt: seq<Tok>, l: nat, offset: nat, outs: seq<V>)
    requires offset + |outs| <= |prompt|
  {
    forall t :: 0 <= t < |outs| ==> outs[t] == AttendedAt(net, prompt, l, offset + t)
  }

  /** Projection, residuals and FFN of one layer: the rows move on to the next layer. */
  method MixLayer<Tok, V>(net: Net<Tok, V>, ghost prompt: seq<Tok>, l: nat, offset: nat, xs: array<V>, outs: array<V>)
    requires xs.Length == outs.Length && offset + xs.Length <= |prompt| && xs != outs
    requires Rows(net, prompt, l, offset, xs[..]) && Attended(net, prompt, l, offset, outs[..])
    modifies xs
    ensures Rows(net, prompt, l + 1, offset, xs[..])
  {
    for t := 0 to xs.Length
      invariant forall u :: 0 <= u < t ==> xs[u] == Hidden(net, prompt, l + 1, offset + u)
      invariant forall u :: t <= u < xs.Length ==> xs[u] == old(xs[u])
    {
      assert old(xs[t]) == old(xs[..])[t] && outs[t] == outs[..][t];
      xs[t] := net.mix(l, xs[t], outs[t]);
    }
  }

  // ----- what the loops leave, in terms of the network's own stages -----

  /** One token at one layer: its key is rotated by the absolute position p and stored with its
      value; its rotated query attends to the entries stored for 0..p; its state moves on. */
  ghost predicate Advances<Tok, V>(net: Net<Tok, V>, entries: map<(nat, nat), (V, V)>, l: nat, p: nat, x: V, next: V)
  {
    var (q, k, v) := net.project(l, x);
    var (rotatedQ, rotatedK) := net.rope(p, q, k);
    && (forall i: nat {:trigger (l, i) in entries} :: i <= p ==> (l, i) in entries)
    && entries[(l, p)] == (rotatedK, v)
    && next == net.mix(l, x, net.attend(l, rotatedQ, EntriesUpto(entries, l, p)))
  }

  /** Rows of states, one for each layer and one after the last, that start as the tokens'
      embeddings and move on from layer to layer against the entries stored. */
  ghost predicate Transforms<Tok, V>(net: Net<Tok, V>, layers: nat, tokens: seq<Tok>, offset: nat,
                                     states: seq<seq<V>>, entries: map<(nat, nat), (V, V)>)
  {
    && |states| == layers + 1 && (forall l :: 0 <= l <= layers ==> |states[l]| == |tokens|)
    && (forall t :: 0 <= t < |tokens| ==> states[0][t] == net.embed(tokens[t]))
    && forall l: nat, t: nat {:trigger states[l][t]} :: l < layers && t < |tokens| ==>
         Advances(net, entries, l, offset + t, states[l][t], states[l + 1][t])
  }

  /** The answer is the last token's state after the last layer. */
  ghost predicate Answers<V>(states: seq<seq<V>>, last: Option<V>)
    requires states != []
  {
    var row := states[|states| - 1];
    last == if row == [] then None else Some(row[|row| - 1])
  }

  ghost function States<Tok, V>(net: Net<Tok, V>, prompt: seq<Tok>, layers: nat, offset: nat, n: nat)
    : (r: seq<seq<V>>)
    requires offset + n <= |prompt|
    ensures |r| == layers + 1 && forall l :: 0 <= l <= layers ==> |r[l]| == n
    ensures forall l: nat, t: nat {:trigger r[l][t]} :: l <= layers && t < n ==>
        r[l][t] == Hidden(net, prompt, l, offset + t)
  {
    seq(layers + 1, l requires l >= 0 => seq(n, t requires 0 <= t < n => Hidden(net, prompt, l, offset + t)))
  }

  lemma StatesTransform<Tok, V>(net: Net<Tok, V>, prompt: seq<Tok>, layers: nat, tokens: seq<Tok>, offset: nat,
                                upto: nat, entries: map<(nat, nat), (V, V)>)
    requires upto == offset + |tokens| <= |prompt| && forall t :: 0 <= t < |tokens| ==> tokens[t] == prompt[offset + t]
    requires forall l :: 0 <= l < layers ==> LayerStored(net, prompt, entries, l, upto)
    ensures Transforms(net, layers, tokens, offset, States(net, prompt, layers, offset, |tokens|), entries)
  {
    var states := States(net, prompt, layers, offset, |tokens|);
    forall t | 0 <= t < |tokens|
      ensures states[0][t] == net.embed(tokens[t])
    {
      assert states[0][t] == Hidden(net, prompt, 0, offset + t);
    }
    forall l: nat, t: nat {:trigger states[l][t]} | l < layers && t < |tokens|
      ensures Advances(net, entries, l, offset + t, states[l][t], states[l + 1][t])
    {
      HiddenAdvances(net, prompt, entries, l, offset + t, upto);
      assert states[l + 1][t] == Hidden(net, prompt, l + 1, offset + t);
    }
  }

  lemma ContextStored<Tok, V>(net: Net<Tok, V>, prompt: seq<Tok>, entries: map<(nat, nat), (V, V)>, l: nat, p: nat)
    requires p < |prompt| && LayerStored(net, prompt, entries, l, p + 1)
    ensures forall i: nat {:trigger (l, i) in entries} :: i <= p ==> (l, i) in entries
    ensures EntriesUpto(entries, l, p) == Context(net, prompt, l, p)
  {
    var seen, context := EntriesUpto(entries, l, p), Context(net, prompt, l, p);
    forall i | 0 <= i <= p
      ensures seen[i] == context[i]
    {
      var stored := (l, i) in entries;
    }
  }

  lemma HiddenAdvances<Tok, V>(net: Net<Tok, V>, prompt: seq<Tok>, entries: map<(nat, nat), (V, V)>, l: nat, p: nat,
                               n: nat)
    requires p < n <= |prompt| && LayerStored(net, prompt, entries, l, n)
    ensures Advances(net, entries, l, p, Hidden(net, prompt, l, p), Hidden(net, prompt, l + 1, p))
  {
    ContextStored(net, prompt, entries, l, p);
  }

  lemma AdvancesDetermines<Tok, V>(net: Net<Tok, V>, prompt: seq<Tok>, entries: map<(nat, nat), (V, V)>, l: nat,
                                   p: nat, x: V, next: V)
    requires p < |prompt| && Advances(net, entries, l, p, x, next) && x == Hidden(net, prompt, l, p)
    ensures (l, p) in entries && entries[(l, p)] == QKv(net, prompt, l, p).1
    ensures LayerStored(net, prompt, entries, l, p + 1) ==> next == Hidden(net, prompt, l + 1, p)
  {
    assert (l, p) in entries;
    if LayerStored(net, prompt, entries, l, p + 1) {
      ContextStored(net, prompt, entries, l, p);
    }
  }

  /** Such states and entries are the only ones: any that satisfy this are the network's own. */
  lemma {:induction false} TransformsDetermines<Tok, V>(
      net: Net<Tok, V>, layers: nat, prompt: seq<Tok>, states: seq<seq<V>>, entries: map<(nat, nat), (V, V)>, l: nat)
    requires Transforms(net, layers, prompt, 0, states, entries) && l <= layers
    ensures forall p :: 0 <= p < |prompt| ==> states[l][p] == Hidden(net, prompt, l, p)
    ensures l < layers ==> LayerStored(net, prompt, entries, l, |prompt|)
  {
    if l > 0 {
      TransformsDetermines(net, layers, prompt, states, entries, l - 1);
      forall p | 0 <= p < |prompt|
        ensures states[l][p] == Hidden(net, prompt, l, p)
      {
        NextState(net, layers, prompt, states, entries, l - 1, p);
      }
    }
    if l < layers {
      RowStored(net, layers, prompt, states, entries, l);
    }
  }

  lemma RowStored<Tok, V>(net: Net<Tok, V>, layers: nat, prompt: seq<Tok>, states: seq<seq<V>>,
                          entries: map<(nat, nat), (V, V)>, l: nat)
    requires Transforms(net, layers, prompt, 0, states, entries) && l < layers
    requires forall p :: 0 <= p < |prompt| ==> states[l][p] == Hidden(net, prompt, l, p)
    ensures LayerStored(net, prompt, entries, l, |prompt|)
  {
    forall p: nat {:trigger (l, p) in entries} | p < |prompt|
      ensures (l, p) in entries && entries[(l, p)] == QKv(net, prompt, l, p).1
    {
      assert Advances(net, entries, l, 0 + p, states[l][p], states[l + 1][p]);
      AdvancesDetermines(net, prompt, entries, l, p, states[l][p], states[l + 1][p]);
    }
  }

  lemma NextState<Tok, V>(net: Net<Tok, V>, layers: nat, prompt: seq<Tok>, states: seq<seq<V>>,
                          entries: map<(nat, nat), (V, V)>, l: nat, p: nat)
    requires Transforms(net, layers, prompt, 0, states, entries) && l < layers && p < |prompt|
    requires states[l][p] == Hidden(net, prompt, l, p) && LayerStored(net, prompt, entries, l, |prompt|)
    ensures states[l + 1][p] == Hidden(net, prompt, l + 1, p)
  {
    assert Advances(net, entries, l, 0 + p, states[l][p], states[l + 1][p]);
    AdvancesDetermines(net, prompt, entries, l, p, states[l][p], states[l + 1][p]);
  }

  /** `prefill_slice`: all layers over one slice of the prompt at its absolute positions. The
      earlier positions must be stored; the slice's own are stored as it goes. */
  method PrefillSlice<Tok, V>(net: Net<Tok, V>, layers: nat, ghost prompt: seq<Tok>, tokens: seq<Tok>, offset: nat,
                              store: KVStore<V>)
    returns (last: Option<V>)
    requires offset + |tokens| <= |prompt| && forall t :: 0 <= t < |tokens| ==> tokens[t] == prompt[offset + t]
    requires forall l :: 0 <= l < layers ==> LayerStored(net, prompt, store.entries, l, offset)
    modifies store
    ensures last == if tokens == [] then None else Some(Hidden(net, prompt, layers, offset + |tokens| - 1))
    ensures Wrote(net, prompt, old(store.entries), store.entries, 0, layers, offset, offset + |tokens|)
    ensures exists states :: Transforms(net, layers, tokens, offset, states, store.entries) && Answers(states, last)
  {
    var n := |tokens|;
    var xs, qs, ks, vs, outs := new V[n](i requires 0 <= i < n => net.embed(tokens[i])), new V[n](_ => net.zero),
      new V[n](_ => net.zero), new V[n](_ => net.zero), new V[n](_ => net.zero);
    for l := 0 to layers
      invariant Rows(net, prompt, l, offset, xs[..])
      invariant Wrote(net, prompt, old(store.entries), store.entries, 0, l, offset, offset + n)
    {
      ghost var before := store.entries;
      StoreLayer(net, prompt, l, offset, xs, qs, ks, vs, store);
      WroteMoreLayers(net, prompt, old(store.entries), before, store.entries, l, offset, offset + n);
      SliceStored(net, prompt, old(store.entries), store.entries, l, l + 1, offset, offset + n);
      AttendLayer(net, prompt, l, offset, qs, outs, store);
      MixLayer(net, prompt, l, offset, xs, outs);
    }
    last := if n == 0 then None else Some(xs[n - 1]);
    assert n > 0 ==> xs[n - 1] == xs[..][n - 1];
    SliceTransforms(net, prompt, layers, tokens, offset, old(store.entries), store.entries, last);
  }

  lemma SliceTransforms<Tok, V>(net: Net<Tok, V>, prompt: seq<Tok>, layers: nat, tokens: seq<Tok>, offset: nat,
                                before: map<(nat, nat), (V, V)>, after: map<(nat, nat), (V, V)>, last: Option<V>)
    requires offset + |tokens| <= |prompt| && forall t :: 0 <= t < |tokens| ==> tokens[t] == prompt[offset + t]
    requires forall l :: 0 <= l < layers ==> LayerStored(net, prompt, before, l, offset)
    requires Wrote(net, prompt, before, after, 0, layers, offset, offset + |tokens|)
    requires last == if tokens == [] then None else Some(Hidden(net, prompt, layers, offset + |tokens| - 1))
    ensures exists states :: Transforms(net, layers, tokens, offset, states, after) && Answers(states, last)
  {
    var upto := offset + |tokens|;
    forall l | 0 <= l < layers
      ensures LayerStored(net, prompt, after, l, upto)
    {
      SliceStored(net, prompt, before, after, l, layers, offset, upto);
    }
    StatesTransform(net, prompt, layers, tokens, offset, upto, after);
    assert Answers(States(net, prompt, layers, offset, |tokens|), last);
  }

  /** Earlier positions stored before, and the slice's own written since. */
  lemma SliceStored<Tok, V>(net: Net<Tok, V>, prompt: seq<Tok>,
                            before: map<(nat, nat), (V, V)>, after: map<(nat, nat), (V, V)>,
                            l: nat, layers: nat, offset: nat, upto: nat)
    requires offset <= upto <= |prompt| && l < layers && LayerStored(net, prompt, before, l, offset)
    requires Wrote(net, prompt, before, after, 0, layers, offset, upto)
    ensures LayerStored(net, prompt, after, l, upto)
  {
    forall p: nat {:trigger (l, p) in after} | p < upto
      ensures (l, p) in after && after[(l, p)] == QKv(net, prompt, l, p).1
    {
      var earlier := (l, p) in before;
    }
  }

  /** `prefill_batch`, for any chunk size: the last hidden state and every stored entry are
      those of one slice over the whole prompt, whatever the store held before. */
  method PrefillBatch<Tok, V>(net: Net<Tok, V>, layers: nat, prompt: seq<Tok>, store: KVStore<V>,
                              chunk: nat := PREFILL_CHUNK_SIZE)
    returns (last: Option<V>)
    requires chunk >= 1
    modifies store
    ensures last == if prompt == [] then None else Some(Hidden(net, prompt, layers, |prompt| - 1))
    ensures Wrote(net, prompt, old(store.entries), store.entries, 0, layers, 0, |prompt|)
    ensures exists states :: Transforms(net, layers, prompt, 0, states, store.entries) && Answers(states, last)
  {
    if |prompt| <= chunk {
      last := PrefillSlice(net, layers, prompt, prompt, 0, store);
      return;
    }
    last := Some(net.zero);
    var offset := 0;
    while offset < |prompt|
      invariant offset <= |prompt|
      invariant offset > 0 ==> last == Some(Hidden(net, prompt, layers, offset - 1))
      invariant Wrote(net, prompt, old(store.entries), store.entries, 0, layers, 0, offset)
    {
      var end: nat := Min(offset + chunk, |prompt|);
      ghost var before := store.entries;
      forall l | 0 <= l < layers
        ensures LayerStored(net, prompt, store.entries, l, offset)
      {
        SliceStored(net, prompt, old(store.entries), store.entries, l, layers, 0, offset);
      }
      last := PrefillSlice(net, layers, prompt, prompt[offset..end], offset, store);
      WroteMorePositions(net, prompt, old(store.entries), before, store.entries, layers, offset, end);
      offset := end;
    }
    SliceTransforms(net, prompt, layers, prompt, 0, old(store.entries), store.entries, last);
  }
}
