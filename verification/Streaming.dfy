// Layer streaming: three device slots, uploads on a timeline, and a queue of prefetched tensors.
module Streaming {
  import opened Common

  datatype SlotState = Free | Staging | DeviceReady | Computing
  datatype Slot = Slot(state: SlotState, timeline: nat)
  datatype Record = Record(layer: nat, tensor: string, slot: nat, timeline: nat)
  datatype Decision = Gpu(slot: nat) | Cpu

  /** How many of the three slots are in a state. */
  function Count(slots: seq<Slot>, state: SlotState): nat
    requires |slots| == 3
  {
    (if slots[0].state == state then 1 else 0) + (if slots[1].state == state then 1 else 0)
    + (if slots[2].state == state then 1 else 0)
  }

  lemma CountUpdated(slots: seq<Slot>, i: nat, s: Slot, state: SlotState)
    requires |slots| == 3 && i < 3
    ensures Count(slots[i := s], state)
         == Count(slots, state) - (if slots[i].state == state then 1 else 0) + (if s.state == state then 1 else 0)
  {
  }

  /** The queued records name distinct slots, each ready with its record's timeline value; the
      values strictly increase along the queue and have all been handed out. */
  ghost predicate Queued(slots: seq<Slot>, queue: seq<Record>, timeline: nat)
    requires |slots| == 3
  {
    && (forall i :: 0 <= i < |queue| ==>
          queue[i].slot < 3 && queue[i].timeline <= timeline
          && slots[queue[i].slot] == Slot(DeviceReady, queue[i].timeline))
    && (forall i, j :: 0 <= i < j < |queue| ==> queue[i].slot != queue[j].slot && queue[i].timeline < queue[j].timeline)
  }

  /** The slot that an upload takes: the first free one of the three from `from` on, around. */
  ghost predicate FirstFree(slots: seq<Slot>, from: nat, i: nat)
    requires |slots| == 3 && from < 3
  {
    && i < 3 && slots[i].state == Free
    && (i == from || slots[from].state != Free)
    && (i == (from + 2) % 3 ==> slots[(from + 1) % 3].state != Free)
  }

  /** A slot that no queued record names may change in any way. */
  lemma QueuedElsewhere(slots: seq<Slot>, queue: seq<Record>, timeline: nat, at: nat, s: Slot, later: nat)
    requires |slots| == 3 && at < 3 && Queued(slots, queue, timeline) && slots[at].state != DeviceReady &&
        timeline <= later
    ensures Queued(slots[at := s], queue, later)
  {
  }

  /** Removing a record and freeing its slot keeps the others. */
  lemma QueuedRemoved(slots: seq<Slot>, queue: seq<Record>, timeline: nat, i: nat)
    requires |slots| == 3 && Queued(slots, queue, timeline) && i < |queue|
    ensures queue[i].slot < 3
    ensures Queued(slots[queue[i].slot := slots[queue[i].slot].(state := Free)], RemoveAt(queue, i), timeline)
  {
  }

  /** The first record of a tensor, from queue position i on. */
  function FirstOf(queue: seq<Record>, layer: nat, tensor: string, i: nat): (r: Option<nat>)
    requires i <= |queue|
    ensures r.Some? ==> i <= r.value < |queue| && queue[r.value].layer == layer && queue[r.value].tensor == tensor
    ensures forall k :: i <= k < (if r.Some? then r.value else |queue|) ==>
        queue[k].layer != layer || queue[k].tensor != tensor
    decreases |queue| - i
  {
    if i == |queue| then None
    else if queue[i].layer == layer && queue[i].tensor == tensor then Some(i)
    else FirstOf(queue, layer, tensor, i + 1)
  }

  class HyperStream {
    var slots: seq<Slot>
    var writeIndex: nat
    var timeline: nat
    var queue: seq<Record>
    const maxSlotSize: nat

    /** Queued records and ready slots are the same three at most; other slots are free, or left
        staging by an upload that failed. No slot is ever handed to a compute pass. */
    ghost predicate Valid()
      reads this
    {
      && |slots| == 3 && writeIndex < 3
      && Queued(slots, queue, timeline)
      && |queue| == Count(slots, DeviceReady) && Count(slots, Computing) == 0
    }

    /** Queued, free and stuck slots make three. */
    lemma SlotsAreConserved()
      requires Valid()
      ensures |queue| + Count(slots, Free) + Count(slots, Staging) == 3
    {
      assert forall i :: 0 <= i < 3 ==> slots[i].state in {Free, Staging, DeviceReady, Computing};
      assert slots[0].state != Computing && slots[1].state != Computing && slots[2].state != Computing;
    }

    constructor (slotSize: nat)
      ensures Valid() && queue == [] && Count(slots, Free) == 3 && maxSlotSize == slotSize
    {
      slots, writeIndex, timeline, queue, maxSlotSize := seq(3, _ => Slot(Free, 0)), 0, 0, [], slotSize;
    }

    /** `acquire_write_slot`: the first free slot, starting from the one written last. */
    method AcquireWriteSlot() returns (idx: Option<nat>)
      requires Valid()
      modifies this`slots, this`writeIndex
      ensures Valid() && (idx.None? <==> old(Count(slots, Free)) == 0)
      ensures idx.None? ==> slots == old(slots) && writeIndex == old(writeIndex)
      ensures idx.Some? ==> FirstFree(old(slots), old(writeIndex), idx.value) && writeIndex == idx.value
      ensures idx.Some? ==> slots == old(slots)[idx.value := old(slots)[idx.value].(state := Staging)]
    {
      for offset := 0 to 3
        invariant slots == old(slots) && writeIndex == old(writeIndex)
        invariant offset >= 1 ==> slots[writeIndex].state != Free
        invariant offset >= 2 ==> slots[(writeIndex + 1) % 3].state != Free
        invariant offset >= 3 ==> slots[(writeIndex + 2) % 3].state != Free
      {
        var i := (writeIndex + offset) % 3;
        if slots[i].state == Free {
          QueuedElsewhere(slots, queue, timeline, i, slots[i].(state := Staging), timeline);
          slots, writeIndex := slots[i := slots[i].(state := Staging)], i;
          return Some(i);
        }
      }
      idx := None;
    }

    /** `upload_slot`: the device calls succeed or fail together. A failed upload has already
        taken its slot and its timeline value, and leaves the slot staging. */
    method UploadSlot(size: nat, succeeds: bool) returns (r: Option<(nat, nat)>)
      requires Valid()
      modifies this`slots, this`writeIndex, this`timeline
      ensures |slots| == 3 && writeIndex < 3 && timeline >= old(timeline) && Queued(slots, queue, timeline)
      ensures Count(slots, Computing) == 0 && Count(slots, DeviceReady) == |queue| + if r.Some? then 1 else 0
      ensures r.Some? <==> size <= maxSlotSize && old(Count(slots, Free)) > 0 && succeeds
      ensures r.Some? ==> r.value == (writeIndex, timeline)
      ensures
        if size <= maxSlotSize && old(Count(slots, Free)) > 0
        then FirstFree(old(slots), old(writeIndex), writeIndex) && timeline == old(timeline) + 1 &&
             slots == old(slots)[writeIndex := if succeeds then Slot(DeviceReady, timeline)
                                               else old(slots)[writeIndex].(state := Staging)]
        else slots == old(slots) && writeIndex == old(writeIndex) && timeline == old(timeline)
      ensures Count(slots, Staging) == old(Count(slots, Staging)) +
          if size <= maxSlotSize && old(Count(slots, Free)) > 0 && !succeeds then 1 else 0
    {
      if size > maxSlotSize {
        return None;
      }
      var idx := AcquireWriteSlot();
      if idx.None? {
        return None;
      }
      ghost var staged := slots;
      CountUpdated(old(slots), idx.value, staged[idx.value], Staging);
      timeline := timeline + 1;
      if !succeeds {
        return None;
      }
      CountUpdated(staged, idx.value, Slot(DeviceReady, timeline), Staging);
      QueuedElsewhere(slots, queue, old(timeline), idx.value, Slot(DeviceReady, timeline), timeline);
      slots := slots[idx.value := Slot(DeviceReady, timeline)];
      r := Some((idx.value, timeline));
    }

    /** `prefetch_layer`: a tensor that the shard lacks, or that does not fit, is a miss; an
        upload that succeeds joins the end of the queue. No queued slot is rewritten. */
    method PrefetchLayer(layer: nat, tensor: string, size: Option<nat>, succeeds: bool)
      requires Valid()
      modifies this`slots, this`writeIndex, this`timeline, this`queue
      ensures Valid()
      ensures
        if size.Some? && size.value <= maxSlotSize && old(Count(slots, Free)) > 0
        then FirstFree(old(slots), old(writeIndex), writeIndex) && timeline == old(timeline) + 1 &&
             slots == old(slots)[writeIndex := if succeeds then Slot(DeviceReady, timeline)
                                               else old(slots)[writeIndex].(state := Staging)] &&
             queue == old(queue) + if succeeds then [Record(layer, tensor, writeIndex, timeline)] else []
        else slots == old(slots) && queue == old(queue) && writeIndex == old(writeIndex) &&
             timeline == old(timeline)
      ensures forall i :: 0 <= i < |old(queue)| ==> slots[old(queue)[i].slot] == old(slots)[old(queue)[i].slot]
      ensures Count(slots, Staging) >= old(Count(slots, Staging))
    {
      if size.None? {
        return;
      }
      if size.value > maxSlotSize {
        return;
      }
      ghost var was := slots;
      var r := UploadSlot(size.value, succeeds);
      if r.Some? {
        CountUpdated(was, r.value.0, Slot(DeviceReady, timeline), Staging);
        ghost var before := queue;
        queue := queue + [Record(layer, tensor, r.value.0, r.value.1)];
        QueuedJoined(was, before, old(timeline), r.value.0, timeline, queue[|before|]);
      }
    }

    /** The queue position of a tensor's first record. */
    method Find(layer: nat, tensor: string) returns (pos: Option<nat>)
      ensures pos == FirstOf(queue, layer, tensor, 0)
    {
      for i := 0 to |queue|
        invariant FirstOf(queue, layer, tensor, 0) == FirstOf(queue, layer, tensor, i)
      {
        if queue[i].layer == layer && queue[i].tensor == tensor {
          return Some(i);
        }
      }
      pos := None;
    }

    /** Free the slot of the record at a queue position, and drop the record. */
    method ReleaseAt(pos: nat)
      requires Valid() && pos < |queue|
      modifies this`slots, this`queue
      ensures Valid() && queue == RemoveAt(old(queue), pos) && old(queue)[pos].slot < 3
      ensures slots == old(slots)[old(queue)[pos].slot := old(slots)[old(queue)[pos].slot].(state := Free)]
      ensures Count(slots, Staging) == old(Count(slots, Staging))
    {
      var record := queue[pos];
      QueuedRemoved(slots, queue, timeline, pos);
      CountUpdated(slots, record.slot, slots[record.slot].(state := Free), Staging);
      queue := RemoveAt(queue, pos);
      slots := slots[record.slot := slots[record.slot].(state := Free)];
    }

    /** `wait_for_layer`: the tensor's first record leaves the queue and its slot is freed, whether
        the wait succeeds or times out. So the slot a GPU decision names is already free: the next
        upload may take it. */
    method WaitForLayer(layer: nat, tensor: string, arrives: bool) returns (d: Decision)
      requires Valid()
      modifies this`slots, this`queue
      ensures Valid() && Count(slots, Staging) == old(Count(slots, Staging))
      ensures
        match FirstOf(old(queue), layer, tensor, 0)
        case None => d == Cpu && queue == old(queue) && slots == old(slots)
        case Some(i) =>
          var slot := old(queue)[i].slot;
          && queue == RemoveAt(old(queue), i) && slot < 3
          && slots == old(slots)[slot := old(slots)[slot].(state := Free)]
          && d == if arrives then Gpu(slot) else Cpu
    {
      d := Cpu;
      var pos := Find(layer, tensor);
      if pos.Some? {
        var slot := queue[pos.value].slot;
        ReleaseAt(pos.value);
        if arrives {
          d := Gpu(slot);
        }
      }
    }

    /** `release_pending`: the queue empties from the front; every slot but the stuck ones is free. */
    method ReleasePending()
      requires Valid()
      modifies this`slots, this`queue
      ensures Valid() && queue == [] && Count(slots, Free) == 3 - old(Count(slots, Staging))
      ensures forall i :: 0 <= i < 3 ==>
          slots[i] == old(slots)[i].(state := if old(slots)[i].state == Staging then Staging else Free)
    {
      while queue != []
        invariant Valid() && Count(slots, Staging) == old(Count(slots, Staging))
        invariant forall i :: 0 <= i < 3 ==>
            (slots[i] == old(slots)[i] ||
              (old(slots)[i].state == DeviceReady && slots[i] == old(slots)[i].(state := Free)))
        decreases |queue|
      {
        ReleaseAt(0);
      }
      SlotsAreConserved();
    }
  }

  lemma QueuedJoined(slots: seq<Slot>, queue: seq<Record>, timeline: nat, at: nat, now: nat, r: Record)
    requires |slots| == 3 && at < 3 && Queued(slots, queue, timeline) && slots[at].state != DeviceReady
    requires timeline < now == r.timeline && r.slot == at
    ensures Queued(slots[at := Slot(DeviceReady, now)], queue + [r], now)
  {
  }

  // ----- the staging buffer all uploads share -----

  /** A copy submitted to the device: where to, and the bytes it is meant to carry. */
  datatype Copy = Copy(slot: nat, data: seq<Byte>)

  /** The staging buffer, the copies submitted and not yet made, oldest first, and the slots'
      own buffers. */
  datatype Device = Device(staging: seq<Byte>, pending: seq<Copy>, slots: seq<seq<Byte>>)

  /** All buffers have one size, and every copy fits. */
  ghost predicate Sized(d: Device)
  {
    && (forall s :: 0 <= s < |d.slots| ==> |d.slots[s]| == |d.staging|)
    && forall n :: 0 <= n < |d.pending| ==> Fits(d, d.pending[n])
  }

  predicate Fits(d: Device, c: Copy)
  {
    c.slot < |d.slots| && |c.data| <= |d.staging|
  }

  /** A buffer with its first bytes overwritten. */
  function Over(buffer: seq<Byte>, data: seq<Byte>): (r: seq<Byte>)
    requires |data| <= |buffer|
    ensures |r| == |buffer|
  {
    data + buffer[|data|..]
  }

  /** `upload_slot` overwrites the first bytes of the staging buffer at once, without waiting for
      earlier copies; unless a device call fails, a copy of that many bytes is submitted. */
  function Upload(d: Device, c: Copy, submitted: bool): Device
    requires Fits(d, c)
  {
    d.(staging := Over(d.staging, c.data), pending := if submitted then d.pending + [c] else d.pending)
  }

  /** The device makes the oldest copy, of its size, from what the staging buffer holds by then. */
  function Make(d: Device): Device
    requires Sized(d) && d.pending != []
  {
    var c := d.pending[0];
    d.(pending := d.pending[1..], slots := d.slots[c.slot := Over(d.slots[c.slot], d.staging[..|c.data|])])
  }

  lemma MakeSized(d: Device)
    requires Sized(d) && d.pending != []
    ensures Sized(Make(d))
  {
  }

  /** The device after its oldest n copies. */
  function MakeAll(d: Device, n: nat): (r: Device)
    requires Sized(d) && n <= |d.pending|
    ensures Sized(r) && r.staging == d.staging && r.pending == d.pending[n..] && |r.slots| == |d.slots|
    decreases n
  {
    if n == 0 then d else MakeSized(d); MakeAll(Make(d), n - 1)
  }

  /** If nothing more is uploaded, every pending copy fills its slot with its own data. */
  ghost predicate Delivers(d: Device)
    requires Sized(d)
  {
    forall n :: 0 <= n < |d.pending| ==> Carried(MakeAll(d, n + 1), d.pending[n])
  }

  /** A slot begins with a copy's data. */
  predicate Carried(d: Device, c: Copy)
  {
    c.slot < |d.slots| && c.data <= d.slots[c.slot]
  }

  lemma {:induction false} MakeOneMore(d: Device, n: nat)
    requires Sized(d) && n < |d.pending|
    ensures MakeAll(d, n + 1) == Make(MakeAll(d, n))
    decreases n
  {
    if n > 0 {
      MakeSized(d);
      MakeOneMore(Make(d), n - 1);
    }
  }

  /** That is so exactly when what is staged begins with each one's data. */
  lemma DeliversExact(d: Device)
    requires Sized(d)
    ensures Delivers(d) <==> forall n :: 0 <= n < |d.pending| ==> d.pending[n].data <= d.staging
  {
    forall n | 0 <= n < |d.pending|
      ensures Carried(MakeAll(d, n + 1), d.pending[n]) <==> d.pending[n].data <= d.staging
    {
      var c, before := d.pending[n], MakeAll(d, n);
      MakeOneMore(d, n);
      assert before.pending[0] == c;
      assert MakeAll(d, n + 1).slots[c.slot][..|c.data|] == d.staging[..|c.data|];
    }
  }

  /** Two byte strings agree as far as both go. */
  predicate Agree(a: seq<Byte>, b: seq<Byte>)
  {
    a <= b || b <= a
  }

  lemma OverPrefix(buffer: seq<Byte>, data: seq<Byte>, p: seq<Byte>)
    requires |data| <= |buffer| && p <= buffer
    ensures p <= Over(buffer, data) <==> Agree(p, data)
  {
    var over := Over(buffer, data);
    assert over[..|data|] == data;
    if p <= data {
      assert over[..|p|] == data[..|p|] == p;
    } else if data <= p {
      assert over[..|p|] == data + buffer[|data|..][..|p| - |data|] == data + p[|data|..];
    }
  }

  /** So, where all copies so far come right, an upload leaves them right exactly when each pending
      one agrees with the new data as far as both go, whether its own copy is submitted or not:
      of two different tensors uploaded one right after the other, the first slot gets the second. */
  lemma UploadSafeExact(d: Device, c: Copy, submitted: bool)
    requires Sized(d) && Fits(d, c) && Delivers(d)
    ensures Sized(Upload(d, c, submitted))
    ensures Delivers(Upload(d, c, submitted)) <==> forall n :: 0 <= n < |d.pending| ==> Agree(d.pending[n].data, c.data)
  {
    var after := Upload(d, c, submitted);
    DeliversExact(d);
    DeliversExact(after);
    forall n | 0 <= n < |d.pending|
      ensures after.pending[n] == d.pending[n]
      ensures d.pending[n].data <= after.staging <==> Agree(d.pending[n].data, c.data)
    {
      OverPrefix(d.staging, c.data, d.pending[n].data);
    }
    assert c.data <= after.staging;
    assert forall n :: |d.pending| <= n < |after.pending| ==> after.pending[n] == c;
  }

  /** A copy fills its own slot's first bytes and leaves the rest of it, and every other slot. */
  lemma MakeElsewhere(d: Device, s: nat, i: nat)
    requires Sized(d) && d.pending != [] && s < |d.slots| && i < |d.slots[s]|
    ensures |Make(d).slots| == |d.slots| && |Make(d).slots[s]| == |d.slots[s]|
    ensures s != d.pending[0].slot || i >= |d.pending[0].data| ==> Make(d).slots[s][i] == d.slots[s][i]
  {
  }

  /** A submitted upload arrives: once all copies pending after it are made, its slot begins with its
      data, whatever was pending before. One that fails submits nothing. */
  lemma SubmittedArrives(d: Device, c: Copy)
    requires Sized(d) && Fits(d, c)
    ensures
      var a := Upload(d, c, true);
      && Sized(a) && |a.pending| == |d.pending| + 1
      && MakeAll(a, |a.pending|).pending == [] && Carried(MakeAll(a, |a.pending|), c)
    ensures Upload(d, c, false).pending == d.pending && Upload(d, c, false).slots == d.slots
  {
    var a := Upload(d, c, true);
    var n := |d.pending|;
    MakeOneMore(a, n);
    var before := MakeAll(a, n);
    assert before.pending[0] == c;
    assert before.staging[..|c.data|] == c.data;
  }

  // ----- whole runs of uploads and copies -----

  datatype Act = Uploads(c: Copy, submitted: bool) | Makes

  ghost predicate Acted(d: Device, act: Act, e: Device)
  {
    && Sized(d)
    && match act
       case Uploads(c, submitted) => Fits(d, c) && e == Upload(d, c, submitted)
       case Makes => d.pending != [] && e == Make(d)
  }

  /** A run from an idle device. */
  ghost predicate IsRun(run: seq<Device>, acts: seq<Act>)
  {
    && |run| == |acts| + 1 && Sized(run[0]) && run[0].pending == []
    && forall k :: 0 <= k < |acts| ==> Acted(run[k], acts[k], run[k + 1])
  }

  /** An upload agrees with the copies pending when it is made. */
  ghost predicate UploadAgrees(d: Device, act: Act)
  {
    act.Uploads? ==> forall n :: 0 <= n < |d.pending| ==> Agree(d.pending[n].data, act.c.data)
  }

  /** The copy a step makes leaves its own data in its slot. */
  ghost predicate CopyCarried(d: Device, act: Act, e: Device)
  {
    act.Makes? && d.pending != [] ==> Carried(e, d.pending[0])
  }

  lemma ActKeeps(d: Device, act: Act, e: Device)
    requires Acted(d, act, e) && Delivers(d)
    ensures Sized(e) && CopyCarried(d, act, e)
    ensures Delivers(e) <==> UploadAgrees(d, act)
  {
    match act
    case Uploads(c, submitted) =>
      UploadSafeExact(d, c, submitted);
    case Makes =>
      MakeSized(d);
      DeliversExact(d);
      DeliversExact(e);
      assert MakeAll(d, 1) == MakeAll(Make(d), 0) == e;
      assert Carried(MakeAll(d, 0 + 1), d.pending[0]);
      assert forall n :: 0 <= n < |e.pending| ==> e.pending[n] == d.pending[n + 1];
  }

  lemma {:induction false} RunDelivers(run: seq<Device>, acts: seq<Act>, k: nat)
    requires IsRun(run, acts) && k <= |acts| && forall j :: 0 <= j < k ==> UploadAgrees(run[j], acts[j])
    ensures Sized(run[k]) && Delivers(run[k])
  {
    if k > 0 {
      RunDelivers(run, acts, k - 1);
      assert Acted(run[k - 1], acts[k - 1], run[k - 1 + 1]);
      ActKeeps(run[k - 1], acts[k - 1], run[k]);
    }
  }

  lemma {:induction false} RunSized(run: seq<Device>, acts: seq<Act>, k: nat)
    requires IsRun(run, acts) && k <= |acts|
    ensures Sized(run[k])
  {
    if k > 0 {
      RunSized(run, acts, k - 1);
      assert Acted(run[k - 1], acts[k - 1], run[k - 1 + 1]);
      if acts[k - 1].Makes? {
        MakeSized(run[k - 1]);
      }
    }
  }

  /** In every run every pending copy is right at every moment, and so every copy made, exactly
      when each upload agrees with the copies pending at the time. */
  lemma RunDeliversExact(run: seq<Device>, acts: seq<Act>)
    requires IsRun(run, acts)
    ensures forall k :: 0 <= k <= |acts| ==> Sized(run[k])
    ensures (forall k :: 0 <= k <= |acts| ==> Delivers(run[k])) <==>
            (forall k :: 0 <= k < |acts| ==> UploadAgrees(run[k], acts[k]))
    ensures (forall k :: 0 <= k < |acts| ==> UploadAgrees(run[k], acts[k])) ==>
            forall k :: 0 <= k < |acts| ==> CopyCarried(run[k], acts[k], run[k + 1])
  {
    forall k | 0 <= k <= |acts|
      ensures Sized(run[k])
    {
      RunSized(run, acts, k);
    }
    if forall k :: 0 <= k <= |acts| ==> Delivers(run[k]) {
      forall k | 0 <= k < |acts|
        ensures UploadAgrees(run[k], acts[k])
      {
        assert Acted(run[k], acts[k], run[k + 1]) && Delivers(run[k]) && Delivers(run[k + 1]);
        ActKeeps(run[k], acts[k], run[k + 1]);
      }
    }
    if forall k :: 0 <= k < |acts| ==> UploadAgrees(run[k], acts[k]) {
      forall k | 0 <= k <= |acts|
        ensures Delivers(run[k])
      {
        RunDelivers(run, acts, k);
      }
    }
    forall k | 0 <= k < |acts| && Delivers(run[k])
      ensures CopyCarried(run[k], acts[k], run[k + 1])
    {
      assert Acted(run[k], acts[k], run[k + 1]);
      ActKeeps(run[k], acts[k], run[k + 1]);
    }
  }
}
