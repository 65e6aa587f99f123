/** The modelled receive ring: buffers owned by the ring or by the consumer, frames in arrival order. */
module Nic {
  const QUEUE_SIZE: nat := 16
  const WORD: nat := 0x1_0000_0000_0000_0000
  const FREE: nat := WORD - 1  // SENTINEL_FREE

  // A buffer: in flight, or in the ring holding a frame id (`FREE`: armed and empty).
  datatype Slot = InFlight | Armed(id: nat)

  predicate Pending(s: Slot) {
    s.Armed? && s.id != FREE
  }

  // The ring, with the frames that entered it, those handed out, and the buffers the consumer holds.
  datatype Ring = Ring(slots: seq<Slot>, nextId: nat, arrived: seq<nat>, delivered: seq<nat>, held: set<nat>)

  datatype Event =
    | Arrived(slot: nat, id: nat)
    | Full
    | Received(slot: nat, id: nat)
    | Idle
    | Recycled(slot: nat)
    | Refused(slot: nat)

  function Started(): Ring {
    Ring(seq(QUEUE_SIZE, i => Armed(FREE)), 1, [], [], {})
  }

  /** One call on the ring: what it answered, and the ring it leaves. */
  ghost predicate Next(r: Ring, e: Event, r': Ring) {
    |r.slots| == QUEUE_SIZE &&
    match e
    case Arrived(q, id) =>
      && q < QUEUE_SIZE && r.slots[q] == Armed(FREE) && (forall k :: 0 <= k < q ==> r.slots[k] != Armed(FREE))
      && id == r.nextId
      && r' == r.(slots := r.slots[q := Armed(id)], nextId := (r.nextId + 1) % WORD, arrived := r.arrived + [id])
    case Full =>
      r' == r && forall k :: 0 <= k < QUEUE_SIZE ==> r.slots[k] != Armed(FREE)
    case Received(q, id) =>
      && q < QUEUE_SIZE && r.slots[q] == Armed(id) && id != FREE
      && (forall k :: 0 <= k < QUEUE_SIZE && Pending(r.slots[k]) ==> id <= r.slots[k].id)
      && r' == r.(slots := r.slots[q := InFlight], delivered := r.delivered + [id], held := r.held + {q})
    case Idle =>
      r' == r && forall k :: 0 <= k < QUEUE_SIZE ==> !Pending(r.slots[k])
    case Recycled(q) =>
      && q < QUEUE_SIZE && r.slots[q] == InFlight
      && r' == r.(slots := r.slots[q := Armed(FREE)], held := r.held - {q})
    case Refused(q) =>
      r' == r && q < QUEUE_SIZE && r.slots[q] != InFlight
  }

  class ModelNic {
    const slots: array<Slot>
    var nextId: nat
    ghost var arrived: seq<nat>
    ghost var delivered: seq<nat>
    ghost var held: set<nat>

    ghost function State(): Ring
      reads this, slots
    {
      Ring(slots[..], nextId, arrived, delivered, held)
    }

    ghost predicate Valid()
      reads this, slots
    {
      slots.Length == QUEUE_SIZE && nextId < WORD
    }

    constructor ()
      ensures Valid() && fresh(slots) && State() == Started()
      ensures slots.Length == 16 && nextId == 1
      ensures forall k :: 0 <= k < 16 ==> slots[k] == Armed(0xFFFF_FFFF_FFFF_FFFF)
    {
      slots := new Slot[QUEUE_SIZE](i => Armed(FREE));
      nextId, arrived, delivered, held := 1, [], [], {};
    }

    method Arrive() returns (r: Event)
      requires Valid()
      modifies this, slots
      ensures Valid() && (r.Arrived? || r.Full?) && Next(old(State()), r, State())
      ensures r.Arrived? ==> nextId == if old(nextId) == 0xFFFF_FFFF_FFFF_FFFF then 0 else old(nextId) + 1
    {
      for i := 0 to slots.Length
        invariant forall k :: 0 <= k < i ==> slots[k] != Armed(FREE)
        invariant State() == old(State())
      {
        if slots[i] == Armed(FREE) {
          var id := nextId;
          nextId := (nextId + 1) % WORD;
          slots[i] := Armed(id);
          arrived := arrived + [id];
          return Arrived(i, id);
        }
      }
      return Full;
    }

    method CanReceive() returns (any: bool)
      requires Valid()
      ensures any <==> exists k :: 0 <= k < QUEUE_SIZE && Pending(slots[k])
    {
      for i := 0 to slots.Length
        invariant forall k :: 0 <= k < i ==> !Pending(slots[k])
      {
        if Pending(slots[i]) { return true; }
      }
      return false;
    }

    method Receive() returns (r: Event)
      requires Valid()
      modifies this, slots
      ensures Valid() && (r.Received? || r.Idle?) && Next(old(State()), r, State())
    {
      r := Idle;
      for i := 0 to slots.Length
        invariant r.Idle? || r.Received?
        invariant r.Idle? ==> forall k :: 0 <= k < i ==> !Pending(slots[k])
        invariant r.Received? ==> r.slot < i && slots[r.slot] == Armed(r.id) && r.id != FREE
        invariant r.Received? ==> forall k :: 0 <= k < i && Pending(slots[k]) ==> r.id <= slots[k].id
      {
        if Pending(slots[i]) && !(r.Received? && r.id <= slots[i].id) {
          r := Received(i, slots[i].id);
        }
      }
      if r.Received? {
        slots[r.slot] := InFlight;
        delivered, held := delivered + [r.id], held + {r.slot};
      }
    }

    method Recycle(slot: nat) returns (r: Event)
      requires Valid() && slot < QUEUE_SIZE
      modifies this, slots
      ensures Valid() && (r == Recycled(slot) || r == Refused(slot)) && Next(old(State()), r, State())
    {
      if slots[slot] == InFlight {
        slots[slot] := Armed(FREE);
        held := held - {slot};
        r := Recycled(slot);
      } else {
        r := Refused(slot);
      }
    }
  }

  /** Receive and recycle until nothing waits: every frame that entered has been handed out, in order. */
  method Drain(nic: ModelNic)
    requires nic.Valid() && Inv(nic.State()) && nic.nextId <= FREE
    modifies nic, nic.slots
    ensures nic.Valid() && Inv(nic.State()) && nic.delivered == nic.arrived == old(nic.arrived)
  {
    var more := nic.CanReceive();
    while more
      invariant nic.Valid() && Inv(nic.State()) && nic.nextId <= FREE && nic.arrived == old(nic.arrived)
      invariant more <==> exists k :: 0 <= k < QUEUE_SIZE && Pending(nic.slots[k])
      decreases |nic.arrived| - |nic.delivered|
    {
      ghost var r0 := nic.State();
      var got := nic.Receive();
      ghost var r1 := nic.State();
      assert got.Received?;
      ReceiveKeeps(r0, got.slot, got.id, r1);
      var back := nic.Recycle(got.slot);
      RecycleKeeps(r1, got.slot, nic.State());
      more := nic.CanReceive();
    }
    assert Next(nic.State(), Idle, nic.State());
    AnswersInv(nic.State(), Idle, nic.State());
  }

  // ─── every interleaving ────────────────────────────────────────────────────

  ghost predicate Runs(trace: seq<Ring>, events: seq<Event>) {
    && |trace| == |events| + 1 && trace[0] == Started()
    && forall i :: 0 <= i < |events| ==> Next(trace[i], events[i], trace[i + 1])
  }

  /** The frame `id` waits in some buffer of the ring. */
  ghost predicate Waits(slots: seq<Slot>, id: nat) {
    exists q :: 0 <= q < |slots| && slots[q] == Armed(id)
  }

  ghost predicate Inv(r: Ring) {
    && |r.slots| == QUEUE_SIZE && r.nextId == |r.arrived| + 1
    && (forall i :: 0 <= i < |r.arrived| ==> r.arrived[i] == i + 1)
    && r.delivered <= r.arrived
    && (forall q :: 0 <= q < QUEUE_SIZE && Pending(r.slots[q]) ==> |r.delivered| < r.slots[q].id < r.nextId)
    && (forall id :: |r.delivered| < id < r.nextId ==> Waits(r.slots, id))
    && (forall p, q :: 0 <= p < q < QUEUE_SIZE && Pending(r.slots[p]) && Pending(r.slots[q]) ==>
          r.slots[p] != r.slots[q])
    && (forall q :: q in r.held <==> 0 <= q < QUEUE_SIZE && r.slots[q] == InFlight)
  }

  lemma StillWaits(slots: seq<Slot>, q: nat, s: Slot, id: nat)
    requires q < |slots| && Waits(slots, id) && slots[q] != Armed(id)
    ensures Waits(slots[q := s], id)
  {
    var k :| 0 <= k < |slots| && slots[k] == Armed(id);
    assert slots[q := s][k] == Armed(id);
  }

  lemma ArriveKeeps(r: Ring, q: nat, id: nat, r': Ring)
    requires Inv(r) && Next(r, Arrived(q, id), r') && r.nextId < FREE
    ensures Inv(r')
  {
    assert r'.slots[q] == Armed(id);
    forall x | |r'.delivered| < x < r'.nextId ensures Waits(r'.slots, x) {
      if x < id { StillWaits(r.slots, q, Armed(id), x); }
    }
  }

  lemma ReceiveKeeps(r: Ring, q: nat, id: nat, r': Ring)
    requires Inv(r) && Next(r, Received(q, id), r') && r.nextId <= FREE
    ensures Inv(r') && id == |r.delivered| + 1
  {
    assert Pending(r.slots[q]);
    assert Waits(r.slots, |r.delivered| + 1);
    var k :| 0 <= k < |r.slots| && r.slots[k] == Armed(|r.delivered| + 1);
    assert Pending(r.slots[k]);
    assert r'.delivered == r.arrived[..id];
    forall x | |r'.delivered| < x < r'.nextId ensures Waits(r'.slots, x) {
      StillWaits(r.slots, q, InFlight, x);
    }
  }

  lemma RecycleKeeps(r: Ring, q: nat, r': Ring)
    requires Inv(r) && Next(r, Recycled(q), r') && r.nextId <= FREE
    ensures Inv(r')
  {
    forall x | |r'.delivered| < x < r'.nextId ensures Waits(r'.slots, x) {
      StillWaits(r.slots, q, Armed(FREE), x);
    }
  }

  /**
   * For every interleaving of arrivals, receives and recycles: the frames handed out are the first
   * ones that arrived, in order; the ring holds exactly the others, each in one buffer; and the
   * consumer holds exactly the buffers the ring does not.
   */
  lemma {:induction false} RunsKeep(trace: seq<Ring>, events: seq<Event>)
    requires Runs(trace, events) && forall i :: 0 <= i < |events| && events[i].Arrived? ==> trace[i].nextId < FREE
    ensures forall i :: 0 <= i < |trace| ==> Inv(trace[i]) && trace[i].nextId <= FREE
    decreases |events|
  {
    if events == [] {
      StartedInv();
    } else {
      var n := |events| - 1;
      var trace', events' := trace[..n + 1], events[..n];
      RunsKeep(trace', events');
      assert trace'[n] == trace[n];
      NextKeeps(trace[n], events[n], trace[n + 1]);
    }
  }

  /** ... and that is so exactly when no arriving frame is numbered like the sentinel. */
  lemma RunsKeepIff(trace: seq<Ring>, events: seq<Event>)
    requires Runs(trace, events)
    ensures (forall i :: 0 <= i < |trace| ==> Inv(trace[i]))
       <==> (forall i :: 0 <= i < |events| && events[i].Arrived? ==> events[i].id != FREE)
  {
    if forall i :: 0 <= i < |trace| ==> Inv(trace[i]) {
      forall i | 0 <= i < |events| && events[i].Arrived? ensures events[i].id != FREE {
        assert Next(trace[i], events[i], trace[i + 1]);
        if events[i].id == FREE { SentinelFrameIsLost(trace[i], events[i].slot, trace[i + 1]); }
      }
    }
    if forall i :: 0 <= i < |events| && events[i].Arrived? ==> events[i].id != FREE {
      forall i | 0 <= i < |events| && events[i].Arrived? ensures trace[i].nextId < FREE {
        assert Next(trace[i], events[i], trace[i + 1]);
        NextIdBounded(trace, events, i);
      }
      RunsKeep(trace, events);
    }
  }

  lemma {:induction false} NextIdBounded(trace: seq<Ring>, events: seq<Event>, i: nat)
    requires Runs(trace, events) && i <= |events|
    ensures trace[i].nextId <= FREE
    decreases i
  {
    if i > 0 {
      NextIdBounded(trace, events, i - 1);
      assert Next(trace[i - 1], events[i - 1], trace[i - 1 + 1]);
    }
  }

  lemma StartedInv()
    ensures Inv(Started())
  {
  }

  lemma NextKeeps(r: Ring, e: Event, r': Ring)
    requires Inv(r) && Next(r, e, r') && r.nextId <= FREE && (e.Arrived? ==> r.nextId < FREE)
    ensures Inv(r') && r'.nextId <= FREE
  {
    match e
    case Arrived(q, id) => ArriveKeeps(r, q, id, r');
    case Received(q, id) => ReceiveKeeps(r, q, id, r');
    case Recycled(q) => RecycleKeeps(r, q, r');
    case _ =>
  }

  /** What the run promises the two ends: receive succeeds while frames wait, recycle exactly on held buffers. */
  lemma AnswersInv(r: Ring, e: Event, r': Ring)
    requires Inv(r) && r.nextId <= FREE && Next(r, e, r')
    ensures e.Received? ==> |r.delivered| < |r.arrived| && e.id == r.arrived[|r.delivered|] && e.slot !in r.held
    ensures e.Idle? ==> r.delivered == r.arrived
    ensures e.Recycled? ==> e.slot in r.held
    ensures e.Refused? ==> e.slot !in r.held
    ensures e.Full? ==> |r.arrived| - |r.delivered| == QUEUE_SIZE - |r.held|
  {
    if e.Received? { ReceiveKeeps(r, e.slot, e.id, r'); }
    if e.Idle? && |r.delivered| < |r.arrived| {
      assert Waits(r.slots, |r.delivered| + 1);
      var q :| 0 <= q < |r.slots| && r.slots[q] == Armed(|r.delivered| + 1);
      assert Pending(r.slots[q]);
    }
    if e.Full? { FullCount(r); }
  }

  /** A full ring: every buffer holds a waiting frame or is held by the consumer. */
  lemma FullCount(r: Ring)
    requires Inv(r) && r.nextId <= FREE && forall k :: 0 <= k < QUEUE_SIZE ==> r.slots[k] != Armed(FREE)
    ensures |r.arrived| - |r.delivered| == QUEUE_SIZE - |r.held|
  {
    var ids := Interval(|r.delivered| + 1, r.nextId);
    var rest := Others(r.held, QUEUE_SIZE);
    RingHolds(r, rest, ids);
    Apart(r, rest);
    SameCount(r.slots, rest, ids);
  }

  lemma Others(held: set<nat>, n: nat) returns (rest: set<nat>)
    requires forall q :: q in held ==> q < n
    ensures |rest| == n - |held| && forall q: nat :: q in rest <==> q < n && q !in held
  {
    var all := Interval(0, n);
    rest := all - held;
    assert held <= all;
  }

  lemma RingHolds(r: Ring, rest: set<nat>, ids: set<nat>)
    requires Inv(r) && r.nextId <= FREE && forall k :: 0 <= k < QUEUE_SIZE ==> r.slots[k] != Armed(FREE)
    requires forall q: nat :: q in rest <==> q < QUEUE_SIZE && q !in r.held
    requires forall id :: id in ids <==> |r.delivered| < id < r.nextId
    ensures forall q :: q in rest ==> q < QUEUE_SIZE && Pending(r.slots[q]) && r.slots[q].id in ids
    ensures forall id {:trigger Among(r.slots, rest, id)} :: id in ids ==> Among(r.slots, rest, id)
  {
    forall id | id in ids ensures Among(r.slots, rest, id) {
      assert Waits(r.slots, id);
      var q :| 0 <= q < |r.slots| && r.slots[q] == Armed(id);
      assert q in rest;
    }
  }

  lemma Apart(r: Ring, qs: set<nat>)
    requires Inv(r) && forall q :: q in qs ==> q < QUEUE_SIZE && Pending(r.slots[q])
    ensures forall p, q :: p in qs && q in qs && p != q ==> r.slots[p] != r.slots[q]
  {
    forall p, q | p in qs && q in qs && p != q ensures r.slots[p] != r.slots[q] {
      assert Pending(r.slots[p]) && Pending(r.slots[q]);
    }
  }

  ghost function Interval(lo: nat, hi: nat): (s: set<nat>)
    requires lo <= hi
    ensures |s| == hi - lo && forall x :: x in s <==> lo <= x < hi
    decreases hi
  {
    if lo == hi then {} else Interval(lo, hi - 1) + {hi - 1}
  }

  /** One of the buffers `qs` holds `id`. */
  ghost predicate Among(slots: seq<Slot>, qs: set<nat>, id: nat)
    requires forall q :: q in qs ==> q < |slots|
  {
    exists q :: q in qs && slots[q] == Armed(id)
  }

  /** Buffers holding distinct ids, and those ids, are equally many. */
  lemma {:induction false} SameCount(slots: seq<Slot>, qs: set<nat>, ids: set<nat>)
    requires forall q :: q in qs ==> q < |slots| && slots[q].Armed? && slots[q].id in ids
    requires forall p, q :: p in qs && q in qs && p != q ==> slots[p] != slots[q]
    requires forall id {:trigger Among(slots, qs, id)} :: id in ids ==> Among(slots, qs, id)
    ensures |qs| == |ids|
    decreases |qs|
  {
    if qs == {} {
      assert forall id :: id in ids ==> Among(slots, qs, id);
      assert ids == {};
    } else {
      var q :| q in qs;
      var id := slots[q].id;
      forall x | x in ids - {id} ensures Among(slots, qs - {q}, x) {
        assert Among(slots, qs, x);
        var p :| p in qs && slots[p] == Armed(x);
        assert p in qs - {q};
      }
      SameCount(slots, qs - {q}, ids - {id});
    }
  }

  /** The id that equals the sentinel: the frame is counted as arrived, and its buffer looks empty. */
  lemma SentinelFrameIsLost(r: Ring, q: nat, r': Ring)
    requires Inv(r) && r.nextId == FREE && Next(r, Arrived(q, FREE), r')
    ensures r'.slots == r.slots && r'.arrived == r.arrived + [FREE] && r'.nextId == 0 && !Inv(r')
  {
    assert r.slots[q := Armed(FREE)] == r.slots;
  }
}
