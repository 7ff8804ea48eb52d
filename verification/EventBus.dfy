/**
 The bounded event bus. Capacity is reserved before an event exists, so publishing on a reservation
 never waits; a reservation serves once, to publish or to cancel.
 */
module EventBus {

  /** The slots taken, the queued events, those dequeued whose slot is still taken, and the ghost of all traffic. */
  datatype Bus<E> = Bus(slots: nat, queue: seq<E>, transit: nat, closed: bool, published: seq<E>, consumed: seq<E>)

  function Put<E>(b: Bus<E>, e: E): Bus<E> { b.(queue := b.queue + [e], published := b.published + [e]) }

  function Grab<E>(b: Bus<E>): Bus<E> { b.(slots := b.slots + 1) }

  function Drop<E>(b: Bus<E>): Bus<E> { b.(slots := if b.slots > 0 then b.slots - 1 else 0) }

  // The head of the queue goes to the consumer.
  function Pull<E>(b: Bus<E>): Bus<E> {
    if b.queue == [] then b
    else b.(queue := b.queue[1..], consumed := b.consumed + [b.queue[0]], transit := b.transit + 1)
  }

  // Its slot is free again.
  function Return<E>(b: Bus<E>): Bus<E> {
    Drop(b).(transit := if b.transit > 0 then b.transit - 1 else 0)
  }

  /** How a wait ends. */
  datatype Ending = Served | Cancelled | Closed

  class Reservation {
    var used: bool

    constructor ()
      ensures !used
    {
      used := false;
    }
  }

  class EventBus<E> {
    const capacity: nat
    var slots: nat
    var queue: seq<E>
    var closed: bool
    // The reservations that have neither published nor been cancelled.
    ghost var live: set<Reservation>
    ghost var published: seq<E>
    ghost var consumed: seq<E>

    ghost function Contents(): Bus<E>
      reads this
    {
      Bus(slots, queue, 0, closed, published, consumed)
    }

    /** A slot for every live reservation and queued event, within the capacity; consumed in order. */
    ghost predicate Valid()
      reads this, live
    {
      && slots == |live| + |queue| <= capacity
      && published == consumed + queue
      && forall r <- live :: !r.used
    }

    constructor (capacity: nat)
      ensures Valid() && this.capacity == capacity && live == {} && Contents() == Bus(0, [], 0, false, [], [])
    {
      this.capacity, slots, queue, closed := capacity, 0, [], false;
      live, published, consumed := {}, [], [];
    }

    /**
     Waits until a slot is free, the caller's context is done or the bus is closed, and then takes any of
     these cases. A slot taken on a closed bus is given back.
     */
    method Reserve(done: bool) returns (end: Ending, r: Reservation)
      requires Valid() && (slots < capacity || done || closed)
      modifies this`slots, this`live
      ensures Valid() && fresh(r)
      ensures end.Served? ==> !closed && old(slots) < capacity
      ensures end.Cancelled? ==> done
      ensures end.Closed? ==> closed
      ensures Contents() == if end.Served? then Grab(old(Contents())) else old(Contents())
      ensures live == if end.Served? then old(live) + {r} else old(live)
    {
      r := new Reservation();
      var free: bool, cancelled: bool := *, *;
      if slots < capacity && (free || !(done || closed)) {
        slots := slots + 1;
        if closed {
          slots := slots - 1;
          return Closed, r;
        }
        live := live + {r};
        return Served, r;
      }
      end := if done && (cancelled || !closed) then Cancelled else Closed;
    }

    /** Publishes at once: the queue has room for the holder of an unused reservation. */
    method Publish(r: Reservation, e: E) returns (ok: bool)
      requires Valid() && (r in live || r.used)
      modifies this`slots, this`queue, this`live, this`published, r
      ensures Valid() && r.used && live == old(live) - {r}
      ensures old(r.used) ==> !ok && Contents() == old(Contents())
      ensures !old(r.used) ==> closed || ok
      ensures !old(r.used) ==> Contents() == if ok then Put(old(Contents()), e) else Drop(old(Contents()))
    {
      if r.used {
        return false;
      }
      assert |queue| < capacity by {
        assert |live - {r}| == |live| - 1;
      }
      var chosen: bool := *;
      r.used, live := true, live - {r};
      if closed && chosen {
        slots := slots - 1;
        return false;
      }
      queue, published := queue + [e], published + [e];
      ok := true;
    }

    /** Gives an unused reservation back. */
    method Cancel(r: Reservation)
      requires Valid() && (r in live || r.used)
      modifies this`slots, this`live, r
      ensures Valid() && r.used && live == old(live) - {r}
      ensures Contents() == if old(r.used) then old(Contents()) else Drop(old(Contents()))
    {
      if !r.used {
        assert |live - {r}| == |live| - 1;
        r.used, live, slots := true, live - {r}, slots - 1;
      }
    }

    method Take() returns (e: seq<E>)
      requires Valid() && queue != []
      modifies this`slots, this`queue, this`consumed
      ensures Valid() && Contents() == Return(Pull(old(Contents()))) && e == [old(queue)[0]]
    {
      e := [queue[0]];
      queue, consumed, slots := queue[1..], consumed + e, slots - 1;
    }

    /**
     Waits until an event is queued, the caller's context is done or the bus is closed, and then takes any
     of these cases. A closed bus is emptied before it reports its end.
     */
    method Next(done: bool) returns (end: Ending, e: seq<E>)
      requires Valid() && (queue != [] || done || closed)
      modifies this`slots, this`queue, this`consumed
      ensures Valid() && (end.Served? ==> old(queue) != [] && e == [old(queue)[0]])
      ensures end.Cancelled? ==> done
      ensures end.Closed? ==> closed && old(queue) == []
      ensures Contents() == if end.Served? then Return(Pull(old(Contents()))) else old(Contents())
    {
      e := [];
      var queued: bool, cancelled: bool := *, *;
      if queue != [] && (queued || !(done || closed)) {
        e := Take();
        return Served, e;
      }
      if done && (cancelled || !closed) {
        return Cancelled, e;
      }
      if queue != [] {
        e := Take();
        return Served, e;
      }
      end := Closed;
    }

    method Close()
      modifies this`closed
      ensures Contents() == old(Contents()).(closed := true)
    {
      closed := true;
    }
  }
}
