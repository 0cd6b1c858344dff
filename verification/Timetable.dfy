/** A map of pending values keyed by due time, drained one tick at a time.

    The sensor manager keeps three such maps (exposures, analog gains, digital
    gains).  `plan` lists every value ever booked, in booking order; `OnTime`
    says that the log of delivered values and the map split the plan exactly at
    the current time, which is what "each booked value is delivered exactly once,
    at its due time and in booking order" means.
  */
module Timetable {
  import opened Basics

  datatype Entry<+V> = Entry(at: int, value: V)

  /** What the map holds beyond `now` are exactly the values of `rest`, which fall due one after the other. */
  ghost predicate Holds<V>(pending: map<int, V>, rest: seq<Entry<V>>, now: int) {
    if rest == [] then forall k :: now < k ==> k !in pending
    else
      var e := rest[0];
      && now < e.at && e.at in pending && pending[e.at] == e.value
      && (forall k :: now < k < e.at ==> k !in pending)
      && Holds(pending, rest[1..], e.at)
  }

  ghost predicate OnTime<V>(plan: seq<Entry<V>>, now: int, pending: map<int, V>, log: seq<Entry<V>>) {
    && log <= plan
    && (forall i :: 0 <= i < |log| ==> log[i].at <= now)
    && (forall k :: k in pending ==> now < k)
    && Holds(pending, plan[|log|..], now)
  }

  /** The log after reaching time `t`, which delivers what is due from the map. */
  function Delivered<V>(log: seq<Entry<V>>, pending: map<int, V>, t: int): seq<Entry<V>> {
    if t in pending then log + [Entry(t, pending[t])] else log
  }

  lemma {:induction false} HeldAt<V>(pending: map<int, V>, rest: seq<Entry<V>>, now: int, i: nat)
    requires Holds(pending, rest, now) && i < |rest|
    ensures now < rest[i].at && rest[i].at in pending && pending[rest[i].at] == rest[i].value
  {
    if i > 0 {
      HeldAt(pending, rest[1..], rest[0].at, i - 1);
    }
  }

  lemma {:induction false} HoldsWithout<V>(pending: map<int, V>, rest: seq<Entry<V>>, now: int, k: int)
    requires Holds(pending, rest, now) && k <= now
    ensures Holds(Without(pending, k), rest, now)
  {
    if rest != [] {
      HoldsWithout(pending, rest[1..], rest[0].at, k);
    }
  }

  /** One tick delivers exactly the entry that is due and loses nothing. */
  lemma {:induction false} Tick<V>(plan: seq<Entry<V>>, now: int, pending: map<int, V>, log: seq<Entry<V>>)
    requires OnTime(plan, now, pending, log)
    ensures OnTime(plan, now + 1, Without(pending, now + 1), Delivered(log, pending, now + 1))
  {
    var rest := plan[|log|..];
    if rest != [] && rest[0].at == now + 1 {
      HoldsWithout(pending, rest[1..], now + 1, now + 1);
      assert plan[|log| + 1..] == rest[1..];
      assert plan[..|log| + 1] == log + [rest[0]];
    } else {
      assert now + 1 !in pending;
      HoldsWithout(pending, rest, now + 1, now + 1);
    }
  }

  lemma {:induction false} HoldsOneMore<V>(pending: map<int, V>, rest: seq<Entry<V>>, now: int, e: Entry<V>)
    requires Holds(pending, rest, now) && now < e.at
    requires forall i :: 0 <= i < |rest| ==> rest[i].at < e.at
    ensures Holds(pending[e.at := e.value], rest + [e], now)
  {
    if rest == [] {
      assert (rest + [e])[1..] == [] && Holds(pending[e.at := e.value], [], e.at);
    } else {
      HoldsOneMore(pending, rest[1..], rest[0].at, e);
      assert (rest + [e])[1..] == rest[1..] + [e];
    }
  }

  /** Booking a value later than everything booked so far extends the plan. */
  lemma {:induction false} Book<V>(plan: seq<Entry<V>>, now: int, pending: map<int, V>, log: seq<Entry<V>>, e: Entry<V>)
    requires OnTime(plan, now, pending, log)
    requires now < e.at
    requires forall i :: 0 <= i < |plan| ==> plan[i].at < e.at
    ensures OnTime(plan + [e], now, pending[e.at := e.value], log)
  {
    HoldsOneMore(pending, plan[|log|..], now, e);
    assert (plan + [e])[|log|..] == plan[|log|..] + [e];
  }

  lemma {:induction false} NothingHeld<V>(pending: map<int, V>, rest: seq<Entry<V>>, now: int)
    requires Holds(pending, rest, now) && forall e :: e in rest ==> e.at <= now
    ensures rest == []
  {
  }

  /** A value due at once is delivered at once, if everything booked so far fell due before. */
  lemma {:induction false} DeliverAtOnce<V>(plan: seq<Entry<V>>, now: int, pending: map<int, V>, log: seq<Entry<V>>, e: Entry<V>)
    requires OnTime(plan, now, pending, log)
    requires now == e.at
    requires forall i :: 0 <= i < |plan| ==> plan[i].at < e.at
    ensures OnTime(plan + [e], now, pending, log + [e])
  {
    NothingHeld(pending, plan[|log|..], now);
    assert plan == log && (plan + [e])[|log + [e]|..] == [];
  }

  /** Where each booked entry is: delivered at its own index of the log once due, pending until then. */
  lemma {:induction false} DeliveredOnceDue<V>(plan: seq<Entry<V>>, now: int, pending: map<int, V>, log: seq<Entry<V>>, i: nat)
    requires OnTime(plan, now, pending, log) && i < |plan|
    ensures i < |log| <==> plan[i].at <= now
    ensures i < |log| ==> log[i] == plan[i]
    ensures i >= |log| ==> plan[i].at in pending && pending[plan[i].at] == plan[i].value
  {
    if i >= |log| {
      HeldAt(pending, plan[|log|..], now, i - |log|);
    }
  }
}
