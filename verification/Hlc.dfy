/** The hybrid logical clock: 48 bits of milliseconds above 16 bits of counter,
    packed in one unsigned 64-bit word. */
module Hlc {
  import opened Basics

  const MAX_LOGICAL: u16 := 0xFFFF

  /** `physical << 16 | logical`; the shift drops the bits above the 48th. */
  function Compose(physical: u64, logical: u16): u64 {
    physical % TWO_48 * TWO_16 + logical
  }

  function Physical(ts: u64): u64 {
    ts / TWO_16
  }

  function Logical(ts: u64): u16 {
    ts % TWO_16
  }

  function Max3(a: u64, b: u64, c: u64): u64 {
    if a >= b && a >= c then a else if b >= c then b else c
  }

  /** Addition of one in an unsigned 16-bit word. */
  function Succ16(l: u16): u16 {
    (l + 1) % TWO_16
  }

  // ---------------------------------------------------------------- the reference

  /** What a tick is meant to give, in unbounded integers. */
  function NextTick(ts: u64, now: u64): nat {
    if now > Physical(ts) then now * TWO_16 else ts + 1
  }

  /** What an update is meant to give, in unbounded integers. */
  function NextUpdate(ts: u64, incoming: u64, now: u64): nat {
    if now > Physical(ts) && now > Physical(incoming) then now * TWO_16 else Max(ts, incoming) + 1
  }

  /** The tick does not run off the end of the 64-bit word. */
  predicate TickFits(ts: u64, now: u64) {
    if now > Physical(ts) then now % TWO_48 > Physical(ts) else ts < MAX_U64
  }

  /** The update neither runs off the 48 physical bits nor finds the counter it
      is about to advance already full. */
  predicate UpdateFits(ts: u64, incoming: u64, now: u64) {
    if now > Physical(ts) && now > Physical(incoming)
    then now % TWO_48 > Max(Physical(ts), Physical(incoming))
    else Logical(Max(ts, incoming)) != MAX_LOGICAL
  }

  // ---------------------------------------------------------------- what the code computes

  function TickTs(ts: u64, now: u64): u64 {
    var physCur := Physical(ts);
    if now > physCur then Compose(now, 0)
    else if Logical(ts) < MAX_LOGICAL then Compose(physCur, Logical(ts) + 1)
    else Compose(physCur + 1, 0)
  }

  /** The counter an update installs, by the case the greatest physical part falls in. */
  function UpdateLogical(ts: u64, incoming: u64, now: u64): u16 {
    var physLocal, physIncoming := Physical(ts), Physical(incoming);
    var maxPhys := Max3(now, physLocal, physIncoming);
    if maxPhys == now then
      if now == physLocal && now == physIncoming then Succ16(Max(Logical(ts), Logical(incoming)))
      else if now == physLocal then Succ16(Logical(ts))
      else if now == physIncoming then Succ16(Logical(incoming))
      else 0
    else if maxPhys == physLocal then
      if physLocal == physIncoming then Succ16(Max(Logical(ts), Logical(incoming)))
      else Succ16(Logical(ts))
    else Succ16(Logical(incoming))
  }

  function UpdateTs(ts: u64, incoming: u64, now: u64): u64 {
    Compose(Max3(now, Physical(ts), Physical(incoming)), UpdateLogical(ts, incoming, now))
  }

  /** The clock object; the time source is read by the caller and passed in. */
  class Clock {
    var ts: u64

    constructor ()
      ensures ts == 0
    {
      ts := 0;
    }

    method Tick(now: u64) returns (r: u64)
      modifies this
      ensures r == ts == TickTs(old(ts), now)
    {
      var physCur := Physical(ts);
      if now > physCur {
        ts := Compose(now, 0);
      } else {
        var logical := Logical(ts);
        if logical < MAX_LOGICAL {
          ts := Compose(physCur, logical + 1);
        } else {
          ts := Compose(physCur + 1, 0);
        }
      }
      r := ts;
    }

    method Update(incoming: u64, now: u64) returns (r: u64)
      modifies this
      ensures r == ts == UpdateTs(old(ts), incoming, now)
    {
      var physLocal, physIncoming := Physical(ts), Physical(incoming);
      var maxPhys: int := Max3(now, physLocal, physIncoming);
      var logical: int;
      if maxPhys == now {
        if now == physLocal && now == physIncoming {
          logical := Succ16(Max(Logical(ts), Logical(incoming)));
        } else if now == physLocal {
          logical := Succ16(Logical(ts));
        } else if now == physIncoming {
          logical := Succ16(Logical(incoming));
        } else {
          logical := 0;
        }
      } else if maxPhys == physLocal {
        if physLocal == physIncoming {
          logical := Succ16(Max(Logical(ts), Logical(incoming)));
        } else {
          logical := Succ16(Logical(ts));
        }
      } else {
        logical := Succ16(Logical(incoming));
      }
      // The source's guard: a 16-bit counter never exceeds its own maximum.
      if logical > MAX_LOGICAL {
        maxPhys := maxPhys + 1;
        logical := 0;
      }
      ts := Compose(maxPhys, logical);
      r := ts;
    }
  }

  // ---------------------------------------------------------------- single events

  /** A tick is the reference tick cut to 64 bits, for every word and every time. */
  lemma TickIsNextTick(ts: u64, now: u64)
    ensures TickTs(ts, now) == NextTick(ts, now) % TWO_64
  {
    if now > Physical(ts) {
      ComposeAhead(now);
    }
  }

  lemma TickGrowsIff(ts: u64, now: u64)
    ensures TickTs(ts, now) > ts <==> TickFits(ts, now)
  {
  }

  /** An update is the reference update as long as the counter has room; when it
      has none, the clock falls back to the start of the same millisecond. */
  lemma UpdateExact(ts: u64, incoming: u64, now: u64)
    ensures var latest := Max(ts, incoming);
            UpdateTs(ts, incoming, now) ==
            if now > Physical(ts) && now > Physical(incoming) then NextUpdate(ts, incoming, now) % TWO_64
            else if Logical(latest) == MAX_LOGICAL then latest - MAX_LOGICAL
            else NextUpdate(ts, incoming, now)
  {
    if now > Physical(ts) && now > Physical(incoming) {
      ComposeAhead(now);
    } else {
      UpdateBehind(ts, incoming, now);
    }
  }

  lemma ComposeAhead(now: u64)
    ensures Compose(now, 0) == now * TWO_16 % TWO_64
  {
    assert now == TWO_48 * (now / TWO_48) + now % TWO_48;
    assert now * TWO_16 == TWO_64 * (now / TWO_48) + now % TWO_48 * TWO_16;
  }

  lemma UpdateBehind(ts: u64, incoming: u64, now: u64)
    requires now <= Physical(ts) || now <= Physical(incoming)
    ensures var latest := Max(ts, incoming);
            UpdateTs(ts, incoming, now) == if Logical(latest) == MAX_LOGICAL then latest - MAX_LOGICAL else latest + 1
  {
    assert UpdateLogical(ts, incoming, now) == Succ16(Logical(Max(ts, incoming)));
  }

  /** An update exceeds both the clock and the incoming stamp exactly when it fits. */
  lemma UpdateGrowsIff(ts: u64, incoming: u64, now: u64)
    ensures UpdateTs(ts, incoming, now) > Max(ts, incoming) <==> UpdateFits(ts, incoming, now)
  {
    UpdateExact(ts, incoming, now);
  }

  /** The clock is a hybrid one: within 48 bits of milliseconds it never lags behind the
      physical time, whether it ticks or is updated. */
  lemma KeepsUpWithTime(ts: u64, incoming: u64, now: u64)
    requires now < TWO_48
    ensures TickFits(ts, now) ==> Physical(TickTs(ts, now)) >= now
    ensures UpdateFits(ts, incoming, now) ==> Physical(UpdateTs(ts, incoming, now)) >= now
  {
    if TickFits(ts, now) {
      TickKeepsUp(ts, now);
    }
    if UpdateFits(ts, incoming, now) {
      UpdateKeepsUp(ts, incoming, now);
    }
  }

  lemma TickKeepsUp(ts: u64, now: u64)
    requires now < TWO_48 && TickFits(ts, now)
    ensures Physical(TickTs(ts, now)) >= now
  {
    TickIsNextTick(ts, now);
    AtLeastPhysical(NextTick(ts, now), now);
  }

  lemma UpdateKeepsUp(ts: u64, incoming: u64, now: u64)
    requires now < TWO_48 && UpdateFits(ts, incoming, now)
    ensures Physical(UpdateTs(ts, incoming, now)) >= now
  {
    UpdateExact(ts, incoming, now);
    AtLeastPhysical(NextUpdate(ts, incoming, now), now);
  }

  lemma AtLeastPhysical(word: nat, now: u64)
    requires now < TWO_48
    ensures word >= now * TWO_16 ==> word / TWO_16 >= now
    ensures now * TWO_16 < TWO_64
  {
  }

  /** The overflow guard of Update is dead: with a full counter the clock goes
      backwards by 65535, below both of its inputs. */
  lemma UpdateCanGoBackwards()
    ensures exists ts: u64, incoming: u64, now: u64 ::
              UpdateTs(ts, incoming, now) < ts && UpdateTs(ts, incoming, now) < incoming
  {
    var ts: u64 := 7 * TWO_16 + 0xFFFF;
    UpdateExact(ts, ts, 3);
    assert UpdateTs(ts, ts, 3) < ts;
  }

  // ---------------------------------------------------------------- runs of events

  datatype Event = Ticked(now: u64) | Updated(incoming: u64, now: u64)

  function After(ts: u64, e: Event): u64 {
    match e
    case Ticked(now) => TickTs(ts, now)
    case Updated(incoming, now) => UpdateTs(ts, incoming, now)
  }

  predicate Fits(ts: u64, e: Event) {
    match e
    case Ticked(now) => TickFits(ts, now)
    case Updated(incoming, now) => UpdateFits(ts, incoming, now)
  }

  /** The clock values a run of events leaves behind, the starting one first. */
  function Trace(ts: u64, events: seq<Event>): (trace: seq<u64>)
    ensures |trace| == |events| + 1 && trace[0] == ts
    decreases |events|
  {
    if events == [] then [ts] else [ts] + Trace(After(ts, events[0]), events[1..])
  }

  ghost predicate AllFit(ts: u64, events: seq<Event>)
    decreases |events|
  {
    events == [] || (Fits(ts, events[0]) && AllFit(After(ts, events[0]), events[1..]))
  }

  /** Every physical time read is at most `cap` and every incoming stamp too. */
  ghost predicate Below(events: seq<Event>, cap: nat) {
    forall e <- events :: e.now * TWO_16 <= cap && (e.Updated? ==> e.incoming <= cap)
  }

  lemma {:induction false} RunsIncrease(ts: u64, events: seq<Event>)
    requires AllFit(ts, events)
    ensures forall i, j :: 0 <= i < j <= |events| ==> Trace(ts, events)[i] < Trace(ts, events)[j]
    decreases |events|
  {
    if events != [] {
      var next := After(ts, events[0]);
      match events[0] {
        case Ticked(now) => TickGrowsIff(ts, now);
        case Updated(incoming, now) => UpdateGrowsIff(ts, incoming, now);
      }
      RunsIncrease(next, events[1..]);
      var trace := Trace(ts, events);
      assert trace == [ts] + Trace(next, events[1..]);
      forall i, j | 0 <= i < j <= |events| ensures trace[i] < trace[j] {
        if i == 0 {
          assert trace[1] == next;
        }
      }
    }
  }

  /** A clock never runs ahead of what it was shown by more than its number of events,
      wrapped or not. */
  lemma {:induction false} RunsStayClose(ts: u64, events: seq<Event>, cap: nat)
    requires ts <= cap && Below(events, cap)
    ensures Trace(ts, events)[|events|] <= cap + |events|
    decreases |events|
  {
    if events != [] {
      var next := After(ts, events[0]);
      assert events[0] in events;
      match events[0] {
        case Ticked(now) => TickIsNextTick(ts, now);
        case Updated(incoming, now) => UpdateExact(ts, incoming, now);
      }
      assert next <= cap + 1;
      RunsStayClose(next, events[1..], cap + 1);
    }
  }
}
