/**
 The bounded event ring of one device in src/server.rs: appending with eviction, reading after a cursor, and
 clients that chain cursors. B is the kind and data of an event; size is the length of its JSON form.
 */
module EventRing {
  const MAX_EVENTS := 4096
  const MAX_EVENT_BYTES := 4 * 1024 * 1024

  datatype Event<B> = Event(number: nat, body: B)

  /** An event with the length it was accounted with. */
  datatype Slot<B> = Slot(event: Event<B>, bytes: nat)

  /** seq, events and event_bytes of DeviceState. */
  datatype Ring<B> = Ring(last: nat, events: seq<Slot<B>>, bytes: nat)

  datatype Cursor = Cursor(epoch: string, after: nat)

  datatype Polled<B> = Restarted | Ahead | Gap | Batch(cursor: Cursor, events: seq<Event<B>>)

  function Total<B>(events: seq<Slot<B>>): nat {
    if events == [] then 0 else events[0].bytes + Total(events[1..])
  }

  predicate Over(count: nat, bytes: nat) {
    count > MAX_EVENTS || bytes > MAX_EVENT_BYTES
  }

  // ---------- the unbounded log behind a ring ----------

  function SlotOf<B>(log: seq<B>, k: nat, size: Event<B> -> nat): Slot<B>
    requires k < |log|
  {
    Slot(Event(k + 1, log[k]), size(Event(k + 1, log[k])))
  }

  /** Everything logged after position k. */
  function Tail<B>(log: seq<B>, k: nat, size: Event<B> -> nat): (r: seq<Slot<B>>)
    requires k <= |log|
    ensures |r| == |log| - k
  {
    seq(|log| - k, i requires 0 <= i < |log| - k => SlotOf(log, k + i, size))
  }

  /** The number of evicted events. */
  function First<B>(r: Ring<B>): int {
    r.last - |r.events|
  }

  /** The ring holds exactly the log's end, with its exact size, within both limits. */
  predicate Refines<B(==)>(r: Ring<B>, log: seq<B>, size: Event<B> -> nat) {
    && r.last == |log| && |r.events| <= |log|
    && r.events == Tail(log, First(r), size)
    && r.bytes == Total(r.events)
    && !Over(|r.events|, r.bytes)
  }

  function EventsFrom<B>(log: seq<B>, k: nat): seq<Event<B>>
    requires k <= |log|
  {
    seq(|log| - k, i requires 0 <= i < |log| - k => Event(k + i + 1, log[k + i]))
  }

  // ---------- appending ----------

  function Trimmed<B>(r: Ring<B>): Ring<B>
    requires r.bytes == Total(r.events)
    decreases |r.events|
  {
    if Over(|r.events|, r.bytes)
    then Trimmed(Ring(r.last, r.events[1..], r.bytes - r.events[0].bytes))
    else r
  }

  function Pushed<B>(r: Ring<B>, body: B, size: Event<B> -> nat): Ring<B> {
    var event := Event(r.last + 1, body);
    Ring(r.last + 1, r.events + [Slot(event, size(event))], r.bytes + size(event))
  }

  lemma {:induction false} TotalPush<B>(events: seq<Slot<B>>, s: Slot<B>)
    ensures Total(events + [s]) == Total(events) + s.bytes
  {
    if events == [] {
      assert [s][1..] == [];
    } else {
      assert (events + [s])[1..] == events[1..] + [s];
      TotalPush(events[1..], s);
    }
  }

  /** Store::emit on the ring. */
  method Append<B>(ring: Ring<B>, body: B, size: Event<B> -> nat) returns (r: Ring<B>)
    requires ring.bytes == Total(ring.events)
    ensures Pushed(ring, body, size).bytes == Total(Pushed(ring, body, size).events)
    ensures r == Trimmed(Pushed(ring, body, size))
  {
    var last := ring.last + 1;
    var event := Event(last, body);
    var bytes := size(event);
    var events := ring.events + [Slot(event, bytes)];
    TotalPush(ring.events, Slot(event, bytes));
    var eventBytes := ring.bytes + bytes;
    while |events| > MAX_EVENTS || eventBytes > MAX_EVENT_BYTES
      invariant eventBytes == Total(events)
      invariant Trimmed(Ring(last, events, eventBytes)) == Trimmed(Pushed(ring, body, size))
      decreases |events|
    {
      eventBytes := eventBytes - events[0].bytes;
      events := events[1..];
    }
    return Ring(last, events, eventBytes);
  }

  /** A ring whose limits have not been checked yet. */
  predicate Suffix<B(==)>(r: Ring<B>, log: seq<B>, size: Event<B> -> nat) {
    && r.last == |log| && |r.events| <= |log|
    && r.events == Tail(log, First(r), size)
    && r.bytes == Total(r.events)
  }

  lemma {:induction false} TrimmedRefines<B>(r: Ring<B>, log: seq<B>, size: Event<B> -> nat)
    requires Suffix(r, log, size)
    ensures Refines(Trimmed(r), log, size)
    ensures First(r) <= First(Trimmed(r)) <= |log|
    ensures forall k :: First(r) <= k < First(Trimmed(r)) ==> Over(|log| - k, Total(Tail(log, k, size)))
    decreases |r.events|
  {
    hide Over;
    if Over(|r.events|, r.bytes) {
      LimitsAllowEmpty(r);
      var next := Ring(r.last, r.events[1..], r.bytes - r.events[0].bytes);
      assert next.events == Tail(log, First(r) + 1, size);
      TrimmedRefines(next, log, size);
      assert r.events == Tail(log, First(r), size);
    }
  }

  lemma LimitsAllowEmpty<B>(r: Ring<B>)
    requires Over(|r.events|, r.bytes) && r.bytes == Total(r.events)
    ensures r.events != []
  {
  }

  lemma PushedIsSuffix<B>(r: Ring<B>, log: seq<B>, body: B, size: Event<B> -> nat)
    requires Refines(r, log, size)
    ensures Suffix(Pushed(r, body, size), log + [body], size)
  {
    var event := Event(r.last + 1, body);
    TotalPush(r.events, Slot(event, size(event)));
    TailPush(log, body, First(r), size);
  }

  lemma TailPush<B>(log: seq<B>, body: B, k: nat, size: Event<B> -> nat)
    requires k <= |log|
    ensures Tail(log + [body], k, size) == Tail(log, k, size) + [SlotOf(log + [body], |log|, size)]
  {
    forall i | 0 <= i < |log| - k ensures Tail(log + [body], k, size)[i] == Tail(log, k, size)[i] {
      assert Tail(log + [body], k, size)[i] == SlotOf(log + [body], k + i, size);
      assert Tail(log, k, size)[i] == SlotOf(log, k + i, size);
    }
  }

  /**
   One emit: the ring still is the end of the log and within both limits, and an event was evicted only because
   keeping it would have broken a limit.
   */
  lemma AppendRefines<B>(r: Ring<B>, log: seq<B>, body: B, size: Event<B> -> nat)
    requires Refines(r, log, size)
    ensures Pushed(r, body, size).bytes == Total(Pushed(r, body, size).events)
    ensures var (r', log') := (Trimmed(Pushed(r, body, size)), log + [body]);
            && Refines(r', log', size)
            && First(r) <= First(r') <= |log'|
            && forall k :: First(r) <= k < First(r') ==> Over(|log'| - k, Total(Tail(log', k, size)))
  {
    hide Trimmed;
    hide Refines;
    hide Over;
    PushedIsSuffix(r, log, body, size);
    TrimmedRefines(Pushed(r, body, size), log + [body], size);
  }

  lemma OneEvent<B>(log: seq<B>, size: Event<B> -> nat)
    requires log != []
    ensures var n := |log| - 1; Total(Tail(log, n, size)) == size(Event(n + 1, log[n]))
  {
    var n := |log| - 1;
    assert Tail(log, n, size) == [SlotOf(log, n, size)];
    assert Tail(log, n, size)[1..] == [];
  }

  /** A ring holds at most 4096 events and 4 MiB, and evicts nothing as long as the next event fits. */
  lemma LimitsAreKept<B>(r: Ring<B>, log: seq<B>, body: B, size: Event<B> -> nat)
    requires Refines(r, log, size)
    ensures Pushed(r, body, size).bytes == Total(Pushed(r, body, size).events)
    ensures var r' := Trimmed(Pushed(r, body, size));
            && |r'.events| <= 4096 && r'.bytes <= 4194304
            && (|r.events| < 4096 && r.bytes + size(Event(|log| + 1, body)) <= 4194304 ==> First(r') == First(r))
  {
    AppendRefines(r, log, body, size);
    PushedIsSuffix(r, log, body, size);
  }

  /** The ring is left empty exactly by an event that is too large for it. */
  lemma EmptiedIff<B>(r: Ring<B>, log: seq<B>, body: B, size: Event<B> -> nat)
    requires Refines(r, log, size)
    ensures Pushed(r, body, size).bytes == Total(Pushed(r, body, size).events)
    ensures Trimmed(Pushed(r, body, size)).events == [] <==> size(Event(|log| + 1, body)) > MAX_EVENT_BYTES
  {
    hide Trimmed;
    AppendRefines(r, log, body, size);
    var log' := log + [body];
    var r' := Trimmed(Pushed(r, body, size));
    OneEvent(log', size);
    if r'.events == [] {
      assert Over(1, Total(Tail(log', |log|, size)));
    } else {
      TotalAtLeastLast(r'.events);
    }
  }

  lemma {:induction false} TotalAtLeastLast<B>(events: seq<Slot<B>>)
    requires events != []
    ensures Total(events) >= events[|events| - 1].bytes
  {
    if |events| > 1 {
      TotalAtLeastLast(events[1..]);
    }
  }

  // ---------- reading ----------

  /** Store::events_after, for the epoch of the store. */
  function Poll<B>(r: Ring<B>, epoch: string, cursor: Cursor): Polled<B> {
    if cursor.epoch != epoch then Restarted
    else if cursor.after > r.last then Ahead
    else if r.events != [] && cursor.after < r.events[0].event.number - 1 then Gap
    else Batch(Cursor(epoch, r.last), Later(r.events, cursor.after))
  }

  function Later<B>(events: seq<Slot<B>>, after: nat): seq<Event<B>> {
    if events == [] then []
    else
      var n := |events| - 1;
      Later(events[..n], after) + if events[n].event.number > after then [events[n].event] else []
  }

  method EventsAfter<B>(ring: Ring<B>, epoch: string, cursor: Cursor) returns (r: Polled<B>)
    ensures r == Poll(ring, epoch, cursor)
  {
    if cursor.epoch != epoch {
      return Restarted;
    }
    if cursor.after > ring.last {
      return Ahead;
    }
    if |ring.events| > 0 && cursor.after < ring.events[0].event.number - 1 {
      return Gap;
    }
    var later: seq<Event<B>> := [];
    for i := 0 to |ring.events|
      invariant later == Later(ring.events[..i], cursor.after)
    {
      assert ring.events[..i + 1][..i] == ring.events[..i];
      if ring.events[i].event.number > cursor.after {
        later := later + [ring.events[i].event];
      }
    }
    assert ring.events[..|ring.events|] == ring.events;
    return Batch(Cursor(epoch, ring.last), later);
  }

  lemma LaterPush<B>(events: seq<Slot<B>>, s: Slot<B>, after: nat)
    ensures Later(events + [s], after) == Later(events, after) + if s.event.number > after then [s.event] else []
  {
    assert (events + [s])[..|events + [s]| - 1] == events;
  }

  lemma {:induction false} LaterOfTail<B>(log: seq<B>, k: nat, after: nat, size: Event<B> -> nat)
    requires k <= |log| && k <= after
    ensures Later(Tail(log, k, size), after) == if after <= |log| then EventsFrom(log, after) else []
    decreases |log|
  {
    hide Later;
    if |log| > k {
      var n := |log| - 1;
      var earlier := log[..n];
      assert log == earlier + [log[n]];
      TailPush(earlier, log[n], k, size);
      LaterOfTail(earlier, k, after, size);
      LaterPush(Tail(earlier, k, size), SlotOf(log, n, size), after);
      if after <= n {
        assert EventsFrom(log, after) == EventsFrom(earlier, after) + [Event(n + 1, log[n])];
      } else if after == n + 1 {
        assert EventsFrom(log, after) == [];
      }
    } else {
      NothingLater(Tail(log, k, size), after);
      if after == |log| {
        assert EventsFrom(log, after) == [];
      }
    }
  }

  lemma NothingLater<B>(events: seq<Slot<B>>, after: nat)
    requires events == []
    ensures Later(events, after) == []
  {
  }

  /**
   What a client gets: the gap error exactly when an event it asked for was evicted and some event is retained;
   otherwise every later event, once and in order, provided something is retained or nothing was asked for.
   */
  lemma PollMeans<B>(r: Ring<B>, log: seq<B>, size: Event<B> -> nat, epoch: string, cursor: Cursor)
    requires Refines(r, log, size) && cursor.epoch == epoch
    ensures Poll(r, epoch, cursor) != Restarted
    ensures Poll(r, epoch, cursor) == Ahead <==> cursor.after > |log|
    ensures Poll(r, epoch, cursor) == Gap <==> r.events != [] && cursor.after < First(r)
    ensures Poll(r, epoch, cursor).Batch? ==> Poll(r, epoch, cursor).cursor == Cursor(epoch, |log|)
    ensures Poll(r, epoch, cursor).Batch? ==>
              (Poll(r, epoch, cursor).events == EventsFrom(log, cursor.after)
               <==> r.events != [] || cursor.after == |log|)
  {
    hide Total;
    hide Later;
    hide Over;
    if r.events != [] {
      assert r.events[0] == SlotOf(log, First(r), size);
    }
    if cursor.after <= |log| && (r.events == [] || First(r) <= cursor.after) {
      if r.events != [] {
        LaterOfTail(log, First(r), cursor.after, size);
      } else {
        NothingLater(r.events, cursor.after);
        assert |EventsFrom(log, cursor.after)| == |log| - cursor.after;
      }
    }
  }

  // ---------- clients that chain cursors ----------

  datatype Action<B> = Emits(body: B) | Polls

  /** A device's ring with its log, and a client that goes on from each cursor it is given. */
  datatype Client<B> = Client(ring: Ring<B>, log: seq<B>, cursor: nat, received: seq<Event<B>>, gap: bool)

  function Act<B>(c: Client<B>, a: Action<B>, epoch: string, size: Event<B> -> nat): Client<B>
    requires c.ring.bytes == Total(c.ring.events)
  {
    match a
    case Emits(body) =>
      TotalPush(c.ring.events, Slot(Event(c.ring.last + 1, body), size(Event(c.ring.last + 1, body))));
      c.(ring := Trimmed(Pushed(c.ring, body, size)), log := c.log + [body])
    case Polls =>
      if c.gap then c
      else match Poll(c.ring, epoch, Cursor(epoch, c.cursor))
        case Batch(next, events) => c.(cursor := next.after, received := c.received + events)
        case _ => c.(gap := true)
  }

  function Slice<B>(log: seq<B>, from: nat, to: nat): seq<Event<B>>
    requires from <= to <= |log|
  {
    seq(to - from, i requires 0 <= i < to - from => Event(from + i + 1, log[from + i]))
  }

  /** The client has seen everything between its first cursor and its latest, once and in order. */
  predicate Informed<B(==)>(c: Client<B>, start: nat, size: Event<B> -> nat) {
    && Refines(c.ring, c.log, size)
    && start <= c.cursor <= |c.log|
    && c.received == Slice(c.log, start, c.cursor)
    && (c.gap ==> c.cursor < First(c.ring))
  }

  /** No event is too large for the ring. */
  predicate Fitting<B>(log: seq<B>, size: Event<B> -> nat) {
    forall k :: 0 <= k < |log| ==> size(Event(k + 1, log[k])) <= MAX_EVENT_BYTES
  }

  lemma FittingKeepsOne<B>(c: Client<B>, body: B, epoch: string, size: Event<B> -> nat)
    requires Refines(c.ring, c.log, size) && Fitting(c.log + [body], size)
    ensures Act(c, Emits(body), epoch, size).ring.events != []
  {
    hide Trimmed;
    EmptiedIff(c.ring, c.log, body, size);
    var log' := c.log + [body];
    assert size(Event(|c.log| + 1, log'[|c.log|])) <= MAX_EVENT_BYTES;
  }

  lemma EmitKeepsInformed<B>(c: Client<B>, start: nat, body: B, epoch: string, size: Event<B> -> nat)
    requires Informed(c, start, size)
    ensures Informed(Act(c, Emits(body), epoch, size), start, size)
  {
    hide Trimmed;
    hide Refines;
    AppendRefines(c.ring, c.log, body, size);
    assert c.ring.bytes == Total(c.ring.events) by { Accounted(c, size); }
    assert Slice(c.log + [body], start, c.cursor) == Slice(c.log, start, c.cursor);
  }

  lemma Accounted<B>(c: Client<B>, size: Event<B> -> nat)
    requires Refines(c.ring, c.log, size)
    ensures c.ring.bytes == Total(c.ring.events) && c.ring.last == |c.log|
  {
  }

  lemma PollKeepsInformed<B>(c: Client<B>, start: nat, epoch: string, size: Event<B> -> nat)
    requires Informed(c, start, size)
    requires c.ring.events != [] || c.log == []
    ensures Informed(Act(c, Polls, epoch, size), start, size)
  {
    hide Poll;
    hide Total;
    hide Over;
    PollMeans(c.ring, c.log, size, epoch, Cursor(epoch, c.cursor));
    if Poll(c.ring, epoch, Cursor(epoch, c.cursor)).Batch? {
      assert Slice(c.log, start, |c.log|) == Slice(c.log, start, c.cursor) + EventsFrom(c.log, c.cursor);
    }
  }

  /** Where a client is after some emits and polls. */
  function ClientAfter<B>(c: Client<B>, actions: seq<Action<B>>, epoch: string, size: Event<B> -> nat): (r: Client<B>)
    requires Refines(c.ring, c.log, size)
    ensures Refines(r.ring, r.log, size)
    decreases |actions|
  {
    if actions == [] then c
    else
      var n := |actions| - 1;
      var before := ClientAfter(c, actions[..n], epoch, size);
      ActRefines(before, actions[n], epoch, size);
      Act(before, actions[n], epoch, size)
  }

  lemma ActRefines<B>(c: Client<B>, a: Action<B>, epoch: string, size: Event<B> -> nat)
    requires Refines(c.ring, c.log, size)
    ensures Refines(Act(c, a, epoch, size).ring, Act(c, a, epoch, size).log, size)
  {
    hide Trimmed;
    hide Poll;
    hide Refines;
    Accounted(c, size);
    if a.Emits? {
      AppendRefines(c.ring, c.log, a.body, size);
    }
  }

  lemma LogGrows<B>(c: Client<B>, a: Action<B>, epoch: string, size: Event<B> -> nat)
    requires c.ring.bytes == Total(c.ring.events)
    ensures c.log <= Act(c, a, epoch, size).log
  {
    hide Trimmed;
    hide Poll;
  }

  lemma FittingPrefix<B>(a: seq<B>, b: seq<B>, size: Event<B> -> nat)
    requires a <= b && Fitting(b, size)
    ensures Fitting(a, size)
  {
    forall k | 0 <= k < |a| ensures size(Event(k + 1, a[k])) <= MAX_EVENT_BYTES {
      assert a[k] == b[k];
    }
  }

  /**
   Any interleaving of emits and polls: as long as no event is too large for the ring, a client has received
   exactly the events between its first and its latest cursor, and it is told of a gap only when an event
   after its cursor was evicted.
   */
  lemma {:induction false} ClientSeesEverything<B>(c: Client<B>, actions: seq<Action<B>>, epoch: string,
                                                   size: Event<B> -> nat)
    requires Informed(c, c.cursor, size) && (c.ring.events != [] || c.log == [])
    requires Fitting(ClientAfter(c, actions, epoch, size).log, size)
    ensures var r := ClientAfter(c, actions, epoch, size);
            Informed(r, c.cursor, size) && (r.ring.events != [] || r.log == [])
    decreases |actions|
  {
    hide Act;
    hide Informed;
    hide Refines;
    hide Fitting;
    Started(c, size);
    if actions != [] {
      var n := |actions| - 1;
      var before := ClientAfter(c, actions[..n], epoch, size);
      Accounted(before, size);
      LogGrows(before, actions[n], epoch, size);
      FittingPrefix(before.log, ClientAfter(c, actions, epoch, size).log, size);
      ClientSeesEverything(c, actions[..n], epoch, size);
      match actions[n] {
        case Emits(body) =>
          EmittedLog(before, body, epoch, size);
          FittingKeepsOne(before, body, epoch, size);
          EmitKeepsInformed(before, c.cursor, body, epoch, size);
        case Polls =>
          PollKeepsRing(before, epoch, size);
          PollKeepsInformed(before, c.cursor, epoch, size);
      }
    }
  }

  lemma Started<B>(c: Client<B>, size: Event<B> -> nat)
    requires Informed(c, c.cursor, size)
    ensures Refines(c.ring, c.log, size)
  {
  }

  lemma EmittedLog<B>(c: Client<B>, body: B, epoch: string, size: Event<B> -> nat)
    requires c.ring.bytes == Total(c.ring.events)
    ensures Act(c, Emits(body), epoch, size).log == c.log + [body]
  {
    hide Trimmed;
  }

  lemma PollKeepsRing<B>(c: Client<B>, epoch: string, size: Event<B> -> nat)
    requires c.ring.bytes == Total(c.ring.events)
    ensures var c' := Act(c, Polls, epoch, size); c'.ring == c.ring && c'.log == c.log
  {
    hide Poll;
  }

  /** What the limit on the size is for: one event above it would be lost, and a client told there was none. */
  lemma OversizedEventIsLost<B>(body: B, epoch: string)
    ensures var size := (e: Event<B>) => MAX_EVENT_BYTES + 1;
            var empty: Ring<B> := Ring(0, [], 0);
            && Refines(empty, [], size)
            && Trimmed(Pushed(empty, body, size)) == Ring(1, [], 0)
            && Refines(Ring(1, [], 0), [body], size)
            && Poll<B>(Ring(1, [], 0), epoch, Cursor(epoch, 0)) == Batch(Cursor(epoch, 1), [])
            && EventsFrom([body], 0) == [Event(1, body)]
  {
    var size := (e: Event<B>) => MAX_EVENT_BYTES + 1;
    var empty: Ring<B> := Ring(0, [], 0);
    TotalPush(empty.events, Slot(Event(1, body), MAX_EVENT_BYTES + 1));
    assert Pushed(empty, body, size).events[1..] == [];
  }
}
