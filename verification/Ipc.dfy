/** Message passing (kernel/src/ipc.rs): ports with bounded queues, blocked
    receivers, timeouts and the deadlock detector. The size of each live shared
    region and the current time are inputs of the calls that read them. */
module Ipc {
  import opened Words
  import opened WaitGraph
  import opened IpcTrace

  const MAX_MESSAGE_SIZE := 256
  const ZERO_COPY_THRESHOLD := 128
  const MAX_BATCH_SIZE := 32
  const MAX_QUEUE_DEPTH := 64
  const U64_MAX: nat := 0xFFFF_FFFF_FFFF_FFFF
  const U128_MAX: nat := 0xFFFF_FFFF_FFFF_FFFF_FFFF_FFFF_FFFF_FFFF

  type Byte = b: nat | b < 256

  datatype Message = Message(sender: nat, kind: nat, payload: seq<Byte>, region: Option<nat>, timestamp: nat)

  datatype IpcError =
    | InvalidPort | PermissionDenied | MessageTooLarge | PortBusy | BatchTooLarge | QueueFull
    | DeadlockDetected | InvalidSharedRegion | RequiresSharedMemory | SharedMemoryPayloadConflict

  datatype Result<+T> = Ok(value: T) | Err(error: IpcError)

  datatype Metrics = Metrics(
    sent: nat, received: nat, bytesSent: nat, bytesReceived: nat,
    minLatency: Option<nat>, maxLatency: Option<nat>, totalLatency: nat, first: Option<nat>, last: Option<nat>)

  const NO_METRICS := Metrics(0, 0, 0, 0, None, None, 0, None, None)

  datatype Port = Port(owner: nat, messages: seq<Message>, receiver: Option<nat>, maxPriority: Option<nat>,
    metrics: Metrics)

  datatype Waiter = Waiter(port: nat, deadline: Option<nat>)

  type Ports = map<nat, Port>
  type Waiting = map<nat, Waiter>
  /** Shared region id to its size. */
  type Sizes = map<nat, nat>

  /** The times a call reads, one per message. */
  type Clock = nat -> nat

  function Min(a: nat, b: nat): nat { if a <= b then a else b }
  function Max(a: nat, b: nat): nat { if a <= b then b else a }

  function Raised(current: Option<nat>, priority: nat): nat {
    if current.Some? then Max(current.value, priority) else priority
  }

  // ----- one message -----

  /** `validate_payload_and_size`. */
  function SizeOf(m: Message, regions: Sizes): Result<nat> {
    match m.region
    case Some(id) =>
      if m.payload != [] then Err(SharedMemoryPayloadConflict)
      else if id !in regions then Err(InvalidSharedRegion)
      else Ok(regions[id])
    case None =>
      if |m.payload| > MAX_MESSAGE_SIZE then Err(MessageTooLarge)
      else if |m.payload| > ZERO_COPY_THRESHOLD then Err(RequiresSharedMemory)
      else Ok(|m.payload|)
  }

  /** What stays true of an accepted message whatever happens to regions later. */
  predicate Fits(m: Message) {
    match m.region
    case Some(_) => m.payload == []
    case None => |m.payload| <= ZERO_COPY_THRESHOLD
  }

  function Stamp(m: Message, now: nat): Message {
    if m.timestamp == 0 then m.(timestamp := now) else m
  }

  /** Which messages pass, with what size, and which error each of the others gets. */
  lemma SizeMeaning(m: Message, regions: Sizes)
    ensures SizeOf(m, regions).Ok? <==>
      if m.region.Some? then m.payload == [] && m.region.value in regions else |m.payload| <= 128
    ensures SizeOf(m, regions).Ok? ==>
      SizeOf(m, regions).value == if m.region.Some? then regions[m.region.value] else |m.payload|
    ensures SizeOf(m, regions) == Err(SharedMemoryPayloadConflict) <==> m.region.Some? && m.payload != []
    ensures SizeOf(m, regions) == Err(InvalidSharedRegion) <==>
      m.region.Some? && m.payload == [] && m.region.value !in regions
    ensures SizeOf(m, regions) == Err(MessageTooLarge) <==> m.region.None? && |m.payload| > 256
    ensures SizeOf(m, regions) == Err(RequiresSharedMemory) <==> m.region.None? && 128 < |m.payload| <= 256
  {
  }

  /** `m` is the message `raw`, with the time filled in if `raw` had none. */
  ghost predicate SameContent(m: Message, raw: Message) {
    && m.sender == raw.sender && m.kind == raw.kind && m.payload == raw.payload && m.region == raw.region
    && (raw.timestamp != 0 ==> m.timestamp == raw.timestamp)
  }

  lemma StampMeaning(m: Message, now: nat)
    ensures Stamp(m, now) ==
      Message(m.sender, m.kind, m.payload, m.region, if m.timestamp != 0 then m.timestamp else now)
    ensures SameContent(Stamp(m, now), m)
  {
  }

  function RecordSend(x: Metrics, size: nat, timestamp: nat): Metrics {
    x.(sent := x.sent + 1, bytesSent := x.bytesSent + size,
       first := if x.first.None? then Some(timestamp) else x.first, last := Some(timestamp))
  }

  function RecordReceive(x: Metrics, size: nat, sentAt: nat, now: nat): Metrics {
    var latency: nat := if sentAt <= now then now - sentAt else 0;
    x.(received := x.received + 1, bytesReceived := x.bytesReceived + size,
       minLatency := Some(if x.minLatency.Some? then Min(x.minLatency.value, latency) else latency),
       maxLatency := Some(if x.maxLatency.Some? then Max(x.maxLatency.value, latency) else latency),
       totalLatency := Min(x.totalLatency + latency, U128_MAX),
       first := if x.first.None? then Some(sentAt) else x.first, last := Some(now))
  }

  /** What a port records: a message accepted, or one handed over. */
  datatype Act = Sent(size: nat, stamp: nat) | Got(size: nat, sentAt: nat, now: nat)

  function Record(x: Metrics, a: Act): Metrics {
    match a
    case Sent(size, stamp) => RecordSend(x, size, stamp)
    case Got(size, sentAt, now) => RecordReceive(x, size, sentAt, now)
  }

  /** The metrics of a port with this history. */
  function Recorded(acts: seq<Act>): Metrics {
    if acts == [] then NO_METRICS else Record(Recorded(acts[..|acts| - 1]), acts[|acts| - 1])
  }

  lemma RecordedNext(acts: seq<Act>, a: Act)
    ensures Recorded(acts + [a]) == Record(Recorded(acts), a)
  {
    assert (acts + [a])[..|acts|] == acts;
  }

  function Latency(a: Act): nat { if a.Got? && a.sentAt <= a.now then a.now - a.sentAt else 0 }

  function SentCount(acts: seq<Act>): nat {
    if acts == [] then 0 else SentCount(acts[..|acts| - 1]) + if acts[|acts| - 1].Sent? then 1 else 0
  }

  function SentBytes(acts: seq<Act>): nat {
    if acts == [] then 0
    else
      var a := acts[|acts| - 1];
      SentBytes(acts[..|acts| - 1]) + if a.Sent? then a.size else 0
  }

  function GotBytes(acts: seq<Act>): nat {
    if acts == [] then 0
    else
      var a := acts[|acts| - 1];
      GotBytes(acts[..|acts| - 1]) + if a.Got? then a.size else 0
  }

  function TotalLatency(acts: seq<Act>): nat {
    if acts == [] then 0 else TotalLatency(acts[..|acts| - 1]) + Latency(acts[|acts| - 1])
  }

  /** Time of the first thing recorded, and of the last. */
  function FirstTime(a: Act): nat { if a.Sent? then a.stamp else a.sentAt }
  function LastTime(a: Act): nat { if a.Sent? then a.stamp else a.now }

  /** What the counters of a port say about its history. */
  lemma {:induction false} CountersMeaning(acts: seq<Act>)
    ensures var x := Recorded(acts);
      && x.sent == SentCount(acts) && x.received == |acts| - SentCount(acts)
      && x.bytesSent == SentBytes(acts) && x.bytesReceived == GotBytes(acts)
      && x.totalLatency == Min(TotalLatency(acts), U128_MAX)
      && (acts == [] ==> x.first == None && x.last == None)
      && (acts != [] ==> x.first == Some(FirstTime(acts[0])) && x.last == Some(LastTime(acts[|acts| - 1])))
  {
    if acts != [] {
      CountersMeaning(acts[..|acts| - 1]);
      assert |acts| > 1 ==> acts[..|acts| - 1][0] == acts[0];
    }
  }

  ghost predicate LeastLatency(acts: seq<Act>, l: nat) {
    && (exists i :: 0 <= i < |acts| && acts[i].Got? && Latency(acts[i]) == l)
    && (forall i :: 0 <= i < |acts| && acts[i].Got? ==> l <= Latency(acts[i]))
  }

  ghost predicate GreatestLatency(acts: seq<Act>, l: nat) {
    && (exists i :: 0 <= i < |acts| && acts[i].Got? && Latency(acts[i]) == l)
    && (forall i :: 0 <= i < |acts| && acts[i].Got? ==> Latency(acts[i]) <= l)
  }

  lemma LatencyNext(acts: seq<Act>, l: nat)
    requires acts != []
    ensures var rest, a := acts[..|acts| - 1], acts[|acts| - 1];
      && (a.Got? && LeastLatency(rest, l) ==> LeastLatency(acts, Min(l, Latency(a))))
      && (a.Got? && GreatestLatency(rest, l) ==> GreatestLatency(acts, Max(l, Latency(a))))
      && (a.Sent? && LeastLatency(rest, l) ==> LeastLatency(acts, l))
      && (a.Sent? && GreatestLatency(rest, l) ==> GreatestLatency(acts, l))
  {
    var n := |acts| - 1;
    var rest, a := acts[..n], acts[n];
    assert forall i :: 0 <= i < n ==> rest[i] == acts[i];
    if LeastLatency(rest, l) || GreatestLatency(rest, l) {
      var i :| 0 <= i < n && rest[i].Got? && Latency(rest[i]) == l;
      assert acts[i].Got? && Latency(acts[i]) == l;
    }
    assert a == acts[n];
  }

  /** The two latencies kept are the least and the greatest of all receives, if any. */
  lemma {:induction false} LatenciesMeaning(acts: seq<Act>)
    ensures var x := Recorded(acts);
      if x.received == 0 then x.minLatency == None && x.maxLatency == None
      else && x.minLatency.Some? && LeastLatency(acts, x.minLatency.value)
           && x.maxLatency.Some? && GreatestLatency(acts, x.maxLatency.value)
  {
    hide LeastLatency, GreatestLatency;
    if acts != [] {
      var rest, a := acts[..|acts| - 1], acts[|acts| - 1];
      LatenciesMeaning(rest);
      CountersMeaning(rest);
      var y := Recorded(rest);
      if y.received > 0 {
        LatencyNext(acts, y.minLatency.value);
        LatencyNext(acts, y.maxLatency.value);
      } else if a.Got? {
        FirstLatency(acts);
      }
    }
  }

  lemma FirstLatency(acts: seq<Act>)
    requires acts != [] && acts[|acts| - 1].Got? && SentCount(acts[..|acts| - 1]) == |acts| - 1
    ensures LeastLatency(acts, Latency(acts[|acts| - 1])) && GreatestLatency(acts, Latency(acts[|acts| - 1]))
  {
    AllSent(acts[..|acts| - 1]);
    assert forall i :: 0 <= i < |acts| - 1 ==> acts[i] == acts[..|acts| - 1][i];
  }

  lemma {:induction false} AllSent(acts: seq<Act>)
    ensures SentCount(acts) <= |acts|
    ensures SentCount(acts) == |acts| ==> forall i :: 0 <= i < |acts| ==> acts[i].Sent?
  {
    if acts != [] {
      AllSent(acts[..|acts| - 1]);
      assert forall i :: 0 <= i < |acts| - 1 ==> acts[i] == acts[..|acts| - 1][i];
    }
  }

  datatype Stats = Stats(
    sent: nat, received: nat, bytesSent: nat, bytesReceived: nat, minLatency: nat, maxLatency: nat, average: nat,
    perSecond: nat)

  function OrZero(o: Option<nat>): nat { if o.Some? then o.value else 0 }

  /** `to_stats`. The average of `u64` latencies fits a `u64`, so its cast loses nothing. */
  function ToStats(x: Metrics): Stats {
    var rate :=
      if x.first.Some? && x.last.Some? then
        var span := if x.last.value > x.first.value then x.last.value - x.first.value else 0;
        Min(x.received * 1000, U64_MAX) / Max(span, 1)
      else 0;
    Stats(x.sent, x.received, x.bytesSent, x.bytesReceived, OrZero(x.minLatency), OrZero(x.maxLatency), Average(x),
      rate)
  }

  /** The average latency `to_stats` reports. */
  function Average(x: Metrics): nat { if x.received > 0 then x.totalLatency / x.received else 0 }

  /** Unless the sum saturated, the average lies between the least and the greatest. */
  lemma AverageBetween(acts: seq<Act>)
    requires TotalLatency(acts) <= U128_MAX && Recorded(acts).received > 0
    ensures var x := Recorded(acts);
      x.minLatency.Some? && x.maxLatency.Some? && x.minLatency.value <= Average(x) <= x.maxLatency.value
  {
    var x := Recorded(acts);
    CountersMeaning(acts);
    LatenciesMeaning(acts);
    TotalBounds(acts, x.minLatency.value, x.maxLatency.value);
    Quotient(x.totalLatency, x.received, x.minLatency.value, x.maxLatency.value);
  }

  lemma {:induction false} TotalBounds(acts: seq<Act>, lo: nat, hi: nat)
    requires forall i :: 0 <= i < |acts| && acts[i].Got? ==> lo <= Latency(acts[i]) <= hi
    ensures SentCount(acts) <= |acts|
    ensures lo * (|acts| - SentCount(acts)) <= TotalLatency(acts) <= hi * (|acts| - SentCount(acts))
  {
    if acts != [] {
      var rest := acts[..|acts| - 1];
      assert forall i :: 0 <= i < |rest| ==> rest[i] == acts[i];
      TotalBounds(rest, lo, hi);
      MulNext(lo, |rest| - SentCount(rest));
      MulNext(hi, |rest| - SentCount(rest));
    }
  }

  lemma MulNext(a: nat, n: nat)
    ensures a * (n + 1) == a * n + a
  {
  }

  lemma Quotient(total: nat, n: nat, lo: nat, hi: nat)
    requires n > 0 && lo * n <= total <= hi * n
    ensures lo <= total / n <= hi
  {
    var q := total / n;
    assert total == q * n + total % n && (q + 1) * n == q * n + n && (hi + 1) * n == hi * n + n;
    MulLess(lo, q + 1, n);
    MulLess(q, hi + 1, n);
  }

  lemma MulLess(a: nat, b: nat, n: nat)
    requires a * n < b * n
    ensures a < b
  {
    if a >= b { MulMono(b, a, n); }
  }

  lemma MulMono(a: nat, b: nat, n: nat)
    requires a <= b
    ensures a * n <= b * n
  {
  }

  function Append(port: Port, m: Message, size: nat): Port {
    port.(messages := port.messages + [m], metrics := RecordSend(port.metrics, size, m.timestamp))
  }

  function SendEvent(id: nat, m: Message, size: nat): Event {
    Event(m.timestamp, Kind.Send, id, m.sender, None, size)
  }

  // ----- sending, one message after the other -----

  /** A port together with the events and acts recorded on the way. */
  datatype Traced = Traced(port: Port, events: seq<Event>, acts: seq<Act>)

  /** One call of `send` on a live port. */
  function SendOne(id: nat, t: Traced, m: Message, regions: Sizes, now: nat): Result<Traced> {
    match SizeOf(m, regions)
    case Err(e) => Err(e)
    case Ok(size) =>
      if |t.port.messages| >= MAX_QUEUE_DEPTH then Err(QueueFull)
      else Ok(Traced(Append(t.port, Stamp(m, now), size), t.events + [SendEvent(id, Stamp(m, now), size)],
                     t.acts + [Sent(size, Stamp(m, now).timestamp)]))
  }

  /** That many calls of `send`, stopping at the first that is refused. */
  function Sends(id: nat, port: Port, ms: seq<Message>, regions: Sizes, clock: Clock): Result<Traced> {
    if ms == [] then Ok(Traced(port, [], []))
    else
      var n := |ms| - 1;
      var before := Sends(id, port, ms[..n], regions, clock);
      if before.Err? then before else SendOne(id, before.value, ms[n], regions, clock(n))
  }

  function Stamped(ms: seq<Message>, clock: Clock): (r: seq<Message>)
    ensures |r| == |ms| && forall i :: 0 <= i < |r| ==> r[i] == Stamp(ms[i], clock(i))
  {
    seq(|ms|, i requires 0 <= i < |ms| => Stamp(ms[i], clock(i)))
  }

  /** The error of the first message that fails validation. */
  function FirstError(ms: seq<Message>, regions: Sizes): Option<IpcError> {
    if ms == [] then None
    else
      var before := FirstError(ms[..|ms| - 1], regions);
      if before.Some? then before
      else match SizeOf(ms[|ms| - 1], regions) { case Err(e) => Some(e) case Ok(_) => None }
  }

  lemma {:induction false} SendsFrame(id: nat, port: Port, ms: seq<Message>, regions: Sizes, clock: Clock)
    requires Sends(id, port, ms, regions, clock).Ok?
    ensures var after := Sends(id, port, ms, regions, clock).value;
      && |after.port.messages| == |port.messages| + |ms|
      && after.port.owner == port.owner && after.port.receiver == port.receiver
      && after.port.maxPriority == port.maxPriority && after.port.metrics.sent == port.metrics.sent + |ms|
      && |after.events| == |ms| && |after.acts| == |ms|
  {
    hide SizeOf, Stamp;
    if ms != [] { SendsFrame(id, port, ms[..|ms| - 1], regions, clock); }
  }

  /** The queue grows by the stamped messages in order. */
  lemma {:induction false} SendsQueue(id: nat, port: Port, ms: seq<Message>, regions: Sizes, clock: Clock)
    requires Sends(id, port, ms, regions, clock).Ok?
    ensures Sends(id, port, ms, regions, clock).value.port.messages == port.messages + Stamped(ms, clock)
  {
    hide SizeOf, Stamp, RecordSend, Stamped;
    if ms == [] {
      assert port.messages + Stamped(ms, clock) == port.messages;
    } else {
      var n := |ms| - 1;
      SendsQueue(id, port, ms[..n], regions, clock);
      StampedNext(ms, n, clock);
      assert ms[..n + 1] == ms;
      Joined(port.messages, Stamped(ms[..n], clock), Stamp(ms[n], clock(n)));
    }
  }

  lemma {:induction false} NoErrors(ms: seq<Message>, regions: Sizes)
    ensures FirstError(ms, regions).None? <==> forall i :: 0 <= i < |ms| ==> SizeOf(ms[i], regions).Ok?
  {
    hide SizeOf;
    if ms != [] {
      var n := |ms| - 1;
      NoErrors(ms[..n], regions);
      assert forall i :: 0 <= i < n ==> ms[..n][i] == ms[i];
    }
  }

  /** Single sends all succeed exactly when every message is valid and all of them fit. */
  lemma {:induction false} SendsMeaning(id: nat, port: Port, ms: seq<Message>, regions: Sizes, clock: Clock)
    requires |port.messages| <= MAX_QUEUE_DEPTH
    ensures Sends(id, port, ms, regions, clock).Ok? <==>
            FirstError(ms, regions).None? && |port.messages| + |ms| <= MAX_QUEUE_DEPTH
    ensures FirstError(ms, regions).None? <==> forall i :: 0 <= i < |ms| ==> SizeOf(ms[i], regions).Ok?
    ensures Sends(id, port, ms, regions, clock).Ok? ==>
            Sends(id, port, ms, regions, clock).value.port.messages == port.messages + Stamped(ms, clock)
  {
    hide SizeOf, Stamp, RecordSend, Stamped;
    NoErrors(ms, regions);
    if ms != [] {
      var n := |ms| - 1;
      SendsMeaning(id, port, ms[..n], regions, clock);
      if Sends(id, port, ms[..n], regions, clock).Ok? { SendsFrame(id, port, ms[..n], regions, clock); }
    }
    if Sends(id, port, ms, regions, clock).Ok? { SendsQueue(id, port, ms, regions, clock); }
  }

  // ----- receiving, one message after the other -----

  /** What a receiver got, and what was taken off the queue on the way. */
  datatype Delivery = Delivery(
    result: Result<seq<Message>>, port: Port, events: seq<Event>, popped: seq<Message>, acts: seq<Act>)

  /** One more `pop_front`; a message whose size no longer resolves is gone, and
      with it everything collected before. */
  function DeliverOne(id: nat, d: Delivery, caller: nat, regions: Sizes, now: nat): Delivery
    requires d.result.Ok? && d.port.messages != []
  {
    var m := d.port.messages[0];
    var rest := d.port.(messages := d.port.messages[1..]);
    match SizeOf(m, regions)
    case Err(e) => Delivery(Err(e), rest, d.events, d.popped + [m], d.acts)
    case Ok(size) =>
      Delivery(Ok(d.result.value + [m]), rest.(metrics := RecordReceive(rest.metrics, size, m.timestamp, now)),
               d.events + [Event(now, Receive, id, m.sender, Some(caller), size)], d.popped + [m],
               d.acts + [Got(size, m.timestamp, now)])
  }

  /** Up to `n` receives, stopping at an empty queue or an error. */
  function Deliver(id: nat, port: Port, n: nat, caller: nat, regions: Sizes, clock: Clock): Delivery {
    if n == 0 then Delivery(Ok([]), port, [], [], [])
    else
      var d := Deliver(id, port, n - 1, caller, regions, clock);
      if d.result.Err? || d.port.messages == [] then d else DeliverOne(id, d, caller, regions, clock(n - 1))
  }

  /** The first message among the first `n` whose region is gone, or `n`. */
  ghost function Intact(q: seq<Message>, n: nat, regions: Sizes): (k: nat)
    requires n <= |q|
    ensures k <= n
    ensures forall i :: 0 <= i < k ==> SizeOf(q[i], regions).Ok?
    ensures k < n ==> SizeOf(q[k], regions).Err?
  {
    if n == 0 then 0
    else
      var k := Intact(q, n - 1, regions);
      if k < n - 1 || SizeOf(q[k], regions).Err? then k else n
  }

  lemma IntactStep(q: seq<Message>, n: nat, regions: Sizes)
    requires 0 < n <= |q|
    ensures Intact(q, n, regions) ==
            if Intact(q, n - 1, regions) < n - 1 || SizeOf(q[n - 1], regions).Err? then Intact(q, n - 1, regions) else n
  {
  }

  /** A queued message can only fail because its region is gone. */
  lemma FitsError(m: Message, regions: Sizes)
    requires Fits(m)
    ensures SizeOf(m, regions).Err? <==> m.region.Some? && m.region.value !in regions
    ensures SizeOf(m, regions).Err? ==> SizeOf(m, regions).error == InvalidSharedRegion
  {
  }

  lemma {:induction false} DeliverFrame(id: nat, port: Port, n: nat, caller: nat, regions: Sizes, clock: Clock)
    ensures var d := Deliver(id, port, n, caller, regions, clock);
      && d.popped + d.port.messages == port.messages
      && d.port.owner == port.owner && d.port.receiver == port.receiver && d.port.maxPriority == port.maxPriority
      && d.port.metrics.sent == port.metrics.sent
  {
    hide DeliverOne;
    if n == 0 {
      assert [] + port.messages == port.messages;
    } else {
      DeliverFrame(id, port, n - 1, caller, regions, clock);
      var d := Deliver(id, port, n - 1, caller, regions, clock);
      if d.result.Ok? && d.port.messages != [] { DeliverOneFrame(id, d, caller, regions, clock(n - 1)); }
    }
  }

  lemma DeliverOneFrame(id: nat, d: Delivery, caller: nat, regions: Sizes, now: nat)
    requires d.result.Ok? && d.port.messages != []
    ensures var e := DeliverOne(id, d, caller, regions, now);
      && e.popped + e.port.messages == d.popped + d.port.messages
      && e.port.owner == d.port.owner && e.port.receiver == d.port.receiver && e.port.maxPriority == d.port.maxPriority
      && e.port.metrics.sent == d.port.metrics.sent
  {
    hide SizeOf;
    assert d.popped + [d.port.messages[0]] + d.port.messages[1..] == d.popped + d.port.messages;
  }

  /** `d` is what taking `m` messages off `q` should give when the first `k` are intact. */
  predicate Delivered(q: seq<Message>, m: nat, k: nat, d: Delivery)
    requires k <= m <= |q|
  {
    if k == m then d.result == Ok(q[..m]) && d.popped == q[..m] && |d.events| == m
    else d.result == Err(InvalidSharedRegion) && d.popped == q[..k + 1] && |d.events| == k
  }

  lemma DeliveredNext(id: nat, q: seq<Message>, n: nat, d: Delivery, caller: nat, regions: Sizes, now: nat)
    requires n < |q| && d.popped + d.port.messages == q && Delivered(q, n, n, d) && Fits(q[n])
    ensures d.port.messages != []
    ensures Delivered(q, n + 1, if SizeOf(q[n], regions).Ok? then n + 1 else n, DeliverOne(id, d, caller, regions, now))
  {
    hide SizeOf, Fits, RecordReceive;
    assert d.port.messages == q[n..];
    assert d.port.messages[0] == q[n];
    assert q[..n] + [q[n]] == q[..n + 1];
    FitsError(q[n], regions);
  }

  /** A receive hands over the front of the queue in order, unless some message in
      it names a region that no longer exists: then the call fails, and that
      message and the ones before it are lost. */
  lemma {:induction false} DeliverMeaning(id: nat, port: Port, n: nat, caller: nat, regions: Sizes, clock: Clock)
    requires forall i :: 0 <= i < |port.messages| ==> Fits(port.messages[i])
    ensures var m := Min(n, |port.messages|);
      Delivered(port.messages, m, Intact(port.messages, m, regions), Deliver(id, port, n, caller, regions, clock))
  {
    hide SizeOf, Fits, Deliver, DeliverOne, Delivered, Intact;
    var q := port.messages;
    if n == 0 {
      DeliverStep(id, port, 0, caller, regions, clock);
      DeliveredNone(q, port);
    } else {
      DeliverStep(id, port, n - 1, caller, regions, clock);
      DeliverMeaning(id, port, n - 1, caller, regions, clock);
      DeliverFrame(id, port, n - 1, caller, regions, clock);
      var d := Deliver(id, port, n - 1, caller, regions, clock);
      if n > |q| {
        DeliveredEnds(q, |q|, Intact(q, |q|, regions), d);
      } else {
        var k := Intact(q, n - 1, regions);
        IntactStep(q, n, regions);
        DeliveredEnds(q, n - 1, k, d);
        if k == n - 1 {
          DeliveredNext(id, q, n - 1, d, caller, regions, clock(n - 1));
        } else {
          DeliveredStays(q, n - 1, k, d);
        }
      }
    }
  }

  lemma DeliveredNone(q: seq<Message>, port: Port)
    ensures Delivered(q, 0, 0, Delivery(Ok([]), port, [], [], []))
  {
  }

  lemma DeliveredStays(q: seq<Message>, m: nat, k: nat, d: Delivery)
    requires k < m < |q| && Delivered(q, m, k, d)
    ensures Delivered(q, m + 1, k, d)
  {
  }

  lemma DeliveredEnds(q: seq<Message>, m: nat, k: nat, d: Delivery)
    requires k <= m <= |q| && Delivered(q, m, k, d) && d.popped + d.port.messages == q
    ensures d.result.Ok? <==> k == m
    ensures k == m == |q| ==> d.port.messages == []
  {
  }

  // ----- what every step keeps -----

  /** Thread `t` waits for the owner of the live port it waits on. */
  ghost function Edges(ports: Ports, waiting: Waiting): Graph {
    map t | t in waiting && waiting[t].port in ports :: ports[waiting[t].port].owner
  }

  predicate PortOk(port: Port) {
    && |port.messages| <= MAX_QUEUE_DEPTH
    && (forall i :: 0 <= i < |port.messages| ==> Fits(port.messages[i]))
    && (port.receiver.None? ==> port.maxPriority.None?)
  }

  ghost predicate Matched(ports: Ports, waiting: Waiting) {
    forall t :: t in waiting && waiting[t].port in ports ==> ports[waiting[t].port].receiver == Some(t)
  }

  ghost predicate Known(ports: Ports, waiting: Waiting, next: nat) {
    && (forall p :: p in ports ==> p < next && PortOk(ports[p]))
    && (forall t :: t in waiting ==> waiting[t].port < next)
  }

  /** The invariant of every reachable state. */
  ghost predicate Sound(ports: Ports, waiting: Waiting, next: nat) {
    Known(ports, waiting, next) && Matched(ports, waiting) && Acyclic(Edges(ports, waiting))
  }

  type Logs = map<nat, seq<Message>>
  type Acts = map<nat, seq<Act>>

  /** Everything a live port ever accepted was popped or is still queued, in order; its
      metrics are those of its acts, the first of which is the first send. */
  ghost predicate History(ports: Ports, accepted: Logs, popped: Logs, acts: Acts) {
    forall p :: p in ports ==>
      && p in accepted && p in popped && p in acts && accepted[p] == popped[p] + ports[p].messages
      && Told(ports[p].metrics, accepted[p], acts[p])
  }

  ghost predicate Told(x: Metrics, accepted: seq<Message>, acts: seq<Act>) {
    && x == Recorded(acts) && x.sent == |accepted| && (acts == [] <==> accepted == [])
    && (acts != [] ==> acts[0].Sent? && acts[0].stamp == accepted[0].timestamp)
  }

  /** What the metrics of a live port mean in every reachable state. */
  lemma PortMetrics(ports: Ports, accepted: Logs, popped: Logs, acts: Acts, p: nat)
    requires History(ports, accepted, popped, acts) && p in ports
    ensures var x := ports[p].metrics;
      && x.sent == |popped[p]| + |ports[p].messages| && x.received == |acts[p]| - SentCount(acts[p])
      && x.totalLatency == Min(TotalLatency(acts[p]), U128_MAX)
      && (if accepted[p] == [] then x.first == None else x.first == Some(accepted[p][0].timestamp))
      && (x.received > 0 ==>
            && x.minLatency.Some? && LeastLatency(acts[p], x.minLatency.value)
            && x.maxLatency.Some? && GreatestLatency(acts[p], x.maxLatency.value))
  {
    hide LeastLatency, GreatestLatency;
    CountersMeaning(acts[p]);
    LatenciesMeaning(acts[p]);
  }

  /** A live port has at most one waiting thread. */
  lemma OneWaiter(ports: Ports, waiting: Waiting, next: nat, t: nat, u: nat)
    requires Sound(ports, waiting, next)
    requires t in waiting && u in waiting && waiting[t].port == waiting[u].port && waiting[t].port in ports
    ensures t == u
  {
    assert ports[waiting[t].port].receiver == Some(t);
    assert ports[waiting[u].port].receiver == Some(u);
  }

  /** In every reachable state a chain of blocked threads ends, after at most as
      many steps as there are waiters, at a thread no live port holds up. */
  lemma SomeoneRuns(ports: Ports, waiting: Waiting, next: nat, t: nat) returns (n: nat, u: nat)
    requires Sound(ports, waiting, next)
    ensures n <= |waiting| && Walk(Edges(ports, waiting), t, n) == Some(u)
    ensures u !in waiting || waiting[u].port !in ports
  {
    var g := Edges(ports, waiting);
    EdgesSize(ports, waiting);
    n, u := ChainEnds(g, t);
  }

  lemma EdgesSize(ports: Ports, waiting: Waiting)
    ensures |Edges(ports, waiting)| <= |waiting|
  {
    var g := Edges(ports, waiting);
    SubsetCount(g.Keys, waiting.Keys);
  }

  lemma SubsetCount(a: set<nat>, b: set<nat>)
    requires a <= b
    ensures |a| <= |b|
  {
    assert b == a + (b - a);
  }

  lemma KnownPut(ports: Ports, waiting: Waiting, next: nat, p: nat, port: Port)
    requires Known(ports, waiting, next) && p <= next && PortOk(port)
    ensures Known(ports[p := port], waiting, if p == next then next + 1 else next)
  {
    hide PortOk;
  }

  function NewPort(owner: nat): (port: Port)
    ensures PortOk(port)
  {
    Port(owner, [], None, None, NO_METRICS)
  }

  lemma SoundCreate(ports: Ports, waiting: Waiting, next: nat, owner: nat)
    requires Sound(ports, waiting, next)
    ensures Sound(ports[next := NewPort(owner)], waiting, next + 1)
  {
    hide Acyclic, PortOk;
    var after := ports[next := NewPort(owner)];
    assert Edges(after, waiting) == Edges(ports, waiting);
    assert Matched(after, waiting);
    assert Known(after, waiting, next + 1) by {
      hide *;
      KnownPut(ports, waiting, next, next, NewPort(owner));
    }
  }

  lemma SoundClose(ports: Ports, waiting: Waiting, next: nat, p: nat)
    requires Sound(ports, waiting, next)
    ensures Sound(ports - {p}, waiting, next)
  {
    SubAcyclic(Edges(ports - {p}, waiting), Edges(ports, waiting));
  }

  /** New contents, the same owner and the same waiter. */
  lemma SoundContents(ports: Ports, waiting: Waiting, next: nat, p: nat, port: Port)
    requires Sound(ports, waiting, next) && p in ports && PortOk(port)
    requires port.owner == ports[p].owner && port.receiver == ports[p].receiver
    ensures Sound(ports[p := port], waiting, next)
  {
    assert Edges(ports[p := port], waiting) == Edges(ports, waiting);
  }

  lemma SoundWake(ports: Ports, waiting: Waiting, next: nat, p: nat, t: nat)
    requires Sound(ports, waiting, next) && p in ports && ports[p].receiver == Some(t)
    ensures Sound(ports[p := ports[p].(receiver := None, maxPriority := None)], waiting - {t}, next)
  {
    var after := ports[p := ports[p].(receiver := None, maxPriority := None)];
    SubAcyclic(Edges(after, waiting - {t}), Edges(ports, waiting));
  }

  /** Blocking is safe exactly when the caller cannot be reached from the owner. */
  lemma SoundBlock(ports: Ports, waiting: Waiting, next: nat, p: nat, t: nat, port: Port, deadline: Option<nat>)
    requires Sound(ports, waiting, next) && p in ports && ports[p].receiver.None?
    requires PortOk(port) && port.owner == ports[p].owner && port.receiver == Some(t)
    ensures Sound(ports[p := port], waiting[t := Waiter(p, deadline)], next) <==>
            !Reaches(Edges(ports, waiting), ports[p].owner, t)
  {
    hide Acyclic, Reaches, PortOk;
    var g := Edges(ports, waiting);
    assert Edges(ports[p := port], waiting[t := Waiter(p, deadline)]) == g[t := ports[p].owner];
    EdgeExact(g, t, ports[p].owner);
  }

  predicate Due(w: Waiter, now: nat) {
    w.deadline.Some? && now >= w.deadline.value
  }

  /** The ports after the threads in `gone` stopped waiting. */
  ghost function Released(ports: Ports, waiting: Waiting, gone: set<nat>): Ports {
    map p | p in ports ::
      if ports[p].receiver.Some? && ports[p].receiver.value in gone && ports[p].receiver.value in waiting
         && waiting[ports[p].receiver.value].port == p
      then ports[p].(receiver := None, maxPriority := None) else ports[p]
  }

  lemma SoundReleased(ports: Ports, waiting: Waiting, next: nat, gone: set<nat>)
    requires Sound(ports, waiting, next)
    ensures Sound(Released(ports, waiting, gone), waiting - gone, next)
  {
    var after := Released(ports, waiting, gone);
    SubAcyclic(Edges(after, waiting - gone), Edges(ports, waiting));
  }

  lemma ReleasedOne(ports: Ports, waiting: Waiting, gone: set<nat>, t: nat)
    requires t in waiting
    ensures var r := Released(ports, waiting, gone);
      var p := waiting[t].port;
      Released(ports, waiting, gone + {t}) ==
      if p in r && r[p].receiver == Some(t) then r[p := r[p].(receiver := None, maxPriority := None)] else r
  {
  }

  lemma {:induction false} LeastOf(s: set<nat>) returns (x: nat)
    requires s != {}
    ensures x in s && forall y :: y in s ==> x <= y
  {
    x :| x in s;
    if s != {x} {
      var rest := s - {x};
      assert s == rest + {x};
      var z := LeastOf(rest);
      x := Min(x, z);
    }
  }

  /** A port whose queue or receiver changes, with nothing sent or handed over. */
  lemma HistoryKeep(ports: Ports, accepted: Logs, popped: Logs, acts: Acts, p: nat, port: Port, taken: seq<Message>)
    requires History(ports, accepted, popped, acts) && p in ports
    requires taken + port.messages == ports[p].messages && port.metrics == ports[p].metrics
    ensures p in accepted && p in popped && p in acts
    ensures History(ports[p := port], accepted, popped[p := popped[p] + taken], acts)
  {
    hide Told;
    assert popped[p] + (taken + port.messages) == popped[p] + taken + port.messages;
  }

  lemma HistoryNew(ports: Ports, accepted: Logs, popped: Logs, acts: Acts, p: nat, owner: nat)
    requires History(ports, accepted, popped, acts) && p !in ports
    ensures History(ports[p := NewPort(owner)], accepted[p := []], popped[p := []], acts[p := []])
  {
    NewTold(owner);
    hide Told;
  }

  lemma NewTold(owner: nat)
    ensures Told(NewPort(owner).metrics, [], []) && NewPort(owner).messages == []
  {
  }

  lemma HistorySent(ports: Ports, accepted: Logs, popped: Logs, acts: Acts, p: nat, port: Port, m: Message, size: nat)
    requires History(ports, accepted, popped, acts) && p in ports
    requires port.messages == ports[p].messages + [m] && port.metrics == RecordSend(ports[p].metrics, size, m.timestamp)
    ensures p in accepted && p in popped && p in acts
    ensures var accepted', acts' := accepted[p := accepted[p] + [m]], acts[p := acts[p] + [Sent(size, m.timestamp)]];
      History(ports[p := port], accepted', popped, acts')
  {
    RecordedNext(acts[p], Sent(size, m.timestamp));
    hide Recorded, RecordReceive;
    assert accepted[p] + [m] == popped[p] + (ports[p].messages + [m]);
  }

  lemma HistoryGot(ports: Ports, accepted: Logs, popped: Logs, acts: Acts, p: nat, port: Port, size: nat, now: nat)
    requires History(ports, accepted, popped, acts) && p in ports && ports[p].messages != []
    requires port.messages == ports[p].messages[1..]
    requires port.metrics == RecordReceive(ports[p].metrics, size, ports[p].messages[0].timestamp, now)
    ensures p in accepted && p in popped && p in acts
    ensures var m := ports[p].messages[0];
      var popped', acts' := popped[p := popped[p] + [m]], acts[p := acts[p] + [Got(size, m.timestamp, now)]];
      History(ports[p := port], accepted, popped', acts')
  {
    var m := ports[p].messages[0];
    RecordedNext(acts[p], Got(size, m.timestamp, now));
    hide Recorded;
    assert popped[p] + ([m] + port.messages) == popped[p] + [m] + port.messages;
    assert [m] + port.messages == ports[p].messages;
  }

  lemma WalkStep(g: Graph, t: nat, n: nat)
    ensures Walk(g, t, n + 1) ==
            if Walk(g, t, n).Some? && Walk(g, t, n).value in g then Some(g[Walk(g, t, n).value]) else None
  {
    if Walk(g, t, n).Some? {
      WalkJoin(g, t, n, Walk(g, t, n).value, 1);
      assert Walk(g, Walk(g, t, n).value, 1) == Walk(g, t, n + 1);
    } else {
      WalkOver(g, t, n, n + 1);
    }
  }

  lemma {:induction false} WalkOver(g: Graph, t: nat, m: nat, n: nat)
    requires Walk(g, t, m).None? && m <= n
    ensures Walk(g, t, n).None?
    decreases n
  {
    if t in g { WalkOver(g, g[t], m - 1, n - 1); }
  }

  ghost predicate NotYet(g: Graph, t: nat, u: nat, n: nat) {
    forall j: nat :: j < n ==> Walk(g, t, j) != Some(u)
  }

  /** The detector has taken `steps` steps from `target` without meeting `start`
      and stands at port `current`. */
  ghost predicate Searched(ports: Ports, waiting: Waiting, target: nat, start: nat, current: Option<nat>, steps: nat) {
    if target !in ports then current == Some(target) && steps == 0
    else
      && NotYet(Edges(ports, waiting), ports[target].owner, start, steps)
      && Walk(Edges(ports, waiting), ports[target].owner, steps) ==
         if current.Some? && current.value in ports then Some(ports[current.value].owner) else None
  }

  lemma SearchStart(ports: Ports, waiting: Waiting, target: nat, start: nat)
    ensures Searched(ports, waiting, target, start, Some(target), 0)
  {
  }

  lemma SearchNext(ports: Ports, waiting: Waiting, target: nat, start: nat, at: nat, steps: nat)
    requires at in ports && Searched(ports, waiting, target, start, Some(at), steps)
    ensures var o := ports[at].owner;
      if o == start then target in ports && Reaches(Edges(ports, waiting), ports[target].owner, start)
      else Searched(ports, waiting, target, start, if o in waiting then Some(waiting[o].port) else None, steps + 1)
  {
    WalkStep(Edges(ports, waiting), ports[target].owner, steps);
  }

  /** The search may end for want of an edge or at the cut-off; neither hides a reachable thread. */
  lemma SearchOver(ports: Ports, waiting: Waiting, target: nat, start: nat, current: Option<nat>, steps: nat)
    requires Searched(ports, waiting, target, start, current, steps)
    requires steps > |ports| + |waiting| || current.None? || current.value !in ports
    ensures target in ports ==> !Reaches(Edges(ports, waiting), ports[target].owner, start)
  {
    var g := Edges(ports, waiting);
    if target in ports && Reaches(g, ports[target].owner, start) {
      var owner := ports[target].owner;
      var n: nat :| Walk(g, owner, n) == Some(start);
      EdgesSize(ports, waiting);
      var m := Shortest(g, owner, start, n);
      if m >= steps { WalkOver(g, owner, steps, m); }
      assert false;
    }
  }

  /** The state a batch starts from. */
  datatype Batch = Batch(id: nat, ports: Ports, accepted: Logs, acts: Acts, log: seq<Event>)

  /** The first `i` messages of a batch went through as single sends. */
  ghost predicate SentSoFar(
    b: Batch, ms: seq<Message>, regions: Sizes, clock: Clock, i: nat, ports: Ports, accepted: Logs, acts: Acts,
      log: seq<Event>)
  {
    && i <= |ms| && b.id in b.ports && b.id in b.accepted && b.id in b.acts
    && var s := Sends(b.id, b.ports[b.id], ms[..i], regions, clock);
       && s.Ok? && ports == b.ports[b.id := s.value.port] && log == b.log + s.value.events
       && acts == b.acts[b.id := b.acts[b.id] + s.value.acts]
       && accepted == b.accepted[b.id := b.accepted[b.id] + Stamped(ms[..i], clock)]
  }

  lemma SentNone(b: Batch, ms: seq<Message>, regions: Sizes, clock: Clock)
    requires b.id in b.ports && b.id in b.accepted && b.id in b.acts
    ensures SentSoFar(b, ms, regions, clock, 0, b.ports, b.accepted, b.acts, b.log)
  {
    assert b.accepted[b.id] + Stamped(ms[..0], clock) == b.accepted[b.id];
    assert b.acts[b.id] + [] == b.acts[b.id];
  }

  lemma SentNext(
    b: Batch, ms: seq<Message>, regions: Sizes, clock: Clock, i: nat, ports: Ports, accepted: Logs, acts: Acts,
    log: seq<Event>, m: Message, size: nat)
    requires i < |ms| && SentSoFar(b, ms, regions, clock, i, ports, accepted, acts, log)
    requires SizeOf(ms[i], regions) == Ok(size) && m == Stamp(ms[i], clock(i))
    requires b.id in ports && |ports[b.id].messages| < MAX_QUEUE_DEPTH
    ensures b.id in accepted && b.id in acts
    ensures SentSoFar(b, ms, regions, clock, i + 1, ports[b.id := Append(ports[b.id], m, size)],
                      accepted[b.id := accepted[b.id] + [m]], acts[b.id := acts[b.id] + [Sent(size, m.timestamp)]],
                      log + [SendEvent(b.id, m, size)])
  {
    hide SizeOf, Stamp, RecordSend, Sends, Stamped;
    var s := Sends(b.id, b.ports[b.id], ms[..i], regions, clock).value;
    SendsNext(b.id, b.ports[b.id], ms, i, s, regions, clock);
    Joined(b.acts[b.id], s.acts, Sent(size, m.timestamp));
    Joined(b.log, s.events, SendEvent(b.id, m, size));
    Joined(b.accepted[b.id], Stamped(ms[..i], clock), m);
    StampedNext(ms, i, clock);
  }

  lemma Joined<T>(a: seq<T>, b: seq<T>, x: T)
    ensures a + b + [x] == a + (b + [x])
  {
  }

  lemma StampedNext(ms: seq<Message>, i: nat, clock: Clock)
    requires i < |ms|
    ensures Stamped(ms[..i + 1], clock) == Stamped(ms[..i], clock) + [Stamp(ms[i], clock(i))]
  {
    hide Stamp;
  }

  /** What was accepted is what was sent, message by message. */
  ghost predicate Faithful(accepted: Logs, sent: Logs) {
    && accepted.Keys == sent.Keys
    && (forall p :: p in sent ==> |accepted[p]| == |sent[p]|)
    && (forall p, i :: p in sent && 0 <= i < |sent[p]| ==> SameContent(accepted[p][i], sent[p][i]))
  }

  lemma FaithfulNext(accepted: Logs, sent: Logs, id: nat, m: Message, raw: Message)
    requires Faithful(accepted, sent) && id in accepted && SameContent(m, raw)
    ensures id in sent && Faithful(accepted[id := accepted[id] + [m]], sent[id := sent[id] + [raw]])
  {
    hide SameContent;
  }

  lemma FaithfulNew(accepted: Logs, sent: Logs, id: nat)
    requires Faithful(accepted, sent)
    ensures Faithful(accepted[id := []], sent[id := []])
  {
  }

  /** The messages taken off next are the ones sent next. */
  lemma HandedOver(
    ports: Ports, accepted: Logs, popped: Logs, acts: Acts, sent: Logs, id: nat, n: nat)
    requires History(ports, accepted, popped, acts) && Faithful(accepted, sent) && id in ports
    requires n <= |ports[id].messages|
    ensures id in popped && id in sent && |popped[id]| + n <= |sent[id]|
    ensures forall i :: 0 <= i < n ==> SameContent(ports[id].messages[i], sent[id][|popped[id]| + i])
  {
    hide SameContent, Told;
    assert accepted[id] == popped[id] + ports[id].messages;
    forall i | 0 <= i < n ensures SameContent(ports[id].messages[i], sent[id][|popped[id]| + i]) {
      assert accepted[id][|popped[id]| + i] == ports[id].messages[i];
    }
  }

  lemma SentAll(
    b: Batch, ms: seq<Message>, regions: Sizes, clock: Clock, ports: Ports, accepted: Logs, acts: Acts, log: seq<Event>)
    requires SentSoFar(b, ms, regions, clock, |ms|, ports, accepted, acts, log)
    ensures b.id in b.ports && b.id in b.accepted && b.id in b.acts
    ensures var s := Sends(b.id, b.ports[b.id], ms, regions, clock);
      && s.Ok? && ports == b.ports[b.id := s.value.port] && log == b.log + s.value.events
      && acts == b.acts[b.id := b.acts[b.id] + s.value.acts]
      && accepted == b.accepted[b.id := b.accepted[b.id] + Stamped(ms, clock)]
  {
    assert ms[..|ms|] == ms;
  }

  class IpcManager {
    var ports: Ports
    var waiting: Waiting
    var nextPort: nat
    const trace: TraceBuffer
    /** Per port, every message accepted and every message taken off its queue. */
    ghost var accepted: Logs
    ghost var popped: Logs
    /** Per port, what its metrics record. */
    ghost var acts: Acts
    /** Per port, the messages accepted, as they were sent. */
    ghost var sent: Logs

    ghost predicate Valid()
      reads this, trace, trace.events
    {
      && Sound(ports, waiting, nextPort) && History(ports, accepted, popped, acts) && trace.Valid()
      && Faithful(accepted, sent)
    }

    constructor ()
      ensures Valid() && fresh(trace) && fresh(trace.events)
      ensures ports == map[] && waiting == map[] && trace.log == []
    {
      trace := new TraceBuffer();
      ports, waiting, nextPort, accepted, popped, acts, sent := map[], map[], 1, map[], map[], map[], map[];
      new;
      assert Edges(ports, waiting) == map[];
      forall t: nat, n: nat | n >= 1 ensures Walk(map[], t, n) != Some(t) { }
    }

    /** `create_port`: a port id that was never used before. */
    method CreatePort(owner: nat) returns (id: nat)
      requires Valid()
      modifies this
      ensures Valid() && id == old(nextPort) < nextPort && id !in old(ports)
      ensures ports == old(ports)[id := NewPort(owner)] && waiting == old(waiting)
      ensures ports[id].owner == owner && ports[id].messages == [] && ports[id].receiver.None?
      ensures accepted == old(accepted)[id := []] && popped == old(popped)[id := []] && acts == old(acts)[id := []]
      ensures sent == old(sent)[id := []]
    {
      hide Sound, History;
      id := nextPort;
      assert id !in ports by { FreshId(ports, waiting, nextPort); }
      SoundCreate(ports, waiting, nextPort, owner);
      HistoryNew(ports, accepted, popped, acts, id, owner);
      FaithfulNew(accepted, sent, id);
      ports := ports[id := NewPort(owner)];
      nextPort := nextPort + 1;
      accepted, popped, acts, sent := accepted[id := []], popped[id := []], acts[id := []], sent[id := []];
    }

    /** `close_port`: only the owner; threads that wait on the port stay in the waiting map. */
    method ClosePort(id: nat, caller: nat) returns (r: Result<()>)
      requires Valid()
      modifies this
      ensures Valid() && waiting == old(waiting) && nextPort == old(nextPort)
      ensures accepted == old(accepted) && popped == old(popped) && acts == old(acts) && sent == old(sent)
      ensures r == if id !in old(ports) then Err(InvalidPort)
                   else if old(ports)[id].owner != caller then Err(PermissionDenied) else Ok(())
      ensures ports == if r.Ok? then old(ports) - {id} else old(ports)
    {
      hide Sound;
      if id in ports {
        if ports[id].owner != caller { return Err(PermissionDenied); }
        SoundClose(ports, waiting, nextPort, id);
        ports := ports - {id};
        return Ok(());
      } else {
        return Err(InvalidPort);
      }
    }

    /** `send`: one `SendOne` step. It wakes nobody. */
    method Send(id: nat, message: Message, regions: Sizes, now: nat) returns (r: Result<()>)
      requires Valid()
      modifies this, trace, trace.events
      ensures Valid() && waiting == old(waiting) && nextPort == old(nextPort) && popped == old(popped)
      ensures id !in old(ports) ==> r == Err(InvalidPort)
      ensures id in old(ports) ==>
                && id in old(acts)
                && match SendOne(id, Traced(old(ports)[id], old(trace.log), old(acts)[id]), message, regions, now)
                   case Err(e) => r == Err(e)
                   case Ok(t) =>
                     && r == Ok(()) && ports == old(ports)[id := t.port] && trace.log == t.events
                     && acts == old(acts)[id := t.acts]
      ensures r.Err? ==>
        ports == old(ports) && accepted == old(accepted) && acts == old(acts) && trace.log == old(trace.log)
      ensures r.Ok? ==>
        id in old(accepted) && accepted == old(accepted)[id := old(accepted)[id] + [Stamp(message, now)]]
      ensures r.Ok? <==>
        && id in old(ports) && |old(ports)[id].messages| < 64
        && if message.region.Some? then message.payload == [] && message.region.value in regions
           else |message.payload| <= 128
      ensures r.Ok? ==>
        var time := if message.timestamp != 0 then message.timestamp else now;
        var queued := Message(message.sender, message.kind, message.payload, message.region, time);
        var size := if message.region.Some? then regions[message.region.value] else |message.payload|;
        && ports.Keys == old(ports).Keys && (forall p :: p in ports && p != id ==> ports[p] == old(ports)[p])
        && ports[id].messages == old(ports)[id].messages + [queued]
        && ports[id].owner == old(ports)[id].owner && ports[id].receiver == old(ports)[id].receiver
        && ports[id].maxPriority == old(ports)[id].maxPriority
        && trace.log == old(trace.log) + [Event(time, Kind.Send, id, message.sender, None, size)]
      ensures if r.Ok? then id in old(sent) && sent == old(sent)[id := old(sent)[id] + [message]] else sent == old(sent)
    {
      hide Sound, History, PortOk, Stamp, SizeOf, RecordSend, Fits, Faithful, SameContent;
      SizeMeaning(message, regions);
      StampMeaning(message, now);
      if id !in ports { return Err(InvalidPort); }
      assert id in acts by { HistoryHas(ports, accepted, popped, acts, id); }
      var size := SizeOf(message, regions);
      if size.Err? { return Err(size.error); }
      if |ports[id].messages| >= MAX_QUEUE_DEPTH { return Err(QueueFull); }
      StampFits(message, regions, now);
      Accept(id, Stamp(message, now), size.value, message);
      return Ok(());
    }

    /** The common tail of `send` and of each turn of `send_batch`. */
    method Accept(id: nat, m: Message, size: nat, ghost raw: Message)
      requires Valid() && id in ports && |ports[id].messages| < MAX_QUEUE_DEPTH && Fits(m) && SameContent(m, raw)
      modifies this, trace, trace.events
      ensures Valid() && waiting == old(waiting) && nextPort == old(nextPort) && popped == old(popped)
      ensures ports == old(ports)[id := Append(old(ports)[id], m, size)]
      ensures trace.log == old(trace.log) + [SendEvent(id, m, size)]
      ensures id in old(accepted) && accepted == old(accepted)[id := old(accepted)[id] + [m]]
      ensures id in old(acts) && acts == old(acts)[id := old(acts)[id] + [Sent(size, m.timestamp)]]
      ensures id in old(sent) && sent == old(sent)[id := old(sent)[id] + [raw]]
    {
      hide Sound, History, RecordSend, Faithful, SameContent;
      var port := ports[id];
      var after := Append(port, m, size);
      KnownOk(ports, waiting, nextPort, id);
      SoundContents(ports, waiting, nextPort, id, after);
      HistorySent(ports, accepted, popped, acts, id, after, m, size);
      FaithfulNext(accepted, sent, id, m, raw);
      sent := sent[id := sent[id] + [raw]];
      accepted := accepted[id := accepted[id] + [m]];
      acts := acts[id := acts[id] + [Sent(size, m.timestamp)]];
      ports := ports[id := after];
      trace.Push(SendEvent(id, m, size));
    }

    /** The first loop of `send_batch`: validate and stamp everything before touching the port. */
    method Prepare(messages: seq<Message>, regions: Sizes, clock: Clock) returns (r: Result<seq<(Message, nat)>>)
      ensures r.Err? <==> FirstError(messages, regions).Some?
      ensures r.Err? ==> r.error == FirstError(messages, regions).value
      ensures r.Ok? ==> Prepared(messages, regions, clock, r.value)
    {
      hide SizeOf, Stamp;
      var prepared: seq<(Message, nat)> := [];
      for i := 0 to |messages|
        invariant FirstError(messages[..i], regions).None?
        invariant Prepared(messages[..i], regions, clock, prepared)
      {
        var size := SizeOf(messages[i], regions);
        assert messages[..i + 1][..i] == messages[..i];
        if size.Err? {
          FirstErrorStays(messages, i + 1, regions);
          return Err(size.error);
        }
        prepared := prepared + [(Stamp(messages[i], clock(i)), size.value)];
      }
      assert messages[..|messages|] == messages;
      return Ok(prepared);
    }

    /** The second loop of `send_batch`. */
    method Apply(
      id: nat, prepared: seq<(Message, nat)>, ghost messages: seq<Message>, ghost regions: Sizes, ghost clock: Clock)
      requires Valid() && id in ports && |ports[id].messages| + |messages| <= MAX_QUEUE_DEPTH
      requires Prepared(messages, regions, clock, prepared) && FirstError(messages, regions).None?
      modifies this, trace, trace.events
      ensures Valid() && waiting == old(waiting) && nextPort == old(nextPort) && popped == old(popped)
      ensures var s := Sends(id, old(ports)[id], messages, regions, clock);
        && s.Ok? && ports == old(ports)[id := s.value.port] && trace.log == old(trace.log) + s.value.events
        && id in old(acts) && acts == old(acts)[id := old(acts)[id] + s.value.acts]
      ensures id in old(accepted) && accepted == old(accepted)[id := old(accepted)[id] + Stamped(messages, clock)]
      ensures id in old(sent) && sent == old(sent)[id := old(sent)[id] + messages]
    {
      hide Sound, History, SizeOf, Stamp, Fits, PortOk, RecordSend, FirstError, Sends, Stamped, SentSoFar;
      hide IpcTrace.TraceBuffer.Valid, SameContent;
      ghost var b := Batch(id, ports, accepted, acts, trace.log);
      assert id in accepted && id in acts by { HistoryHas(ports, accepted, popped, acts, id); }
      SentNone(b, messages, regions, clock);
      assert messages[..0] == [] && sent[id] + [] == sent[id] && sent == sent[id := sent[id]];
      for i := 0 to |prepared|
        invariant Valid() && waiting == old(waiting) && nextPort == old(nextPort) && popped == old(popped)
        invariant id in ports && |ports[id].messages| == |b.ports[id].messages| + i
        invariant SentSoFar(b, messages, regions, clock, i, ports, accepted, acts, trace.log)
        invariant id in old(sent) && sent == old(sent)[id := old(sent)[id] + messages[..i]]
      {
        var (m, size) := prepared[i];
        SentNext(b, messages, regions, clock, i, ports, accepted, acts, trace.log, m, size);
        StampFits(messages[i], regions, clock(i));
        StampMeaning(messages[i], clock(i));
        assert old(sent)[id] + messages[..i] + [messages[i]] == old(sent)[id] + messages[..i + 1];
        Accept(id, m, size, messages[i]);
      }
      assert messages[..|messages|] == messages;
      SentAll(b, messages, regions, clock, ports, accepted, acts, trace.log);
    }

    /** `send_batch`: refused as a whole, or the same as that many single sends; on
        success it also wakes the blocked receiver, whatever port that thread waits on now. */
    method SendBatch(id: nat, messages: seq<Message>, regions: Sizes, clock: Clock)
      returns (r: Result<nat>, woken: Option<nat>)
      requires Valid()
      modifies this, trace, trace.events
      ensures Valid() && nextPort == old(nextPort) && popped == old(popped)
      ensures var refusal := BatchRefusal(old(ports), id, messages, regions);
        r == if messages == [] then Ok(0) else if refusal.Some? then Err(refusal.value) else Ok(|messages|)
      ensures r.Err? || messages == [] ==>
                && woken.None? && ports == old(ports) && waiting == old(waiting) && accepted == old(accepted)
                && acts == old(acts) && trace.log == old(trace.log)
      ensures r.Ok? && messages != [] ==>
                && id in old(ports) && id in old(accepted) && id in old(acts) && woken == old(ports)[id].receiver
                && Sends(id, old(ports)[id], messages, regions, clock).Ok?
      ensures r.Ok? && messages != [] ==>
                var after := Sends(id, old(ports)[id], messages, regions, clock).value;
                && ports == old(ports)[id := after.port.(receiver := None, maxPriority := None)]
                && trace.log == old(trace.log) + after.events && acts == old(acts)[id := old(acts)[id] + after.acts]
                && waiting == (if woken.Some? then old(waiting) - {woken.value} else old(waiting))
                && accepted == old(accepted)[id := old(accepted)[id] + Stamped(messages, clock)]
                && id in old(sent) && sent == old(sent)[id := old(sent)[id] + messages]
      ensures r.Ok? && messages != [] ==>
                var n := |old(ports)[id].messages|;
                && |messages| <= 32 && |ports[id].messages| == n + |messages| <= 64
                && ports[id].messages[..n] == old(ports)[id].messages
                && forall i :: 0 <= i < |messages| ==>
                     var m, time := messages[i], if messages[i].timestamp != 0 then messages[i].timestamp else clock(i);
                     ports[id].messages[n + i] == Message(m.sender, m.kind, m.payload, m.region, time)
      ensures r.Err? || messages == [] ==> sent == old(sent)
    {
      hide Sound, History, FirstError, Sends, PortOk, Stamped, IpcTrace.TraceBuffer.Valid, Faithful;
      woken := None;
      if messages == [] { return Ok(0), None; }
      if |messages| > MAX_BATCH_SIZE { return Err(BatchTooLarge), None; }
      if id !in ports { return Err(InvalidPort), None; }
      var prepared := Prepare(messages, regions, clock);
      if prepared.Err? { return Err(prepared.error), None; }
      if |ports[id].messages| + |prepared.value| > MAX_QUEUE_DEPTH { return Err(QueueFull), None; }
      KnownOk(ports, waiting, nextPort, id);
      QueueBound(ports[id]);
      SendsMeaning(id, ports[id], messages, regions, clock);
      SendsFrame(id, ports[id], messages, regions, clock);
      StampedAre(messages, clock);
      Apply(id, prepared.value, messages, regions, clock);
      woken := WakeReceiver(id);
      return Ok(|prepared.value|), woken;
    }

    /** The last part of `send_batch`. */
    method WakeReceiver(id: nat) returns (woken: Option<nat>)
      requires Valid() && id in ports
      modifies this
      ensures Valid() && nextPort == old(nextPort)
      ensures popped == old(popped) && accepted == old(accepted) && acts == old(acts) && sent == old(sent)
      ensures woken == old(ports)[id].receiver
      ensures ports == old(ports)[id := old(ports)[id].(receiver := None, maxPriority := None)]
      ensures waiting == if woken.Some? then old(waiting) - {woken.value} else old(waiting)
    {
      hide Sound, History;
      woken := ports[id].receiver;
      ghost var after := ports[id].(receiver := None, maxPriority := None);
      KnownOk(ports, waiting, nextPort, id);
      HistoryKeep(ports, accepted, popped, acts, id, after, []);
      assert popped[id] + [] == popped[id];
      assert popped == popped[id := popped[id]];
      if woken.Some? {
        SoundWake(ports, waiting, nextPort, id, woken.value);
        ports := ports[id := ports[id].(receiver := None, maxPriority := None)];
        waiting := waiting - {woken.value};
      } else {
        assert ports == ports[id := after];
      }
    }

    /** `pop_front` with its bookkeeping, shared by `try_recv` and `recv_batch`. */
    method PopFront(id: nat, caller: nat, regions: Sizes, now: nat, ghost d: Delivery) returns (r: Result<Message>)
      requires Valid() && id in ports && ports[id].messages != [] && d.result.Ok? && d.port == ports[id]
      modifies this, trace, trace.events
      ensures Valid() && waiting == old(waiting) && nextPort == old(nextPort)
      ensures accepted == old(accepted) && sent == old(sent)
      ensures id in old(popped) && popped == old(popped)[id := old(popped)[id] + [old(ports)[id].messages[0]]]
      ensures var e := DeliverOne(id, d, caller, regions, now);
        && ports == old(ports)[id := e.port] && d.events <= e.events && d.acts <= e.acts
        && trace.log == old(trace.log) + e.events[|d.events|..]
        && id in old(acts) && acts == old(acts)[id := old(acts)[id] + e.acts[|d.acts|..]]
        && (e.result.Err? ==> r == Err(e.result.error)) && (r.Err? <==> e.result.Err?)
        && (e.result.Ok? ==> r.Ok? && e.result == Ok(d.result.value + [r.value]))
      ensures r.Ok? ==> r.value == old(ports)[id].messages[0]
    {
      hide Sound, History, SizeOf, RecordReceive, PortOk, IpcTrace.TraceBuffer.Valid;
      var port := ports[id];
      var m := port.messages[0];
      assert id in acts by { HistoryHas(ports, accepted, popped, acts, id); }
      KnownOk(ports, waiting, nextPort, id);
      PopOk(port);
      var rest := port.(messages := port.messages[1..]);
      var size := SizeOf(m, regions);
      if size.Err? {
        SoundContents(ports, waiting, nextPort, id, rest);
        assert [m] + rest.messages == port.messages;
        HistoryKeep(ports, accepted, popped, acts, id, rest, [m]);
        assert acts[id] + [] == acts[id] && d.acts[|d.acts|..] == [];
        assert acts == acts[id := acts[id]];
        popped := popped[id := popped[id] + [m]];
        ports := ports[id := rest];
        return Err(size.error);
      }
      rest := rest.(metrics := RecordReceive(rest.metrics, size.value, m.timestamp, now));
      SoundContents(ports, waiting, nextPort, id, rest);
      HistoryGot(ports, accepted, popped, acts, id, rest, size.value, now);
      popped := popped[id := popped[id] + [m]];
      acts := acts[id := acts[id] + [Got(size.value, m.timestamp, now)]];
      ports := ports[id := rest];
      trace.Push(Event(now, Receive, id, m.sender, Some(caller), size.value));
      return Ok(m);
    }

    /** `try_recv`: `Deliver` with a limit of one. */
    method TryRecv(id: nat, caller: nat, regions: Sizes, now: nat) returns (r: Result<Option<Message>>)
      requires Valid()
      modifies this, trace, trace.events
      ensures Valid() && waiting == old(waiting) && nextPort == old(nextPort)
      ensures accepted == old(accepted) && sent == old(sent)
      ensures id !in old(ports) ==>
                && r == Err(InvalidPort) && ports == old(ports) && popped == old(popped) && acts == old(acts)
                && trace.log == old(trace.log)
      ensures id in old(ports) ==>
                var d := Deliver(id, old(ports)[id], 1, caller, regions, _ => now);
                && ports == old(ports)[id := d.port] && trace.log == old(trace.log) + d.events
                && id in old(popped) && popped == old(popped)[id := old(popped)[id] + d.popped]
                && id in old(acts) && acts == old(acts)[id := old(acts)[id] + d.acts]
                && (d.result.Err? ==> r == Err(d.result.error))
                && (d.result.Ok? ==> r.Ok? && d.result.value == if r.value.Some? then [r.value.value] else [])
      ensures r.Ok? ==> (r.value.None? <==> old(ports)[id].messages == [])
      ensures r.Ok? && r.value.Some? ==>
        var k := |old(popped)[id]|;
        && r.value.value == old(ports)[id].messages[0]
        && id in sent && k < |sent[id]| && SameContent(r.value.value, sent[id][k])
    {
      hide Sound, History, SizeOf, RecordReceive, PortOk, IpcTrace.TraceBuffer.Valid, Faithful, SameContent;
      if id !in ports { return Err(InvalidPort); }
      assert id in popped && id in acts by { HistoryHas(ports, accepted, popped, acts, id); }
      ghost var none := Delivery(Ok([]), ports[id], [], [], []);
      ghost var clock: Clock := _ => now;
      assert none == Deliver(id, ports[id], 0, caller, regions, clock);
      if ports[id].messages == [] {
        assert popped[id] + [] == popped[id] && acts[id] + [] == acts[id];
        assert popped == popped[id := popped[id]] && acts == acts[id := acts[id]];
        assert ports == ports[id := ports[id]];
        return Ok(None);
      }
      assert popped[id] + ([] + [ports[id].messages[0]]) == popped[id] + [ports[id].messages[0]];
      HandedOver(ports, accepted, popped, acts, sent, id, 1);
      var m := PopFront(id, caller, regions, now, none);
      if m.Err? { return Err(m.error); }
      return Ok(Some(m.value));
    }

    /** `recv_batch`: up to `max` receives, never more than the batch limit. */
    method RecvBatch(id: nat, caller: nat, max: nat, regions: Sizes, clock: Clock)
      returns (r: Result<seq<Message>>)
      requires Valid()
      modifies this, trace, trace.events
      ensures Valid() && waiting == old(waiting) && nextPort == old(nextPort)
      ensures accepted == old(accepted) && sent == old(sent)
      ensures id !in old(ports) ==>
                && r == Err(InvalidPort) && ports == old(ports) && popped == old(popped) && acts == old(acts)
                && trace.log == old(trace.log)
      ensures id in old(ports) ==>
                var d := Deliver(id, old(ports)[id], Min(max, MAX_BATCH_SIZE), caller, regions, clock);
                && r == d.result && ports == old(ports)[id := d.port] && trace.log == old(trace.log) + d.events
                && id in old(popped) && popped == old(popped)[id := old(popped)[id] + d.popped]
                && id in old(acts) && acts == old(acts)[id := old(acts)[id] + d.acts]
      ensures r.Ok? ==>
        var q, k := old(ports)[id].messages, |old(popped)[id]|;
        && |r.value| <= max && |r.value| <= 32 && |r.value| <= |q| && r.value == q[..|r.value|]
        && (|r.value| == max || |r.value| == 32 || |r.value| == |q|)
        && id in sent && k + |r.value| <= |sent[id]|
        && forall i :: 0 <= i < |r.value| ==> SameContent(r.value[i], sent[id][k + i])
    {
      hide Sound, History, Faithful, SameContent, Fits, PortOk, Deliver, IpcTrace.TraceBuffer.Valid;
      if id !in ports { return Err(InvalidPort); }
      var limit := Min(max, MAX_BATCH_SIZE);
      KnownOk(ports, waiting, nextPort, id);
      PortFits(ports[id]);
      HandedOver(ports, accepted, popped, acts, sent, id, |ports[id].messages|);
      ReceivedAll(id, ports[id], limit, caller, regions, clock);
      r := RecvUpTo(id, caller, limit, regions, clock);
    }

    /** The loop of `recv_batch`. */
    method RecvUpTo(id: nat, caller: nat, limit: nat, regions: Sizes, clock: Clock)
      returns (r: Result<seq<Message>>)
      requires Valid() && id in ports
      modifies this, trace, trace.events
      ensures Valid() && waiting == old(waiting) && nextPort == old(nextPort)
      ensures accepted == old(accepted) && sent == old(sent)
      ensures var d := Deliver(id, old(ports)[id], limit, caller, regions, clock);
        && r == d.result && ports == old(ports)[id := d.port] && trace.log == old(trace.log) + d.events
        && id in old(popped) && popped == old(popped)[id := old(popped)[id] + d.popped]
        && id in old(acts) && acts == old(acts)[id := old(acts)[id] + d.acts]
    {
      hide Sound, History, SizeOf, RecordReceive, PortOk, Deliver, DeliverOne, IpcTrace.TraceBuffer.Valid;
      hide Faithful, SameContent, Fits;
      assert id in popped && id in acts by { HistoryHas(ports, accepted, popped, acts, id); }
      ghost var port, log, p0, pop0, c0 := ports[id], trace.log, ports, popped, acts;
      ghost var d := Delivery(Ok([]), port, [], [], []);
      assert d == Deliver(id, port, 0, caller, regions, clock) by { DeliverStep(id, port, 0, caller, regions, clock); }
      var messages: seq<Message> := [];
      var i := 0;
      assert pop0[id] + [] == pop0[id] && c0[id] + [] == c0[id];
      assert c0 == c0[id := c0[id]];
      while i < limit
        invariant Valid() && waiting == old(waiting) && nextPort == old(nextPort)
        invariant accepted == old(accepted) && sent == old(sent)
        invariant i <= limit && d == Deliver(id, port, i, caller, regions, clock) && d.result == Ok(messages)
        invariant ports == p0[id := d.port] && trace.log == log + d.events
        invariant popped == pop0[id := pop0[id] + d.popped] && acts == c0[id := c0[id] + d.acts]
      {
        DeliverStep(id, port, i, caller, regions, clock);
        if ports[id].messages == [] {
          DeliverDone(id, port, i, limit, caller, regions, clock);
          break;
        }
        ghost var e := DeliverOne(id, d, caller, regions, clock(i));
        DeliverOnePopped(id, d, caller, regions, clock(i));
        assert pop0[id] + d.popped + [d.port.messages[0]] == pop0[id] + e.popped;
        assert c0[id] + d.acts + e.acts[|d.acts|..] == c0[id] + e.acts;
        var m := PopFront(id, caller, regions, clock(i), d);
        d, i := e, i + 1;
        if m.Err? {
          DeliverDone(id, port, i, limit, caller, regions, clock);
          return Err(m.error);
        }
        messages := messages + [m.value];
      }
      return Ok(messages);
    }

    /** `detect_deadlock`: exactly whether `start` is reachable from the port's owner. */
    method DetectDeadlock(start: nat, target: nat) returns (found: bool)
      ensures found <==> target in ports && Reaches(Edges(ports, waiting), ports[target].owner, start)
    {
      hide Edges, Searched, Reaches;
      var current, steps := Some(target), 0;
      SearchStart(ports, waiting, target, start);
      while current.Some?
        invariant Searched(ports, waiting, target, start, current, steps)
        decreases |ports| + |waiting| + 1 - steps
      {
        if steps > |ports| + |waiting| { break; }
        if current.value !in ports { break; }
        var owner := ports[current.value].owner;
        SearchNext(ports, waiting, target, start, current.value, steps);
        if owner == start { return true; }
        current := if owner in waiting then Some(waiting[owner].port) else None;
        steps := steps + 1;
      }
      SearchOver(ports, waiting, target, start, current, steps);
      return false;
    }

    /** `block_recv`: refused exactly when the wait would close a cycle or the port has a receiver. */
    method BlockRecv(id: nat, caller: nat, priority: nat, deadline: Option<nat>) returns (r: Result<()>)
      requires Valid()
      modifies this
      ensures Valid() && nextPort == old(nextPort)
      ensures popped == old(popped) && accepted == old(accepted) && acts == old(acts) && sent == old(sent)
      ensures r == if id !in old(ports) then Err(InvalidPort)
                   else if Reaches(Edges(old(ports), old(waiting)), old(ports)[id].owner, caller)
                   then Err(DeadlockDetected)
                   else if old(ports)[id].receiver.Some? then Err(PortBusy)
                   else Ok(())
      ensures r.Err? ==> ports == old(ports) && waiting == old(waiting)
      ensures r.Ok? ==>
                && ports == old(ports)[id := old(ports)[id].(receiver := Some(caller), maxPriority := Some(priority))]
                && waiting == old(waiting)[caller := Waiter(id, deadline)]
    {
      hide Sound, History, Edges, Reaches;
      if id !in ports { return Err(InvalidPort); }
      var deadlock := DetectDeadlock(caller, id);
      if deadlock { return Err(DeadlockDetected); }
      var port := ports[id];
      if port.receiver.Some? { return Err(PortBusy); }
      KnownOk(ports, waiting, nextPort, id);
      port := port.(receiver := Some(caller));
      port := port.(maxPriority := Some(Raised(port.maxPriority, priority)));
      SoundBlock(ports, waiting, nextPort, id, caller, port, deadline);
      HistoryKeep(ports, accepted, popped, acts, id, port, []);
      assert popped[id] + [] == popped[id];
      assert popped == popped[id := popped[id]];
      ports := ports[id := port];
      waiting := waiting[caller := Waiter(id, deadline)];
      return Ok(());
    }

    /** `port_stats`: everything ever sent was taken off the queue or waits in it, and unless
        the latency sum saturated the average lies between the extremes. */
    method PortStats(id: nat) returns (r: Result<Stats>)
      requires Valid()
      ensures r.Err? <==> id !in ports
      ensures r.Err? ==> r.error == InvalidPort
      ensures r.Ok? ==> id in popped && id in acts && r.value.sent == |popped[id]| + |ports[id].messages|
      ensures r.Ok? ==> r.value.received == |acts[id]| - SentCount(acts[id])
      ensures r.Ok? ==> r.value.bytesSent == SentBytes(acts[id]) && r.value.bytesReceived == GotBytes(acts[id])
      ensures r.Ok? && r.value.received > 0 ==>
        var total := TotalLatency(acts[id]);
        r.value.average == (if total <= U128_MAX then total else U128_MAX) / r.value.received
      ensures r.Ok? && acts[id] != [] ==>
        var first, last := FirstTime(acts[id][0]), LastTime(acts[id][|acts[id]| - 1]);
        var thousands := r.value.received * 1000;
        r.value.perSecond ==
          (if thousands <= U64_MAX then thousands else U64_MAX) / (if last > first then last - first else 1)
      ensures r.Ok? && r.value.received > 0 ==>
        LeastLatency(acts[id], r.value.minLatency) && GreatestLatency(acts[id], r.value.maxLatency)
      ensures r.Ok? && r.value.received > 0 && TotalLatency(acts[id]) <= U128_MAX ==>
        r.value.minLatency <= r.value.average <= r.value.maxLatency
      ensures r.Ok? && r.value.received == 0 ==>
        r.value.minLatency == 0 && r.value.maxLatency == 0 && r.value.average == 0 && r.value.perSecond == 0
    {
      hide Sound, Faithful, LeastLatency, GreatestLatency, Recorded, SentCount, TotalLatency, SentBytes, GotBytes;
      if id !in ports { return Err(InvalidPort); }
      PortMetrics(ports, accepted, popped, acts, id);
      CountersMeaning(acts[id]);
      LatenciesMeaning(acts[id]);
      if TotalLatency(acts[id]) <= U128_MAX && ports[id].metrics.received > 0 { AverageBetween(acts[id]); }
      return Ok(ToStats(ports[id].metrics));
    }

    /** The first loop of `handle_timeouts`, in thread order as the map is sorted. */
    method Expired(now: nat) returns (expired: seq<(nat, nat)>)
      ensures Ascending(expired) && OnPorts(waiting, expired)
      ensures forall t :: t in Ids(expired) <==> t in waiting && Due(waiting[t], now)
    {
      expired := [];
      var rest := waiting.Keys;
      while rest != {}
        invariant rest <= waiting.Keys && Ascending(expired) && OnPorts(waiting, expired)
        invariant forall t :: t in Ids(expired) <==> t in waiting && t !in rest && Due(waiting[t], now)
        invariant forall i, t :: 0 <= i < |expired| && t in rest ==> expired[i].0 < t
      {
        ghost var least := LeastOf(rest);
        var t :| t in rest && forall u :: u in rest ==> t <= u;
        rest := rest - {t};
        if Due(waiting[t], now) {
          IdsStep(expired, (t, waiting[t].port));
          expired := expired + [(t, waiting[t].port)];
        }
      }
    }

    /** `handle_timeouts`: exactly the threads whose deadline has passed stop waiting and are
        woken, in thread order, and only their own ports are released. */
    method HandleTimeouts(now: nat) returns (woken: seq<nat>)
      requires Valid()
      modifies this
      ensures Valid() && nextPort == old(nextPort)
      ensures popped == old(popped) && accepted == old(accepted) && acts == old(acts) && sent == old(sent)
      ensures forall i, j :: 0 <= i < j < |woken| ==> woken[i] < woken[j]
      ensures forall t :: t in woken <==>
        t in old(waiting) && old(waiting)[t].deadline.Some? && old(waiting)[t].deadline.value <= now
      ensures waiting == old(waiting) - Elems(woken)
      ensures ports == Released(old(ports), old(waiting), Elems(woken))
    {
      hide Sound, History, Released, Ids;
      var expired := Expired(now);
      woken := [];
      IdsNone();
      if expired == [] {
        ReleasedNone(ports, waiting);
        assert Elems(woken) == {};
        return;
      }
      ghost var p0, w0 := ports, waiting;
      ReleasedNone(ports, waiting);
      for i := 0 to |expired|
        invariant ports == Released(p0, w0, Ids(expired[..i]))
        invariant waiting == w0 && nextPort == old(nextPort)
        invariant popped == old(popped) && accepted == old(accepted) && acts == old(acts) && sent == old(sent)
      {
        var (t, id) := expired[i];
        IdsNext(expired, i);
        ReleasedOne(p0, w0, Ids(expired[..i]), t);
        if id in ports {
          if ports[id].receiver == Some(t) {
            ports := ports[id := ports[id].(receiver := None, maxPriority := None)];
          }
        }
      }
      assert expired[..|expired|] == expired;
      ghost var released := ports;
      for i := 0 to |expired|
        invariant waiting == w0 - Ids(expired[..i])
        invariant ports == released && nextPort == old(nextPort)
        invariant popped == old(popped) && accepted == old(accepted) && acts == old(acts) && sent == old(sent)
      {
        IdsNext(expired, i);
        waiting := waiting - {expired[i].0};
      }
      SoundReleased(p0, w0, nextPort, Ids(expired));
      HistoryReleased(p0, w0, Ids(expired), accepted, popped, acts);
      for i := 0 to |expired|
        invariant |woken| == i && forall k :: 0 <= k < i ==> woken[k] == expired[k].0
      {
        woken := woken + [expired[i].0];
      }
      IdsElems(expired, woken);
    }
  }

  ghost predicate Ascending(expired: seq<(nat, nat)>) {
    forall i, j :: 0 <= i < j < |expired| ==> expired[i].0 < expired[j].0
  }

  ghost function Ids(expired: seq<(nat, nat)>): set<nat> {
    set i | 0 <= i < |expired| :: expired[i].0
  }

  ghost predicate OnPorts(waiting: Waiting, expired: seq<(nat, nat)>) {
    forall i :: 0 <= i < |expired| ==> expired[i].0 in waiting && expired[i].1 == waiting[expired[i].0].port
  }

  lemma IdsStep(expired: seq<(nat, nat)>, e: (nat, nat))
    ensures Ids(expired + [e]) == Ids(expired) + {e.0}
  {
    assert forall i :: 0 <= i < |expired| ==> (expired + [e])[i] == expired[i];
    assert (expired + [e])[|expired|] == e;
  }

  lemma IdsNext(expired: seq<(nat, nat)>, i: nat)
    requires i < |expired|
    ensures Ids(expired[..i + 1]) == Ids(expired[..i]) + {expired[i].0}
  {
    assert expired[..i + 1] == expired[..i] + [expired[i]];
    IdsStep(expired[..i], expired[i]);
  }

  lemma IdsNone()
    ensures Ids([]) == {}
  {
  }

  ghost function Elems(s: seq<nat>): set<nat> { set t | t in s }

  lemma IdsElems(expired: seq<(nat, nat)>, woken: seq<nat>)
    requires |woken| == |expired| && forall k :: 0 <= k < |expired| ==> woken[k] == expired[k].0
    ensures Elems(woken) == Ids(expired)
    ensures forall t :: t in woken <==> t in Ids(expired)
  {
    forall t | t in woken ensures t in Ids(expired) {
      var k :| 0 <= k < |woken| && woken[k] == t;
      assert expired[k].0 == t;
    }
    forall t | t in Ids(expired) ensures t in woken {
      var k :| 0 <= k < |expired| && expired[k].0 == t;
      assert woken[k] == t;
    }
  }

  lemma ReleasedNone(ports: Ports, waiting: Waiting)
    ensures Released(ports, waiting, {}) == ports && waiting - {} == waiting
  {
  }

  lemma HistoryReleased(
    ports: Ports, waiting: Waiting, gone: set<nat>, accepted: Logs, popped: Logs, acts: Acts)
    requires History(ports, accepted, popped, acts)
    ensures History(Released(ports, waiting, gone), accepted, popped, acts)
  {
    hide Told;
  }

  predicate Prepared(messages: seq<Message>, regions: Sizes, clock: Clock, prepared: seq<(Message, nat)>) {
    && |prepared| == |messages|
    && forall i :: 0 <= i < |prepared| ==>
         SizeOf(messages[i], regions) == Ok(prepared[i].1) && prepared[i].0 == Stamp(messages[i], clock(i))
  }

  /** Why `send_batch` refuses a batch that is not empty, if it does. */
  function BatchRefusal(ports: Ports, id: nat, messages: seq<Message>, regions: Sizes): Option<IpcError> {
    if |messages| > MAX_BATCH_SIZE then Some(BatchTooLarge)
    else if id !in ports then Some(InvalidPort)
    else if FirstError(messages, regions).Some? then FirstError(messages, regions)
    else if |ports[id].messages| + |messages| > MAX_QUEUE_DEPTH then Some(QueueFull)
    else None
  }

  /** A batch of legal size to a live port is accepted exactly when sending its
      messages one by one would have them all accepted. */
  lemma BatchIsSends(
    ports: Ports, waiting: Waiting, next: nat, id: nat, messages: seq<Message>, regions: Sizes, clock: Clock)
    requires Sound(ports, waiting, next) && id in ports && |messages| <= MAX_BATCH_SIZE
    ensures BatchRefusal(ports, id, messages, regions).None? <==> Sends(id, ports[id], messages, regions, clock).Ok?
  {
    SendsMeaning(id, ports[id], messages, regions, clock);
  }

  lemma {:induction false} FirstErrorStays(messages: seq<Message>, n: nat, regions: Sizes)
    requires n <= |messages| && FirstError(messages[..n], regions).Some?
    ensures FirstError(messages, regions) == FirstError(messages[..n], regions)
    decreases |messages|
  {
    if n == |messages| {
      assert messages[..n] == messages;
    } else {
      var shorter := messages[..|messages| - 1];
      assert shorter[..n] == messages[..n];
      FirstErrorStays(shorter, n, regions);
    }
  }

  lemma StampedAre(messages: seq<Message>, clock: Clock)
    ensures |Stamped(messages, clock)| == |messages| && forall i :: 0 <= i < |messages| ==>
      var m := messages[i];
      Stamped(messages, clock)[i] ==
        Message(m.sender, m.kind, m.payload, m.region, if m.timestamp != 0 then m.timestamp else clock(i))
  {
    hide Stamp, Stamped;
    forall i | 0 <= i < |messages|
      ensures var m := messages[i];
        Stamped(messages, clock)[i] ==
          Message(m.sender, m.kind, m.payload, m.region, if m.timestamp != 0 then m.timestamp else clock(i))
    {
      StampMeaning(messages[i], clock(i));
    }
  }

  lemma StampFits(m: Message, regions: Sizes, now: nat)
    ensures SizeOf(m, regions).Ok? ==> Fits(Stamp(m, now))
  {
  }

  lemma SendsNext(id: nat, port: Port, messages: seq<Message>, i: nat, done: Traced, regions: Sizes, clock: Clock)
    requires i < |messages| && Sends(id, port, messages[..i], regions, clock) == Ok(done)
    ensures Sends(id, port, messages[..i + 1], regions, clock) == SendOne(id, done, messages[i], regions, clock(i))
  {
    assert messages[..i + 1][..i] == messages[..i];
  }

  lemma HistoryHas(ports: Ports, accepted: Logs, popped: Logs, acts: Acts, p: nat)
    requires History(ports, accepted, popped, acts) && p in ports
    ensures p in accepted && p in popped && p in acts
  {
  }

  lemma QueueBound(port: Port)
    requires PortOk(port)
    ensures |port.messages| <= MAX_QUEUE_DEPTH
  {
  }

  lemma PopOk(port: Port)
    requires PortOk(port) && port.messages != []
    ensures forall metrics :: PortOk(port.(messages := port.messages[1..], metrics := metrics))
  {
  }

  lemma PortFits(port: Port)
    requires PortOk(port)
    ensures forall i :: 0 <= i < |port.messages| ==> Fits(port.messages[i])
  {
  }

  /** A receive that succeeds hands over as much of the front of the queue as was asked for. */
  lemma ReceivedAll(id: nat, port: Port, n: nat, caller: nat, regions: Sizes, clock: Clock)
    requires forall i :: 0 <= i < |port.messages| ==> Fits(port.messages[i])
    ensures var d := Deliver(id, port, n, caller, regions, clock);
      d.result.Ok? ==>
        var k := |d.result.value|;
        k <= n && k <= |port.messages| && (k == n || k == |port.messages|) && d.result.value == port.messages[..k]
  {
    hide Deliver, Fits, Intact;
    DeliverMeaning(id, port, n, caller, regions, clock);
  }

  lemma DeliverStep(id: nat, port: Port, n: nat, caller: nat, regions: Sizes, clock: Clock)
    ensures Deliver(id, port, 0, caller, regions, clock) == Delivery(Ok([]), port, [], [], [])
    ensures var d := Deliver(id, port, n, caller, regions, clock);
      Deliver(id, port, n + 1, caller, regions, clock) ==
      if d.result.Err? || d.port.messages == [] then d else DeliverOne(id, d, caller, regions, clock(n))
  {
  }

  lemma {:induction false} DeliverDone(id: nat, port: Port, i: nat, n: nat, caller: nat, regions: Sizes, clock: Clock)
    requires i <= n
    requires var d := Deliver(id, port, i, caller, regions, clock); d.result.Err? || d.port.messages == []
    ensures Deliver(id, port, n, caller, regions, clock) == Deliver(id, port, i, caller, regions, clock)
  {
    if i < n { DeliverDone(id, port, i, n - 1, caller, regions, clock); }
  }

  lemma DeliverOnePopped(id: nat, d: Delivery, caller: nat, regions: Sizes, now: nat)
    requires d.result.Ok? && d.port.messages != []
    ensures DeliverOne(id, d, caller, regions, now).popped == d.popped + [d.port.messages[0]]
    ensures d.acts <= DeliverOne(id, d, caller, regions, now).acts
  {
  }

  lemma KnownOk(ports: Ports, waiting: Waiting, next: nat, p: nat)
    requires Sound(ports, waiting, next) && p in ports
    ensures p < next && PortOk(ports[p])
  {
  }

  lemma FreshId(ports: Ports, waiting: Waiting, next: nat)
    requires Sound(ports, waiting, next)
    ensures next !in ports
  {
  }
}
