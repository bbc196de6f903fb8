/** The ring of recent IPC events (kernel/src/ipc.rs, `IpcTraceBuffer`). */
module IpcTrace {
  import opened Words

  datatype Kind = Send | Receive

  datatype Event = Event(timestamp: nat, kind: Kind, port: nat, sender: nat, receiver: Option<nat>, size: nat)

  const RING := 1000

  /** What a ring of `RING` cells can still know of everything ever recorded. */
  function Retained(log: seq<Event>): (r: seq<Event>) {
    if |log| <= RING then log else log[|log| - RING..]
  }

  lemma RingIndex(n: nat, i: nat)
    requires n >= RING
    ensures (n % RING + i) % RING == (n - RING + i) % RING
  {
    var q := n / RING;
    assert n == q * RING + n % RING;
    Turns(n % RING + i, q - 1);
  }

  lemma {:induction false} Turns(x: nat, k: nat)
    ensures (x + k * RING) % RING == x % RING
  {
    if k > 0 { Turns(x, k - 1); }
  }

  class TraceBuffer {
    const events: array<Option<Event>>
    var head: nat
    var full: bool
    /** Every event pushed since the buffer was made. */
    ghost var log: seq<Event>

    ghost predicate Valid()
      reads this, events
    {
      && events.Length == RING && head == |log| % RING && (full <==> |log| >= RING)
      && forall j :: 0 <= j < |log| && |log| <= j + RING ==> events[j % RING] == Some(log[j])
    }

    constructor ()
      ensures Valid() && fresh(events) && log == []
    {
      events := new Option<Event>[RING](_ => None);
      head, full, log := 0, false, [];
    }

    method Push(event: Event)
      requires Valid()
      modifies this, events
      ensures Valid() && log == old(log) + [event]
    {
      NextTurn(|log|);
      events[head] := Some(event);
      head := (head + 1) % RING;
      if head == 0 { full := true; }
      log := log + [event];
      forall j | 0 <= j < |log| && |log| <= j + RING
        ensures events[j % RING] == Some(log[j])
      {
        if j < |log| - 1 {
          SameCell(j, |log| - 1);
        }
      }
    }

    /** Where the `i`-th oldest retained event is kept. */
    lemma CellAt(i: nat)
      requires Valid() && i < |Retained(log)|
      ensures events.Length == RING && events[if full then (head + i) % RING else i] == Some(Retained(log)[i])
    {
      SmallTurn(|log|);
      SmallTurn(i);
      if full {
        var j := |log| - RING + i;
        RingIndex(|log|, i);
        assert events[j % RING] == Some(log[j]);
      } else {
        assert events[i % RING] == Some(log[i]);
      }
    }

    /** The first `max` of the retained events, oldest first. */
    method Snapshot(max: nat) returns (output: seq<Event>)
      requires Valid()
      ensures output == Retained(log)[..if |Retained(log)| <= max then |Retained(log)| else max]
    {
      hide Retained;
      var total := if full then RING else head;
      assert total == |Retained(log)| by { RetainedSize(); }
      output := [];
      var toCollect := if total <= max then total else max;
      for i := 0 to toCollect
        invariant output == Retained(log)[..i]
      {
        CellAt(i);
        var idx := if full then (head + i) % RING else i;
        match events[idx] {
          case Some(event) => output := output + [event];
          case None =>
        }
      }
    }

    lemma RetainedSize()
      requires Valid()
      ensures |Retained(log)| == if full then RING else head
    {
      SmallTurn(|log|);
    }
  }

  lemma NextTurn(n: nat)
    ensures (n % RING + 1) % RING == (n + 1) % RING
    ensures (n + 1) % RING == 0 ==> n + 1 >= RING
    ensures n + 1 == RING ==> (n + 1) % RING == 0
  {
  }

  lemma SmallTurn(n: nat)
    ensures n < RING ==> n % RING == n
  {
  }

  lemma SameCell(j: nat, n: nat)
    requires j < n < j + RING
    ensures j % RING != n % RING
  {
  }
}
