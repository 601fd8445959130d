/**
 The relay server object (internal/relay/server.go). Each method is one mutex section;
 circuits are identified by number and kept in a map, which stands for the heap.

 The object keeps the history of its events as a ghost, and is valid when its fields are
 those a run of RelayRuns reaches by that history. So every theorem about runs is one
 about the object, and the methods can promise what no single body shows.
 */
module RelayServer {
  import opened Bytes
  import opened RelaySpec
  import opened Runs = RelayRuns

  // ---- What a reachable relay lets each section promise ----

  /** A pending code has never been claimed, and is overdue by no more than the time since the last sweep. */
  lemma PendingUnclaimed(l: Limits, r: Relay, rid: string)
    requires Inv(l, r) && rid in r.server.pending
    ensures forall k <- r.claims :: k.publication != r.server.pending[rid].publication
    ensures r.now - r.server.pending[rid].created <= AtLeastZero(l.codeTTL) + (r.now - r.lastSweep)
  {
    hide Slots, Rights;
  }

  /** A ticket leads to an empty side of its own circuit, and no handler is on its way to that side. */
  lemma TicketUnspent(l: Limits, r: Relay, ticket: string)
    requires Inv(l, r) && ticket in r.server.tickets
    ensures var ref := r.server.tickets[ticket];
            && ref.circuit in r.server.heap && r.server.heap[ref.circuit].At(ref.side).None?
            && r.server.heap[ref.circuit].TicketOf(ref.side) == ticket
            && forall u | u in r.threads && r.threads[u].Redeemed? && r.threads[u].circuit == ref.circuit ::
                 r.threads[u].side != ref.side
  {
    hide Slots, Codes, TicketsBelong, SplicedOnce;
    var ref := r.server.tickets[ticket];
    assert Entitles(r, ticket, ref.circuit, ref.side);
    forall u | u in r.threads && r.threads[u].Redeemed? && r.threads[u].circuit == ref.circuit
      ensures r.threads[u].side != ref.side
    {
      assert Entitles(r, r.threads[u].half.ticket, r.threads[u].circuit, r.threads[u].side);
    }
  }

  /** Only the two tickets a circuit was issued lead to it. */
  lemma TicketsOfCircuit(l: Limits, r: Relay, c: CircuitId, k: string)
    requires Inv(l, r) && c in r.server.heap && k in r.server.tickets
    ensures r.server.tickets[k].circuit == c <==> k in {r.server.heap[c].leftTicket, r.server.heap[c].rightTicket}
  {
    hide Slots, Codes, SplicedOnce;
    var ref := r.server.tickets[k];
    assert Entitles(r, k, ref.circuit, ref.side);
    var x := r.server.heap[c];
    assert x.TicketOf(false) == x.leftTicket && x.TicketOf(true) == x.rightTicket;
  }

  /** A side about to be set is empty, so its circuit is not being spliced yet; its ticket is not the other side's. */
  lemma AttachesFirst(l: Limits, r: Relay, t: ThreadId)
    requires Inv(l, r) && t in r.threads && r.threads[t].Redeemed?
    ensures var x := r.threads[t];
            && x.circuit in r.server.heap
            && var k := r.server.heap[x.circuit];
               && k.At(x.side).None? && !k.started && x.half.ticket == k.TicketOf(x.side)
               && (k.At(!x.side).Some? ==> k.At(!x.side).value.ticket != x.half.ticket)
  {
    hide Slots, Codes;
    var x := r.threads[t];
    assert Entitles(r, x.half.ticket, x.circuit, x.side);
    var k := r.server.heap[x.circuit];
    assert k.At(false) == k.left && k.At(true) == k.right;
  }

  /** A splice that has ended has not closed `done` yet. */
  lemma NotDone(l: Limits, r: Relay, t: ThreadId)
    requires Inv(l, r) && t in r.threads && r.threads[t].Finishing?
    ensures r.threads[t].circuit in r.server.heap && !r.server.heap[r.threads[t].circuit].done
  {
    hide Slots, Codes;
    assert Copies(r.threads[t], r.threads[t].circuit);
  }

  lemma PendingWithin(l: Limits, r: Relay)
    requires Inv(l, r)
    ensures |r.server.pending| <= AtLeastZero(l.maxPendingCodes)
  {
    hide Slots, Rights;
  }

  lemma OnePublication(l: Limits, r: Relay, rid: string)
    requires Inv(l, r) && rid in r.server.pending
    ensures forall k | k in r.server.pending && k != rid ::
              r.server.pending[k].publication != r.server.pending[rid].publication
  {
    hide Slots, Rights;
  }

  lemma TicketFacts(l: Limits, r: Relay)
    requires Inv(l, r)
    ensures TicketsBelong(r) && RightsHeldOnce(r)
  {
    hide Slots, Codes, TicketsBelong, RightsHeldOnce, SplicedOnce;
  }

  /** Before a circuit exists no ticket leads to it, and fresh tickets are not in use. */
  lemma NewTickets(r: Relay, c: CircuitId, a: string, b: string)
    requires TicketsBelong(r) && RightsHeldOnce(r) && c !in r.server.heap && a !in r.tickets && b !in r.tickets
    ensures forall k | k in r.server.tickets :: r.server.tickets[k].circuit != c && k != a && k != b
  {
    forall k | k in r.server.tickets
      ensures r.server.tickets[k].circuit != c && k != a && k != b
    {
      assert Entitles(r, k, r.server.tickets[k].circuit, r.server.tickets[k].side);
    }
  }

  lemma SlotHeld(l: Limits, r: Relay, c: CircuitId)
    requires Inv(l, r) && c in r.server.heap
    ensures 0 <= r.server.circuits
    ensures !r.server.heap[c].released ==> r.server.circuits > 0
  {
    hide Rights, Codes;
    if !r.server.heap[c].released {
      assert c in OpenCircuits(r);
    }
  }

  class RelayServer {
    const limits: Limits
    var pending: map<string, Pending>
    var tickets: map<string, TicketRef>
    var circuits: int
    var heap: map<CircuitId, Circuit>
    /** Numbers the publications, which the source tells apart by their addresses. */
    var publications: nat
    /** When the server started and what has happened since. */
    ghost const start: Time
    ghost var history: seq<Event>

    function View(): Server
      reads this
    {
      Server(pending, tickets, circuits, heap)
    }

    ghost function Relay(): Runs.Relay
      reads this
    {
      Run(limits, start, history)
    }

    /** The fields are those of the run so far. */
    ghost predicate Valid()
      reads this
    {
      View() == Relay().server && publications == Relay().publications
    }

    constructor (limits: Limits, ghost start: Time)
      ensures Valid() && this.limits == limits && this.start == start && history == []
    {
      this.limits, this.start := limits, start;
      pending, tickets, circuits, heap, publications := map[], map[], 0, map[], 0;
      history := [];
      new;
      hide Inv;
    }

    /** The slots in use are those of unreleased circuits and of pairings in progress, and within the limit. */
    lemma Accounted()
      requires Valid()
      ensures circuits == |OpenCircuits(Relay())| + |PairingThreads(Relay())|
      ensures 0 <= circuits <= AtLeastZero(limits.maxCircuits) && |pending| <= AtLeastZero(limits.maxPendingCodes)
    {
      hide Rights;
      RunKeeps(limits, start, history);
    }

    ghost method Record(e: Event)
      modifies this`history
      ensures history == old(history) + [e]
      ensures Relay() == Step(limits, old(Relay()), e) && Inv(limits, Relay())
    {
      hide Inv, Step;
      RunOne(limits, start, history, e);
      history := history + [e];
      RunKeeps(limits, start, history);
    }

    /** What changes no field: time passes, or a handler moves on outside any mutex section. */
    ghost method Elsewhere(e: Event)
      requires Valid() && Enabled(limits, Relay(), e)
      requires e.Tick? || e.Announced? || e.AckFails? || e.StopWaiting?
      modifies this`history
      ensures Valid() && history == old(history) + [e]
    {
      hide Inv;
      Record(e);
    }

    /** Publishes a code if there is room; the limit holds afterwards either way. */
    method AddPending(rid: string, conn: ConnId, sealed: string, observed: string, now: Time) returns (ok: bool)
      requires Valid() && now == Relay().now
      modifies this
      ensures Valid() && history == old(history) + [Publish(rid, conn, sealed, observed)]
      ensures ok <==> |old(pending)| < limits.maxPendingCodes
      ensures ok ==>
                && rid in pending && pending[rid].conn == conn && pending[rid].sealed == sealed
                && pending[rid].observed == observed
      ensures forall k <- Relay().claims :: rid in pending ==> k.publication != pending[rid].publication
      ensures |pending| <= AtLeastZero(limits.maxPendingCodes)
    {
      hide Inv;
      RunKeeps(limits, start, history);
      var p := Pending(conn, sealed, observed, now, publications);
      publications := publications + 1;
      Record(Publish(rid, conn, sealed, observed));
      if |pending| >= limits.maxPendingCodes {
        ok := false;
      } else {
        pending := pending[rid := p];
        ok := true;
      }
      PendingWithin(limits, Relay());
      if rid in pending {
        PendingUnclaimed(limits, Relay(), rid);
      }
    }

    /** A connection's cleanup; a code another connection has published since under the same ID stays. */
    method DropPending(rid: string, conn: ConnId)
      requires Valid()
      modifies this
      ensures Valid() && history == old(history) + [Unpublish(rid, conn)]
      ensures rid in pending ==> pending[rid].conn != conn
      ensures forall k | k in old(pending) && (k != rid || old(pending)[k].conn != conn) ::
                k in pending && pending[k] == old(pending)[k]
    {
      hide Inv;
      Record(Unpublish(rid, conn));
      if rid in pending && pending[rid].conn == conn {
        pending := pending - {rid};
      }
    }

    /** Takes a code and a slot together, or neither. What it takes nobody has claimed before, nor can again. */
    method TakeCode(ghost t: ThreadId, rid: string, claimer: ConnId) returns (r: Result<Pending, PairError>)
      requires Valid() && t !in Relay().threads
      modifies this
      ensures Valid() && history == old(history) + [ClaimCode(t, rid, claimer)]
      ensures r == Err(NoSuchCode) <==> rid !in old(pending)
      ensures r == Err(OwnCode) <==> rid in old(pending) && old(pending)[rid].conn == claimer
      ensures r == Err(AtCapacity) ==> old(circuits) >= limits.maxCircuits
      ensures r.Err? ==> View() == old(View()) && Relay() == old(Relay())
      ensures r.Ok? ==>
                && r.value == old(pending)[rid] && r.value.conn != claimer && rid !in pending
                && circuits == old(circuits) + 1 <= limits.maxCircuits
                && (forall k <- old(Relay()).claims :: k.publication != r.value.publication)
                && (forall k | k in pending :: pending[k].publication != r.value.publication)
                && Relay().now - r.value.created <= AtLeastZero(limits.codeTTL) + (Relay().now - Relay().lastSweep)
    {
      hide Inv;
      RunKeeps(limits, start, history);
      ghost var before := Relay();
      Record(ClaimCode(t, rid, claimer));
      if rid !in pending {
        return Err(NoSuchCode);
      }
      var p := pending[rid];
      if p.conn == claimer {
        return Err(OwnCode);
      }
      if circuits >= limits.maxCircuits {
        return Err(AtCapacity);
      }
      PendingUnclaimed(limits, before, rid);
      pending := pending - {rid};
      circuits := circuits + 1;
      OnePublication(limits, before, rid);
      return Ok(p);
    }

    /** No ticket could be made: the slot goes back. It was counted, so the guard lets it through. */
    method FailPairing(ghost t: ThreadId)
      requires Valid() && t in Relay().threads && Relay().threads[t].Pairing?
      modifies this
      ensures Valid() && history == old(history) + [TicketsFail(t)]
      ensures circuits == old(circuits) - 1 >= 0
    {
      hide Rights, Codes;
      RunKeeps(limits, start, history);
      FailSlots(limits, Relay(), t);
      hide Slots;
      Record(TicketsFail(t));
      ReleaseCircuit();
    }

    /** A new circuit: the two tickets and no others lead to it, one to each side, and the slot is now the circuit's. */
    method IssueTickets(ghost t: ThreadId, c: CircuitId, now: Time, a: string, b: string)
      requires Valid() && Enabled(limits, Relay(), Issue(t, c, a, b)) && now == Relay().now
      modifies this
      ensures Valid() && history == old(history) + [Issue(t, c, a, b)]
      ensures forall side: bool, k: string ::
                k in tickets && tickets[k] == TicketRef(c, side) <==> k == if side then b else a
      ensures forall k | k in old(tickets) :: k in tickets && tickets[k] == old(tickets)[k]
      ensures OpenCircuits(Relay()) == OpenCircuits(old(Relay())) + {c}
      ensures PairingThreads(Relay()) == PairingThreads(old(Relay())) - {t}
      ensures circuits == old(circuits)
    {
      hide Inv, TicketsBelong, RightsHeldOnce;
      RunKeeps(limits, start, history);
      TicketFacts(limits, Relay());
      NewTickets(Relay(), c, a, b);
      Record(Issue(t, c, a, b));
      heap := heap[c := NewCircuit(now, a, b)];
      tickets := tickets[a := TicketRef(c, false)];
      tickets := tickets[b := TicketRef(c, true)];
    }

    /** Announcing failed: no ticket to the circuit is left, and every other ticket is. */
    method DropTickets(ghost t: ThreadId, ghost c: CircuitId, a: string, b: string)
      requires Valid() && t in Relay().threads && Relay().threads[t] == Issued(c)
      requires c in heap && heap[c].leftTicket == a && heap[c].rightTicket == b
      modifies this
      ensures Valid() && history == old(history) + [AnnounceFails(t)]
      ensures forall k :: k in tickets <==> k in old(tickets) && old(tickets)[k].circuit != c
      ensures forall k | k in tickets :: tickets[k] == old(tickets)[k]
    {
      hide Inv;
      RunKeeps(limits, start, history);
      forall k | k in tickets
        ensures tickets[k].circuit == c <==> k in {a, b}
      {
        TicketsOfCircuit(limits, Relay(), c, k);
      }
      Record(AnnounceFails(t));
      tickets := tickets - {a};
      tickets := tickets - {b};
    }

    /** Spends a ticket: it leads to a side nobody has taken and nobody else is on the way to. */
    method Redeem(ghost t: ThreadId, ticket: string, ghost conn: ConnId) returns (r: Option<TicketRef>)
      requires Valid() && t !in Relay().threads
      modifies this
      ensures Valid() && history == old(history) + [RedeemTicket(t, ticket, conn)]
      ensures r.Some? <==> ticket in old(tickets)
      ensures ticket !in tickets && forall k | k in old(tickets) && k != ticket ::
                k in tickets && tickets[k] == old(tickets)[k]
      ensures r.Some? ==>
                var TicketRef(c, side) := r.value;
                && c in heap && heap[c].At(side).None? && heap[c].TicketOf(side) == ticket
                && (forall u | u in old(Relay()).threads && old(Relay()).threads[u].Redeemed?
                    && old(Relay()).threads[u].circuit == c ::
                      old(Relay()).threads[u].side != side)
    {
      hide Inv;
      RunKeeps(limits, start, history);
      ghost var before := Relay();
      Record(RedeemTicket(t, ticket, conn));
      if ticket !in tickets {
        return None;
      }
      TicketUnspent(limits, before, ticket);
      r := Some(tickets[ticket]);
      tickets := tickets - {ticket};
    }

    /**
     Sets a side that was empty. The second arrival, and only it, starts the splice; so the
     test of `started` never decides, and the two halves came with different tickets.
     */
    method Attach(ghost t: ThreadId, c: CircuitId, side: bool, h: Half) returns (second: bool)
      requires Valid() && t in Relay().threads && Relay().threads[t] == Redeemed(c, side, h) && c in heap
      modifies this
      ensures Valid() && history == old(history) + [AttachHalf(t)]
      ensures old(heap)[c].At(side).None? && h.ticket == old(heap)[c].TicketOf(side)
      ensures second <==> old(heap)[c].At(!side).Some?
      ensures heap.Keys == old(heap).Keys && heap[c].At(side) == Some(h) && heap[c].At(!side) == old(heap)[c].At(!side)
      ensures second ==> heap[c].started && heap[c].At(!side).value.ticket != h.ticket
      ensures !second ==> !heap[c].started
      ensures forall d | d in heap && d != c :: heap[d] == old(heap)[d]
    {
      hide Inv;
      RunKeeps(limits, start, history);
      AttachesFirst(limits, Relay(), t);
      Record(AttachHalf(t));
      var k := heap[c].With(side, h);
      second := k.At(!side).Some? && !k.started;
      if second {
        k := k.(started := true);
      }
      heap := heap[c := k];
    }

    method ReleaseCircuit()
      modifies this`circuits
      ensures circuits == if old(circuits) > 0 then old(circuits) - 1 else old(circuits)
    {
      if circuits > 0 {
        circuits := circuits - 1;
      }
    }

    /**
     Returns the circuit's slot the first time, whoever calls; the counter then always falls, so
     its guard hides nothing.
     */
    method ReleaseOnce(ghost e: Event, c: CircuitId)
      requires Valid() && Enabled(limits, Relay(), e) && ReleaseEvent(e) && Relay().threads[e.thread].circuit == c
               && c in heap
      modifies this
      ensures Valid() && history == old(history) + [e]
      ensures c in heap && heap[c].released
      ensures circuits == old(circuits) - (if old(heap)[c].released then 0 else 1) >= 0
      ensures OpenCircuits(Relay()) == OpenCircuits(old(Relay())) - {c}
    {
      hide Inv;
      RunKeeps(limits, start, history);
      SlotHeld(limits, Relay(), c);
      Record(e);
      if !heap[c].released {
        heap := heap[c := heap[c].(released := true)];
        ReleaseCircuit();
      }
    }

    /** Ends a splice. The channel is still open, so closing it cannot fail. */
    method CloseDone(ghost t: ThreadId, c: CircuitId)
      requires Valid() && t in Relay().threads && Relay().threads[t] == Finishing(c) && c in heap
      modifies this
      ensures Valid() && history == old(history) + [CloseDoneChannel(t)]
      ensures !old(heap)[c].done
      ensures heap == old(heap)[c := old(heap)[c].(done := true)]
    {
      hide Inv;
      RunKeeps(limits, start, history);
      NotDone(limits, Relay(), t);
      Record(CloseDoneChannel(t));
      heap := heap[c := heap[c].(done := true)];
    }

    /** One sweep: drops every code and every ticket older than the TTL, and nothing else. */
    method Reap(now: Time)
      requires Valid() && now == Relay().now
      modifies this
      ensures Valid() && history == old(history) + [Sweep]
      ensures View() == RelaySpec.Reap(limits, old(View()), now)
      ensures forall rid | rid in pending :: now - pending[rid].created <= limits.codeTTL
    {
      hide Inv;
      SweepCodes(now);
      SweepTickets(now);
      Record(Sweep);
    }

    method SweepCodes(now: Time)
      modifies this`pending
      ensures pending == LivePending(old(pending), now, limits.codeTTL)
    {
      var left := pending.Keys;
      while left != {}
        invariant left <= old(pending).Keys
        invariant forall rid :: rid in pending <==>
                    rid in old(pending) && (rid in left || now - old(pending)[rid].created <= limits.codeTTL)
        invariant forall rid | rid in pending :: pending[rid] == old(pending)[rid]
        decreases |left|
      {
        var rid :| rid in left;
        if now - pending[rid].created > limits.codeTTL {
          pending := pending - {rid};
        }
        left := left - {rid};
      }
    }

    method SweepTickets(now: Time)
      modifies this`tickets
      ensures tickets == LiveTickets(old(View()), now, limits.codeTTL)
    {
      var left := tickets.Keys;
      while left != {}
        invariant left <= old(tickets).Keys
        invariant forall t :: t in tickets <==>
                    t in old(tickets) && (t in left || TicketAge(old(View()), t, now) <= limits.codeTTL)
        invariant forall t | t in tickets :: tickets[t] == old(tickets)[t]
        decreases |left|
      {
        var t :| t in left;
        if TicketAge(View(), t, now) > limits.codeTTL {
          tickets := tickets - {t};
        }
        left := left - {t};
      }
    }
  }
}
