/**
 Every interleaving of the relay's handlers, its reaper and the passing of time. A
 thread is a handler between two of its mutex sections; each event is one section,
 the outcome of a send, or a timer.
 */
module RelayRuns {
  import opened Bytes
  import opened Spec = RelaySpec

  type ThreadId = nat

  datatype Thread =
    | Pairing                                                           // slot taken, no circuit yet
    | Issued(circuit: CircuitId)                                        // tickets issued, announcing them
    | Dropping(circuit: CircuitId)                                      // tickets dropped, slot not yet returned
    | Redeemed(circuit: CircuitId, side: bool, half: Half)              // ticket spent, not yet attached
    | Waiting(circuit: CircuitId)                                       // first half, holding its connection open
    | Splicing(circuit: CircuitId)                                      // second half, copying
    | Finishing(circuit: CircuitId)                                     // slot returned, about to close `done`

  /** A claimed publication: whose it was, who claimed it, how old it was, and how long ago the last sweep was. */
  datatype Claim = Claim(publication: nat, publisher: ConnId, claimer: ConnId, age: Time, unswept: Time)

  datatype Relay = Relay(
    server: Server, threads: map<ThreadId, Thread>, now: Time, lastSweep: Time,
    // The record of the run.
    publications: nat, claims: seq<Claim>, tickets: set<string>, taken: nat, released: nat)

  datatype Event =
    | Publish(rid: string, conn: ConnId, sealed: string, observed: string)
    | Unpublish(rid: string, conn: ConnId)
    | ClaimCode(thread: ThreadId, rid: string, claimer: ConnId)
    | TicketsFail(thread: ThreadId)
    | Issue(thread: ThreadId, circuit: CircuitId, a: string, b: string)
    | Announced(thread: ThreadId)
    | AnnounceFails(thread: ThreadId)
    | DropReleases(thread: ThreadId)
    | RedeemTicket(thread: ThreadId, ticket: string, conn: ConnId)
    | AckFails(thread: ThreadId)
    | AttachHalf(thread: ThreadId)
    | IdleTimeout(thread: ThreadId)
    | StopWaiting(thread: ThreadId)
    | SpliceEnds(thread: ThreadId)
    | CloseDoneChannel(thread: ThreadId)
    | Sweep
    | Tick(now: Time)

  /**
   What the code and its environment allow: a handler is where it is, thread and circuit
   identities are new, tickets are fresh random values, and time does not run backwards.
   Sweeps may come at any time, late, or not at all.
   */
  predicate Enabled(l: Limits, r: Relay, e: Event) {
    match e
    case Publish(_, _, _, _) => true
    case Unpublish(_, _) => true
    case ClaimCode(t, _, _) => t !in r.threads
    case TicketsFail(t) => t in r.threads && r.threads[t].Pairing?
    case Issue(t, c, a, b) =>
      t in r.threads && r.threads[t].Pairing? && c !in r.server.heap && a !in r.tickets && b !in r.tickets && a != b
    case Announced(t) => t in r.threads && r.threads[t].Issued?
    case AnnounceFails(t) => t in r.threads && r.threads[t].Issued?
    case DropReleases(t) => t in r.threads && r.threads[t].Dropping?
    case RedeemTicket(t, _, _) => t !in r.threads
    case AckFails(t) => t in r.threads && r.threads[t].Redeemed?
    case AttachHalf(t) => t in r.threads && r.threads[t].Redeemed?
    case IdleTimeout(t) => t in r.threads && r.threads[t].Waiting?
    case StopWaiting(t) => t in r.threads && r.threads[t].Waiting?
    case SpliceEnds(t) => t in r.threads && r.threads[t].Splicing?
    case CloseDoneChannel(t) => t in r.threads && r.threads[t].Finishing?
    case Sweep => true
    case Tick(now) => r.now <= now
  }

  function End(r: Relay, t: ThreadId): map<ThreadId, Thread> {
    r.threads - {t}
  }

  /** Returning a circuit's slot, once. */
  function Release(r: Relay, c: CircuitId): Relay {
    if c !in r.server.heap || r.server.heap[c].released then r
    else r.(server := ReleaseOnce(r.server, c), released := r.released + 1)
  }

  function StepClaim(l: Limits, r: Relay, t: ThreadId, rid: string, claimer: ConnId): Relay {
    var (s, p) := TakeCode(l, r.server, rid, claimer);
    if p.Err? then r
    else r.(server := s, threads := r.threads[t := Pairing], taken := r.taken + 1,
            claims := r.claims + [Claim(p.value.publication, p.value.conn, claimer,
                                        r.now - p.value.created, r.now - r.lastSweep)])
  }

  function StepIssue(r: Relay, t: ThreadId, c: CircuitId, a: string, b: string): Relay {
    r.(server := IssueTickets(r.server, c, r.now, a, b), threads := r.threads[t := Issued(c)],
       tickets := r.tickets + {a, b})
  }

  function StepRedeem(r: Relay, t: ThreadId, ticket: string, conn: ConnId): Relay {
    var (s, ref) := Redeem(r.server, ticket);
    if ref.None? then r
    else r.(server := s, threads := r.threads[t := Redeemed(ref.value.circuit, ref.value.side, Half(conn, ticket))])
  }

  function StepAttach(r: Relay, t: ThreadId, c: CircuitId, side: bool, h: Half): Relay {
    if c !in r.server.heap then r
    else
      var (s, second) := Attach(r.server, c, side, h);
      r.(server := s, threads := r.threads[t := if second then Splicing(c) else Waiting(c)])
  }

  function Step(l: Limits, r: Relay, e: Event): Relay {
    if !Enabled(l, r, e) then r
    else match e
      case Publish(rid, conn, sealed, observed) =>
        r.(server := AddPending(l, r.server, rid, Pending(conn, sealed, observed, r.now, r.publications)).0,
           publications := r.publications + 1)
      case Unpublish(rid, conn) => r.(server := DropPending(r.server, rid, conn))
      case ClaimCode(t, rid, claimer) => StepClaim(l, r, t, rid, claimer)
      case TicketsFail(t) => r.(server := ReleaseSlot(r.server), threads := End(r, t), released := r.released + 1)
      case Issue(t, c, a, b) => StepIssue(r, t, c, a, b)
      case Announced(t) => r.(threads := End(r, t))
      case AnnounceFails(t) =>
        var c := r.threads[t].circuit;
        var k := if c in r.server.heap then r.server.heap[c] else NewCircuit(0, "", "");
        r.(server := DropTickets(r.server, k.leftTicket, k.rightTicket), threads := r.threads[t := Dropping(c)])
      case DropReleases(t) => Release(r, r.threads[t].circuit).(threads := End(r, t))
      case RedeemTicket(t, ticket, conn) => StepRedeem(r, t, ticket, conn)
      case AckFails(t) => r.(threads := End(r, t))
      case AttachHalf(t) => StepAttach(r, t, r.threads[t].circuit, r.threads[t].side, r.threads[t].half)
      case IdleTimeout(t) => Release(r, r.threads[t].circuit).(threads := End(r, t))
      case StopWaiting(t) => r.(threads := End(r, t))
      case SpliceEnds(t) =>
        var c := r.threads[t].circuit;
        Release(r, c).(threads := r.threads[t := Finishing(c)])
      case CloseDoneChannel(t) =>
        var c := r.threads[t].circuit;
        if c !in r.server.heap then r else r.(server := CloseDone(r.server, c), threads := End(r, t))
      case Sweep => r.(server := Reap(l, r.server, r.now), lastSweep := r.now)
      case Tick(now) => r.(now := now)
  }

  function Start(now: Time): Relay {
    Relay(EMPTY, map[], now, now, 0, [], {}, 0, 0)
  }

  function Run(l: Limits, now: Time, es: seq<Event>): Relay {
    if es == [] then Start(now) else Step(l, Run(l, now, es[..|es| - 1]), es[|es| - 1])
  }

  // ---- Slots ----

  function OpenCircuits(r: Relay): set<CircuitId> {
    set c | c in r.server.heap && !r.server.heap[c].released
  }

  function PairingThreads(r: Relay): set<ThreadId> {
    set t | t in r.threads && r.threads[t].Pairing?
  }

  function AtLeastZero(n: int): int {
    if n < 0 then 0 else n
  }

  /** Every slot in use belongs to a pairing in progress or to one unreleased circuit. */
  ghost predicate Slots(l: Limits, r: Relay) {
    && r.server.circuits == |OpenCircuits(r)| + |PairingThreads(r)|
    && r.server.circuits == r.taken - r.released
    && r.server.circuits <= AtLeastZero(l.maxCircuits)
    && (forall t | t in r.threads && !r.threads[t].Pairing? :: r.threads[t].circuit in r.server.heap)
  }

  lemma ReleaseSlots(l: Limits, r: Relay, c: CircuitId, t: ThreadId, threads: map<ThreadId, Thread>)
    requires Slots(l, r) && t in r.threads && !r.threads[t].Pairing?
    requires || threads == r.threads - {t}
             || (exists x: Thread :: !x.Pairing? && x.circuit in r.server.heap && threads == r.threads[t := x])
    ensures Slots(l, Release(r, c).(threads := threads))
    ensures c in r.server.heap && !r.server.heap[c].released ==> r.server.circuits > 0
  {
    var r' := Release(r, c).(threads := threads);
    assert PairingThreads(r') == PairingThreads(r);
    if c in r.server.heap && !r.server.heap[c].released {
      assert c in OpenCircuits(r);
      assert OpenCircuits(r') == OpenCircuits(r) - {c};
    } else {
      assert OpenCircuits(r') == OpenCircuits(r);
    }
  }

  lemma ClaimSlots(l: Limits, r: Relay, t: ThreadId, rid: string, claimer: ConnId)
    requires Slots(l, r) && t !in r.threads
    ensures Slots(l, StepClaim(l, r, t, rid, claimer))
  {
    var r' := StepClaim(l, r, t, rid, claimer);
    if TakeCode(l, r.server, rid, claimer).1.Ok? {
      assert OpenCircuits(r') == OpenCircuits(r);
      assert PairingThreads(r') == PairingThreads(r) + {t};
    }
  }

  lemma FailSlots(l: Limits, r: Relay, t: ThreadId)
    requires Slots(l, r) && t in r.threads && r.threads[t].Pairing?
    ensures r.server.circuits > 0
    ensures Slots(l, Step(l, r, TicketsFail(t)))
  {
    var r' := Step(l, r, TicketsFail(t));
    assert t in PairingThreads(r);
    assert OpenCircuits(r') == OpenCircuits(r);
    assert PairingThreads(r') == PairingThreads(r) - {t};
  }

  lemma IssueSlots(l: Limits, r: Relay, e: Event)
    requires Slots(l, r) && e.Issue? && Enabled(l, r, e)
    ensures Slots(l, Step(l, r, e))
  {
    var r' := Step(l, r, e);
    assert OpenCircuits(r') == OpenCircuits(r) + {e.circuit};
    assert PairingThreads(r') == PairingThreads(r) - {e.thread};
  }

  /** A step that neither takes nor returns a slot and moves threads only within the heap's circuits. */
  lemma QuietSlots(l: Limits, r: Relay, r': Relay)
    requires Slots(l, r)
    requires r'.server.circuits == r.server.circuits && r'.taken == r.taken && r'.released == r.released
    requires r'.server.heap.Keys == r.server.heap.Keys
    requires forall c | c in r.server.heap :: r'.server.heap[c].released == r.server.heap[c].released
    requires forall t | t in r'.threads ::
               || (t in r.threads && r'.threads[t] == r.threads[t])
               || (!r'.threads[t].Pairing? && r'.threads[t].circuit in r.server.heap)
    requires forall t | t in r.threads && r.threads[t].Pairing? :: t in r'.threads && r'.threads[t].Pairing?
    ensures Slots(l, r')
  {
    assert OpenCircuits(r) == OpenCircuits(r') && PairingThreads(r) == PairingThreads(r');
  }

  predicate CodeEvent(e: Event) {
    e.Publish? || e.Unpublish? || e.Sweep? || e.Tick?
  }

  predicate ReleaseEvent(e: Event) {
    e.DropReleases? || e.IdleTimeout? || e.SpliceEnds?
  }

  predicate LeaveEvent(e: Event) {
    e.Announced? || e.AnnounceFails? || e.AckFails? || e.StopWaiting?
  }

  lemma CodeSlots(l: Limits, r: Relay, e: Event)
    requires Slots(l, r) && CodeEvent(e)
    ensures Slots(l, Step(l, r, e))
  {
    QuietSlots(l, r, Step(l, r, e));
  }

  lemma LeaveSlots(l: Limits, r: Relay, e: Event)
    requires Slots(l, r) && LeaveEvent(e)
    ensures Slots(l, Step(l, r, e))
  {
    QuietSlots(l, r, Step(l, r, e));
  }

  lemma JoinSlots(l: Limits, r: Relay, e: Event)
    requires Slots(l, r) && (e.RedeemTicket? || e.AttachHalf? || e.CloseDoneChannel?)
    requires forall k | k in r.server.tickets :: r.server.tickets[k].circuit in r.server.heap
    ensures Slots(l, Step(l, r, e))
  {
    hide Step, Slots;
    if e.RedeemTicket? {
      RedeemSlots(l, r, e);
    } else if e.AttachHalf? {
      AttachSlots(l, r, e);
    } else {
      CloseSlots(l, r, e);
    }
  }

  lemma RedeemSlots(l: Limits, r: Relay, e: Event)
    requires Slots(l, r) && e.RedeemTicket?
    requires forall k | k in r.server.tickets :: r.server.tickets[k].circuit in r.server.heap
    ensures Slots(l, Step(l, r, e))
  {
    hide OpenCircuits, PairingThreads;
    QuietSlots(l, r, Step(l, r, e));
  }

  lemma AttachSlots(l: Limits, r: Relay, e: Event)
    requires Slots(l, r) && e.AttachHalf?
    ensures Slots(l, Step(l, r, e))
  {
    hide OpenCircuits, PairingThreads;
    QuietSlots(l, r, Step(l, r, e));
  }

  lemma CloseSlots(l: Limits, r: Relay, e: Event)
    requires Slots(l, r) && e.CloseDoneChannel?
    ensures Slots(l, Step(l, r, e))
  {
    hide OpenCircuits, PairingThreads;
    QuietSlots(l, r, Step(l, r, e));
  }

  lemma ReturnSlots(l: Limits, r: Relay, e: Event)
    requires Slots(l, r) && ReleaseEvent(e) && Enabled(l, r, e)
    ensures Slots(l, Step(l, r, e))
    ensures var c := r.threads[e.thread].circuit;
            c in r.server.heap && (!r.server.heap[c].released ==> r.server.circuits > 0)
  {
    var t := e.thread;
    var c := r.threads[t].circuit;
    var threads := if e.SpliceEnds? then r.threads[t := Finishing(c)] else End(r, t);
    assert !Finishing(c).Pairing? && Finishing(c).circuit == c;
    ReleaseSlots(l, r, c, t, threads);
  }

  lemma StepSlots(l: Limits, r: Relay, e: Event)
    requires Slots(l, r) && Enabled(l, r, e)
    requires forall k | k in r.server.tickets :: r.server.tickets[k].circuit in r.server.heap
    ensures Slots(l, Step(l, r, e))
  {
    if CodeEvent(e) {
      hide Step;
      CodeSlots(l, r, e);
    } else if LeaveEvent(e) {
      hide Step;
      LeaveSlots(l, r, e);
    } else if ReleaseEvent(e) {
      hide Step;
      ReturnSlots(l, r, e);
    } else if e.RedeemTicket? || e.AttachHalf? || e.CloseDoneChannel? {
      hide Step;
      JoinSlots(l, r, e);
    } else if e.ClaimCode? {
      ClaimSlots(l, r, e.thread, e.rid, e.claimer);
    } else if e.TicketsFail? {
      FailSlots(l, r, e.thread);
    } else {
      IssueSlots(l, r, e);
    }
  }

  // ---- Tickets and halves ----

  /** A ticket belongs to one side of one circuit, for good. */
  ghost predicate TicketsBelong(r: Relay) {
    && (forall c, side: bool | c in r.server.heap :: r.server.heap[c].TicketOf(side) in r.tickets)
    && (forall c, c', side: bool, side': bool | c in r.server.heap && c' in r.server.heap
          && r.server.heap[c].TicketOf(side) == r.server.heap[c'].TicketOf(side') :: c == c' && side == side')
    && (forall c, side: bool | c in r.server.heap && r.server.heap[c].At(side).Some? ::
          r.server.heap[c].At(side).value.ticket == r.server.heap[c].TicketOf(side))
  }

  ghost predicate Entitles(r: Relay, k: string, c: CircuitId, side: bool) {
    c in r.server.heap && r.server.heap[c].TicketOf(side) == k && r.server.heap[c].At(side).None?
  }

  /** The right to set a side's connection is held once: by an unspent ticket or by one thread that spent it. */
  ghost predicate RightsHeldOnce(r: Relay) {
    && (forall k | k in r.server.tickets :: Entitles(r, k, r.server.tickets[k].circuit, r.server.tickets[k].side))
    && (forall t | t in r.threads && r.threads[t].Redeemed? ::
          Entitles(r, r.threads[t].half.ticket, r.threads[t].circuit, r.threads[t].side)
          && r.threads[t].half.ticket !in r.server.tickets)
    && (forall t, t' | t in r.threads && t' in r.threads && r.threads[t].Redeemed? && r.threads[t'].Redeemed?
          && r.threads[t].half.ticket == r.threads[t'].half.ticket :: t == t')
  }

  ghost predicate Copies(x: Thread, c: CircuitId) {
    (x.Splicing? || x.Finishing?) && x.circuit == c
  }

  /** A circuit is spliced by at most one thread, with both halves there, and `done` is closed only after. */
  ghost predicate SplicedOnce(r: Relay) {
    && (forall c | c in r.server.heap && r.server.heap[c].started ::
          r.server.heap[c].left.Some? && r.server.heap[c].right.Some?)
    && (forall c | c in r.server.heap && r.server.heap[c].done :: r.server.heap[c].started)
    && (forall t, c | t in r.threads && Copies(r.threads[t], c) ::
          c in r.server.heap && r.server.heap[c].started && !r.server.heap[c].done)
    && (forall t, t', c | t in r.threads && t' in r.threads && Copies(r.threads[t], c) && Copies(r.threads[t'], c) ::
          t == t')
  }

  ghost predicate Rights(r: Relay) {
    TicketsBelong(r) && RightsHeldOnce(r) && SplicedOnce(r)
  }

  ghost predicate SameSides(k: Circuit, k': Circuit) {
    k'.left == k.left && k'.right == k.right && k'.leftTicket == k.leftTicket && k'.rightTicket == k.rightTicket
  }

  /** Threads that hold no right and copy nothing may come and go; a copier may move on to finishing. */
  ghost predicate QuietThreads(r: Relay, r': Relay) {
    forall t | t in r'.threads ::
      || !(r'.threads[t].Redeemed? || r'.threads[t].Splicing? || r'.threads[t].Finishing?)
      || (t in r.threads && r'.threads[t] == r.threads[t])
      || (t in r.threads && r.threads[t].Splicing? && r'.threads[t] == Finishing(r.threads[t].circuit))
  }

  /** A step that sets no side and spends no ticket. */
  lemma QuietOwned(r: Relay, r': Relay)
    requires TicketsBelong(r) && RightsHeldOnce(r) && r'.tickets == r.tickets
    requires r'.server.heap.Keys == r.server.heap.Keys
    requires forall c | c in r.server.heap :: SameSides(r.server.heap[c], r'.server.heap[c])
    requires forall k | k in r'.server.tickets :: k in r.server.tickets && r'.server.tickets[k] == r.server.tickets[k]
    requires QuietThreads(r, r')
    ensures TicketsBelong(r') && RightsHeldOnce(r')
  {
    assert forall c, side: bool | c in r.server.heap ::
        r'.server.heap[c].TicketOf(side) == r.server.heap[c].TicketOf(side)
          && r'.server.heap[c].At(side) == r.server.heap[c].At(side);
    assert forall k, c, side: bool :: Entitles(r, k, c, side) <==> Entitles(r', k, c, side);
  }

  /** A step that sets no side, starts no splice and closes no channel. */
  lemma QuietSpliced(r: Relay, r': Relay)
    requires SplicedOnce(r)
    requires r'.server.heap.Keys == r.server.heap.Keys
    requires forall c | c in r.server.heap ::
               && SameSides(r.server.heap[c], r'.server.heap[c])
               && r'.server.heap[c].started == r.server.heap[c].started
                  && r'.server.heap[c].done == r.server.heap[c].done
    requires QuietThreads(r, r')
    ensures SplicedOnce(r')
  {
    forall t, c | t in r'.threads && Copies(r'.threads[t], c)
      ensures t in r.threads && Copies(r.threads[t], c)
    {
    }
  }

  /** Issuing adds a circuit with two new tickets and touches nothing else. */
  lemma IssueRights(r: Relay, t: ThreadId, c: CircuitId, a: string, b: string)
    requires Rights(r) && t in r.threads && r.threads[t].Pairing?
    requires c !in r.server.heap && a !in r.tickets && b !in r.tickets && a != b
    ensures Rights(StepIssue(r, t, c, a, b))
  {
    var r' := StepIssue(r, t, c, a, b);
    assert forall k, side: bool | k in r.server.heap ::
        r'.server.heap[k].TicketOf(side) == r.server.heap[k].TicketOf(side)
          && r'.server.heap[k].At(side) == r.server.heap[k].At(side);
    assert r'.server.heap[c].TicketOf(false) == a && r'.server.heap[c].TicketOf(true) == b;
    assert TicketsBelong(r');
    IssueHeld(r, t, c, a, b);
    IssueSpliced(r, t, c, a, b);
  }

  lemma IssueHeld(r: Relay, t: ThreadId, c: CircuitId, a: string, b: string)
    requires Rights(r) && t in r.threads && r.threads[t].Pairing?
    requires c !in r.server.heap && a !in r.tickets && b !in r.tickets && a != b
    ensures RightsHeldOnce(StepIssue(r, t, c, a, b))
  {
    hide SplicedOnce;
    var r' := StepIssue(r, t, c, a, b);
    forall k | k in r'.server.tickets
      ensures Entitles(r', k, r'.server.tickets[k].circuit, r'.server.tickets[k].side)
    {
      if k != a && k != b {
        assert Entitles(r, k, r.server.tickets[k].circuit, r.server.tickets[k].side);
      }
    }
    forall u | u in r'.threads && r'.threads[u].Redeemed?
      ensures Entitles(r', r'.threads[u].half.ticket, r'.threads[u].circuit, r'.threads[u].side)
              && r'.threads[u].half.ticket !in r'.server.tickets
    {
      assert r'.threads[u] == r.threads[u];
      assert Entitles(r, r.threads[u].half.ticket, r.threads[u].circuit, r.threads[u].side);
      assert r.server.heap[r.threads[u].circuit].TicketOf(r.threads[u].side) in r.tickets;
    }
  }

  lemma IssueSpliced(r: Relay, t: ThreadId, c: CircuitId, a: string, b: string)
    requires SplicedOnce(r) && t in r.threads && r.threads[t].Pairing? && c !in r.server.heap
    ensures SplicedOnce(StepIssue(r, t, c, a, b))
  {
    SameCopiers(r, StepIssue(r, t, c, a, b), t);
  }

  /** Only thread t changed, and it copies neither before nor after. */
  lemma SameCopiers(r: Relay, r': Relay, t: ThreadId)
    requires forall u | u in r'.threads && u != t :: u in r.threads && r'.threads[u] == r.threads[u]
    requires t in r'.threads ==> !(r'.threads[t].Splicing? || r'.threads[t].Finishing?)
    ensures forall u, c | u in r'.threads && Copies(r'.threads[u], c) :: u in r.threads && Copies(r.threads[u], c)
  {
  }

  lemma RedeemRights(r: Relay, t: ThreadId, ticket: string, conn: ConnId)
    requires Rights(r) && t !in r.threads
    ensures Rights(StepRedeem(r, t, ticket, conn))
  {
    var r' := StepRedeem(r, t, ticket, conn);
    assert TicketsBelong(r');
    SameCopiers(r, r', t);
    assert SplicedOnce(r');
    RedeemHeld(r, t, ticket, conn);
  }

  lemma RedeemHeld(r: Relay, t: ThreadId, ticket: string, conn: ConnId)
    requires Rights(r) && t !in r.threads
    ensures RightsHeldOnce(StepRedeem(r, t, ticket, conn))
  {
    hide SplicedOnce, TicketsBelong;
  }

  /** Attaching fills a side that was empty, with the connection whose ticket was issued for it. */
  lemma AttachRights(r: Relay, t: ThreadId)
    requires Rights(r) && t in r.threads && r.threads[t].Redeemed?
    ensures var x := r.threads[t];
            && x.circuit in r.server.heap && r.server.heap[x.circuit].At(x.side).None?
            && x.half.ticket == r.server.heap[x.circuit].TicketOf(x.side)
            && Rights(StepAttach(r, t, x.circuit, x.side, x.half))
  {
    var x := r.threads[t];
    assert Entitles(r, x.half.ticket, x.circuit, x.side);
    AttachBelong(r, t);
    AttachHeld(r, t);
    AttachSpliced(r, t);
  }

  lemma AttachFrame(r: Relay, t: ThreadId, c: CircuitId, side: bool)
    requires t in r.threads && r.threads[t].Redeemed? && r.threads[t].circuit in r.server.heap
    ensures var x := r.threads[t];
            var r' := StepAttach(r, t, x.circuit, x.side, x.half);
            && r'.server.heap.Keys == r.server.heap.Keys
            && (c in r.server.heap ==>
                  && r'.server.heap[c].TicketOf(side) == r.server.heap[c].TicketOf(side)
                  && r'.server.heap[c].At(side) ==
                       if c == x.circuit && side == x.side then Some(x.half) else r.server.heap[c].At(side))
  {
  }

  lemma AttachBelong(r: Relay, t: ThreadId)
    requires Rights(r) && t in r.threads && r.threads[t].Redeemed?
    ensures var x := r.threads[t]; TicketsBelong(StepAttach(r, t, x.circuit, x.side, x.half))
  {
    hide SplicedOnce, StepAttach;
    var x := r.threads[t];
    assert Entitles(r, x.half.ticket, x.circuit, x.side);
    var r' := StepAttach(r, t, x.circuit, x.side, x.half);
    forall c, side: bool
      ensures c in r'.server.heap ==>
                && c in r.server.heap && r'.server.heap[c].TicketOf(side) == r.server.heap[c].TicketOf(side)
                && (r'.server.heap[c].At(side).Some? ==>
                      r'.server.heap[c].At(side).value.ticket == r.server.heap[c].TicketOf(side))
    {
      AttachFrame(r, t, c, side);
    }
    assert r'.tickets == r.tickets by { AttachKeeps(r, t); }
  }

  lemma AttachKeeps(r: Relay, t: ThreadId)
    requires t in r.threads && r.threads[t].Redeemed? && r.threads[t].circuit in r.server.heap
    ensures var x := r.threads[t];
            var r' := StepAttach(r, t, x.circuit, x.side, x.half);
            && r'.tickets == r.tickets && r'.server.tickets == r.server.tickets
            && r'.threads.Keys == r.threads.Keys && !r'.threads[t].Redeemed?
            && forall u | u in r.threads && u != t :: r'.threads[u] == r.threads[u]
  {
  }

  lemma AttachHeld(r: Relay, t: ThreadId)
    requires Rights(r) && t in r.threads && r.threads[t].Redeemed?
    ensures var x := r.threads[t]; RightsHeldOnce(StepAttach(r, t, x.circuit, x.side, x.half))
  {
    hide SplicedOnce, StepAttach;
    var x := r.threads[t];
    assert Entitles(r, x.half.ticket, x.circuit, x.side);
    var r' := StepAttach(r, t, x.circuit, x.side, x.half);
    AttachKeeps(r, t);
    forall k, c, side: bool | Entitles(r, k, c, side) && k != x.half.ticket
      ensures Entitles(r', k, c, side)
    {
      AttachFrame(r, t, c, side);
    }
  }

  lemma AttachSpliced(r: Relay, t: ThreadId)
    requires Rights(r) && t in r.threads && r.threads[t].Redeemed?
    ensures var x := r.threads[t]; SplicedOnce(StepAttach(r, t, x.circuit, x.side, x.half))
  {
    hide TicketsBelong;
    var x := r.threads[t];
    assert Entitles(r, x.half.ticket, x.circuit, x.side);
    var r' := StepAttach(r, t, x.circuit, x.side, x.half);
    forall u, c | u in r'.threads && Copies(r'.threads[u], c) && u != t
      ensures u in r.threads && Copies(r.threads[u], c)
    {
    }
  }

  lemma CloseRights(l: Limits, r: Relay, e: Event)
    requires Rights(r) && e.CloseDoneChannel? && Enabled(l, r, e)
    ensures Rights(Step(l, r, e))
  {
    hide TicketsBelong, RightsHeldOnce, SplicedOnce;
    var r' := Step(l, r, e);
    QuietOwned(r, r');
    CloseSpliced(l, r, e);
  }

  lemma CloseSpliced(l: Limits, r: Relay, e: Event)
    requires SplicedOnce(r) && e.CloseDoneChannel? && Enabled(l, r, e)
    ensures SplicedOnce(Step(l, r, e))
  {
    assert Copies(r.threads[e.thread], r.threads[e.thread].circuit);
    SameCopiers(r, Step(l, r, e), e.thread);
  }

  lemma OtherRights(l: Limits, r: Relay, e: Event)
    requires Rights(r) && Enabled(l, r, e)
    requires CodeEvent(e) || LeaveEvent(e) || e.ClaimCode? || e.TicketsFail?
    ensures Rights(Step(l, r, e))
  {
    hide TicketsBelong, RightsHeldOnce, SplicedOnce;
    QuietOwned(r, Step(l, r, e));
    QuietSpliced(r, Step(l, r, e));
  }

  lemma ReleaseFrame(r: Relay, c: CircuitId)
    ensures var r' := Release(r, c);
            && r'.tickets == r.tickets && r'.server.tickets == r.server.tickets && r'.threads == r.threads
            && r'.server.heap.Keys == r.server.heap.Keys
            && forall k | k in r.server.heap ::
                 && SameSides(r.server.heap[k], r'.server.heap[k])
                 && r'.server.heap[k].started == r.server.heap[k].started
                    && r'.server.heap[k].done == r.server.heap[k].done
  {
  }

  lemma ReturnRights(l: Limits, r: Relay, e: Event)
    requires Rights(r) && Enabled(l, r, e) && ReleaseEvent(e)
    ensures Rights(Step(l, r, e))
  {
    hide TicketsBelong, RightsHeldOnce, SplicedOnce, Release, SameSides;
    ReleaseFrame(r, r.threads[e.thread].circuit);
    QuietOwned(r, Step(l, r, e));
    QuietSpliced(r, Step(l, r, e));
  }

  lemma StepRights(l: Limits, r: Relay, e: Event)
    requires Rights(r) && Enabled(l, r, e)
    ensures Rights(Step(l, r, e))
  {
    if CodeEvent(e) || LeaveEvent(e) || e.ClaimCode? || e.TicketsFail? {
      hide Step, Rights;
      OtherRights(l, r, e);
    } else if ReleaseEvent(e) {
      hide Step, Rights;
      ReturnRights(l, r, e);
    } else if e.CloseDoneChannel? {
      hide Step, Rights;
      CloseRights(l, r, e);
    } else if e.Issue? {
      hide Rights;
      IssueRights(r, e.thread, e.circuit, e.a, e.b);
    } else if e.RedeemTicket? {
      hide Rights;
      RedeemRights(r, e.thread, e.ticket, e.conn);
    } else {
      hide Rights;
      AttachRights(r, e.thread);
    }
  }

  // ---- Invite codes ----

  /** Codes are few, each publication is pending or claimed at most once, and none was overdue at the last sweep. */
  ghost predicate Codes(l: Limits, r: Relay) {
    && |r.server.pending| <= AtLeastZero(l.maxPendingCodes)
    && r.lastSweep <= r.now
    && (forall rid | rid in r.server.pending ::
          && r.server.pending[rid].publication < r.publications
          && r.lastSweep - r.server.pending[rid].created <= AtLeastZero(l.codeTTL))
    && (forall rid, rid' | rid in r.server.pending && rid' in r.server.pending
          && r.server.pending[rid].publication == r.server.pending[rid'].publication :: rid == rid')
    && (forall i, rid | 0 <= i < |r.claims| && rid in r.server.pending ::
          r.claims[i].publication != r.server.pending[rid].publication)
    && Claims(l, r)
  }

  ghost predicate Claims(l: Limits, r: Relay) {
    && (forall i | 0 <= i < |r.claims| ::
          && r.claims[i].publication < r.publications
          && r.claims[i].publisher != r.claims[i].claimer
          && r.claims[i].age <= AtLeastZero(l.codeTTL) + r.claims[i].unswept)
    && (forall i, j | 0 <= i < j < |r.claims| :: r.claims[i].publication != r.claims[j].publication)
  }

  lemma StepCodes(l: Limits, r: Relay, e: Event)
    requires Codes(l, r) && Enabled(l, r, e)
    ensures Codes(l, Step(l, r, e))
  {
    hide Codes;
    if e.Publish? {
      PublishCodes(l, r, e);
    } else if e.Sweep? || e.Unpublish? || e.Tick? {
      FewerCodes(l, r, e);
    } else if e.ClaimCode? {
      ClaimCodes(l, r, e.thread, e.rid, e.claimer);
    } else {
      hide Step;
      OtherCodes(l, r, e);
      SameCodes(l, r, Step(l, r, e));
    }
  }

  ghost predicate CodesUntouched(r: Relay, r': Relay) {
    && r'.server.pending == r.server.pending && r'.claims == r.claims
    && r'.now == r.now && r'.lastSweep == r.lastSweep && r'.publications == r.publications
  }

  lemma ReleaseUntouched(r: Relay, c: CircuitId)
    ensures CodesUntouched(r, Release(r, c))
  {
  }

  lemma OtherCodes(l: Limits, r: Relay, e: Event)
    requires !CodeEvent(e) && !e.ClaimCode?
    ensures CodesUntouched(r, Step(l, r, e))
  {
    if Enabled(l, r, e) && ReleaseEvent(e) {
      ReleaseUntouched(r, r.threads[e.thread].circuit);
    }
    hide Release;
  }

  lemma SameCodes(l: Limits, r: Relay, r': Relay)
    requires Codes(l, r) && CodesUntouched(r, r')
    ensures Codes(l, r')
  {
  }

  lemma ClaimsMore(l: Limits, r: Relay, r': Relay)
    requires Claims(l, r) && r'.claims == r.claims && r'.publications >= r.publications
    ensures Claims(l, r')
  {
  }

  lemma PublishCodes(l: Limits, r: Relay, e: Event)
    requires Codes(l, r) && e.Publish?
    ensures Codes(l, Step(l, r, e))
  {
    hide Claims;
    var r' := Step(l, r, e);
    ClaimsMore(l, r, r');
    assert forall i | 0 <= i < |r.claims| :: r.claims[i].publication < r.publications by { ClaimsKnown(l, r); }
    if |r.server.pending| < l.maxPendingCodes {
      OneMore(r.server.pending, e.rid, r'.server.pending[e.rid]);
    }
  }

  lemma ClaimsKnown(l: Limits, r: Relay)
    requires Claims(l, r)
    ensures forall i | 0 <= i < |r.claims| :: r.claims[i].publication < r.publications
  {
  }

  lemma OneMore(m: map<string, Pending>, rid: string, p: Pending)
    ensures |m[rid := p]| <= |m| + 1
  {
    var m' := m[rid := p];
    assert m'.Keys == m.Keys + {rid};
    assert |m'| == |m'.Keys| && |m| == |m.Keys|;
  }

  lemma Fewer(m: map<string, Pending>, m': map<string, Pending>)
    requires m'.Keys <= m.Keys
    ensures |m'| <= |m|
  {
    SubsetSize(m'.Keys, m.Keys);
    assert |m| == |m.Keys| && |m'| == |m'.Keys|;
  }

  lemma {:induction false} SubsetSize<T>(a: set<T>, b: set<T>)
    requires a <= b
    ensures |a| <= |b|
  {
    if a == {} {
    } else {
      var x :| x in a;
      SubsetSize(a - {x}, b - {x});
    }
  }

  lemma FewerCodes(l: Limits, r: Relay, e: Event)
    requires Codes(l, r) && Enabled(l, r, e) && (e.Sweep? || e.Unpublish? || e.Tick?)
    ensures Codes(l, Step(l, r, e))
  {
    assert r.lastSweep <= r.now;
    hide Codes;
    if e.Sweep? {
      SweepCodes(l, r);
    } else {
      CodesShrink(l, r, Step(l, r, e));
    }
  }

  /** Codes went, and none of those left was overdue at the last sweep. */
  ghost predicate Shrunk(l: Limits, r: Relay, r': Relay) {
    && r'.claims == r.claims && r'.publications == r.publications && r.lastSweep <= r'.lastSweep <= r'.now
    && (forall rid | rid in r'.server.pending ::
          && rid in r.server.pending && r'.server.pending[rid] == r.server.pending[rid]
          && (r'.lastSweep == r.lastSweep || r'.lastSweep - r'.server.pending[rid].created <= AtLeastZero(l.codeTTL)))
  }

  lemma CodesShrink(l: Limits, r: Relay, r': Relay)
    requires Codes(l, r) && Shrunk(l, r, r')
    ensures Codes(l, r')
  {
    hide Claims;
    ClaimsMore(l, r, r');
    Fewer(r.server.pending, r'.server.pending);
  }

  lemma SweepCodes(l: Limits, r: Relay)
    requires Codes(l, r)
    ensures Codes(l, Step(l, r, Sweep))
  {
    assert r.lastSweep <= r.now;
    hide Codes;
    CodesShrink(l, r, Step(l, r, Sweep));
  }

  lemma ClaimCodes(l: Limits, r: Relay, t: ThreadId, rid: string, claimer: ConnId)
    requires Codes(l, r)
    ensures Codes(l, StepClaim(l, r, t, rid, claimer))
  {
    hide Claims;
    var r' := StepClaim(l, r, t, rid, claimer);
    Fewer(r.server.pending, r'.server.pending);
    ClaimRecorded(l, r, t, rid, claimer);
  }

  lemma ClaimRecorded(l: Limits, r: Relay, t: ThreadId, rid: string, claimer: ConnId)
    requires Codes(l, r)
    ensures Claims(l, StepClaim(l, r, t, rid, claimer))
  {
  }

  // ---- The theorems ----

  ghost predicate Inv(l: Limits, r: Relay) {
    Slots(l, r) && Rights(r) && Codes(l, r)
  }

  lemma {:induction false} RunKeeps(l: Limits, now: Time, es: seq<Event>)
    ensures Inv(l, Run(l, now, es))
  {
    if es == [] {
      assert OpenCircuits(Start(now)) == {} && PairingThreads(Start(now)) == {};
    } else {
      var front, e := es[..|es| - 1], es[|es| - 1];
      RunKeeps(l, now, front);
      StepKeeps(l, Run(l, now, front), e);
    }
  }

  lemma StepKeeps(l: Limits, r: Relay, e: Event)
    requires Inv(l, r)
    ensures Inv(l, Step(l, r, e))
  {
    if Enabled(l, r, e) {
      hide Step, Codes, Slots;
      TicketCircuits(r);
      StepSlots(l, r, e);
      StepRights(l, r, e);
      StepCodes(l, r, e);
    }
  }

  lemma TicketCircuits(r: Relay)
    requires Rights(r)
    ensures forall k | k in r.server.tickets :: r.server.tickets[k].circuit in r.server.heap
  {
    assert forall k | k in r.server.tickets :: Entitles(r, k, r.server.tickets[k].circuit, r.server.tickets[k].side);
  }

  /** The slot counter is slots taken less slots returned, and within its limit, in every interleaving. */
  lemma SlotsAccounted(l: Limits, now: Time, es: seq<Event>)
    ensures var r := Run(l, now, es);
            r.server.circuits == r.taken - r.released && 0 <= r.server.circuits <= AtLeastZero(l.maxCircuits)
  {
    RunKeeps(l, now, es);
  }

  /** Whenever a slot is returned the counter is positive, so the guard on the decrement never hides an error. */
  lemma GuardNeverHides(l: Limits, now: Time, es: seq<Event>, e: Event)
    requires Enabled(l, Run(l, now, es), e) && (e.TicketsFail? || ReleaseEvent(e))
    ensures var r := Run(l, now, es);
            && (e.TicketsFail? ==> r.server.circuits > 0)
            && (ReleaseEvent(e) ==> r.threads[e.thread].circuit in r.server.heap
                                    && (!r.server.heap[r.threads[e.thread].circuit].released ==> r.server.circuits > 0))
  {
    RunKeeps(l, now, es);
    var r := Run(l, now, es);
    if e.TicketsFail? {
      FailSlots(l, r, e.thread);
    } else {
      ReturnSlots(l, r, e);
    }
  }

  /** A circuit being copied has both its halves, brought by the two different tickets of its pairing. */
  lemma SplicedWhole(l: Limits, now: Time, es: seq<Event>, t: ThreadId)
    requires t in Run(l, now, es).threads && Run(l, now, es).threads[t].Splicing?
    ensures var r := Run(l, now, es);
            var c := r.threads[t].circuit;
            && c in r.server.heap && r.server.heap[c].left.Some? && r.server.heap[c].right.Some?
            && r.server.heap[c].left.value.ticket == r.server.heap[c].leftTicket
            && r.server.heap[c].right.value.ticket == r.server.heap[c].rightTicket
            && r.server.heap[c].leftTicket != r.server.heap[c].rightTicket
  {
    RunKeeps(l, now, es);
    var r := Run(l, now, es);
    var c := r.threads[t].circuit;
    assert Copies(r.threads[t], c);
    var k := r.server.heap[c];
    assert k.At(false) == k.left && k.At(true) == k.right && k.TicketOf(false) == k.leftTicket
           && k.TicketOf(true) == k.rightTicket;
  }

  /**
   Pending codes stay within their limit; each publication is claimed at most once, never by
   its publisher, and never older than the TTL by more than the time since the last sweep.
   */
  lemma CodesClaimedOnce(l: Limits, now: Time, es: seq<Event>)
    ensures var r := Run(l, now, es);
            && |r.server.pending| <= AtLeastZero(l.maxPendingCodes)
            && (forall i, j | 0 <= i < j < |r.claims| :: r.claims[i].publication != r.claims[j].publication)
            && (forall i | 0 <= i < |r.claims| ::
                  && r.claims[i].publisher != r.claims[i].claimer
                  && r.claims[i].age <= AtLeastZero(l.codeTTL) + r.claims[i].unswept)
  {
    RunKeeps(l, now, es);
  }

  /** The reaper keeps time: at no point of the run is the last sweep more than an interval ago. */
  ghost predicate Punctual(l: Limits, now: Time, es: seq<Event>) {
    forall k | 0 <= k <= |es| ::
      var r := Run(l, now, es[..k]); r.now <= r.lastSweep + ReapInterval(l.codeTTL)
  }

  lemma ClaimsUnswept(l: Limits, r: Relay, e: Event)
    requires forall k <- r.claims :: k.unswept <= ReapInterval(l.codeTTL)
    requires r.now <= r.lastSweep + ReapInterval(l.codeTTL)
    ensures forall k <- Step(l, r, e).claims :: k.unswept <= ReapInterval(l.codeTTL)
  {
    hide ReapInterval;
  }

  lemma {:induction false} PunctualClaims(l: Limits, now: Time, es: seq<Event>)
    requires Punctual(l, now, es)
    ensures forall k <- Run(l, now, es).claims :: k.unswept <= ReapInterval(l.codeTTL)
  {
    hide Step, ReapInterval;
    if es == [] {
    } else {
      var front := es[..|es| - 1];
      assert forall k | 0 <= k <= |front| :: front[..k] == es[..k];
      PunctualClaims(l, now, front);
      assert front[..|front|] == front;
      ClaimsUnswept(l, Run(l, now, front), es[|es| - 1]);
    }
  }

  /** With a punctual reaper no claimed code is older than the TTL by more than a reap interval. */
  lemma ClaimedInTime(l: Limits, now: Time, es: seq<Event>)
    requires Punctual(l, now, es)
    ensures forall k <- Run(l, now, es).claims :: k.age <= AtLeastZero(l.codeTTL) + ReapInterval(l.codeTTL)
  {
    hide Run, ReapInterval;
    CodesClaimedOnce(l, now, es);
    PunctualClaims(l, now, es);
  }

  lemma PublishFirst(l: Limits)
    requires l.maxPendingCodes > 0
    ensures Step(l, Start(0), Publish("code", 1, "", "")) ==
              Start(0).(server := EMPTY.(pending := map["code" := Pending(1, "", "", 0, 0)]), publications := 1)
  {
  }

  lemma ClaimAfter(l: Limits, r: Relay, age: Time)
    requires l.maxCircuits > 0 && r.server == EMPTY.(pending := map["code" := Pending(1, "", "", 0, 0)])
    requires age >= r.now == 0 == r.lastSweep && r.claims == [] && r.threads == map[]
    ensures Step(l, Step(l, r, Tick(age)), ClaimCode(0, "code", 2)).claims == [Claim(0, 1, 2, age, age)]
  {
  }

  /** Without sweeps a code can be claimed at any age. */
  lemma AnyAge(l: Limits, age: Time)
    requires age >= 0 && l.maxPendingCodes > 0 && l.maxCircuits > 0
    ensures Run(l, 0, [Publish("code", 1, "", ""), Tick(age), ClaimCode(0, "code", 2)]).claims ==
              [Claim(0, 1, 2, age, age)]
  {
    hide Run, Step;
    var a, b, c := Publish("code", 1, "", ""), Tick(age), ClaimCode(0, "code", 2);
    RunNone(l, 0);
    RunOne(l, 0, [], a);
    RunOne(l, 0, [a], b);
    RunOne(l, 0, [a, b], c);
    assert [] + [a] == [a] && [a] + [b] == [a, b] && [a, b] + [c] == [a, b, c];
    PublishFirst(l);
    ClaimAfter(l, Run(l, 0, [a]), age);
  }

  /**
   The only ends of a publication: another connection claims it and gets a slot, its own
   connection withdraws it, the code is published again, or a sweep finds it overdue.
   */
  predicate Displaces(l: Limits, r: Relay, e: Event, rid: string)
    requires rid in r.server.pending
  {
    match e
    case ClaimCode(t, rid', claimer) =>
      rid' == rid && claimer != r.server.pending[rid].conn && t !in r.threads && r.server.circuits < l.maxCircuits
    case Unpublish(rid', conn) => rid' == rid && conn == r.server.pending[rid].conn
    case Publish(rid', _, _, _) => rid' == rid && |r.server.pending| < l.maxPendingCodes
    case Sweep => r.now - r.server.pending[rid].created > l.codeTTL
    case _ => false
  }

  predicate PendingAs(r: Relay, rid: string, p: Pending) {
    rid in r.server.pending && r.server.pending[rid] == p
  }

  lemma StaysPending(l: Limits, r: Relay, e: Event, rid: string)
    requires rid in r.server.pending && r.server.pending[rid].publication < r.publications
    ensures PendingAs(Step(l, r, e), rid, r.server.pending[rid]) <==> !Displaces(l, r, e, rid)
  {
  }

  /** After any run, a publication survives the next event exactly when that is none of its ends. */
  lemma PublicationEndsIff(l: Limits, now: Time, es: seq<Event>, e: Event, rid: string)
    requires rid in Run(l, now, es).server.pending
    ensures var r := Run(l, now, es);
            PendingAs(Run(l, now, es + [e]), rid, r.server.pending[rid]) <==> !Displaces(l, r, e, rid)
  {
    hide Step, Run, Displaces, Slots, Rights, Claims;
    RunKeeps(l, now, es);
    RunOne(l, now, es, e);
    StaysPending(l, Run(l, now, es), e, rid);
  }

  /** A publication stays, unchanged, through any continuation that never holds one of its ends. */
  lemma {:induction false} PublicationStays(l: Limits, now: Time, es: seq<Event>, fs: seq<Event>, rid: string)
    requires rid in Run(l, now, es).server.pending
    requires forall k | 0 <= k < |fs| ::
               var r := Run(l, now, es + fs[..k]); rid in r.server.pending ==> !Displaces(l, r, fs[k], rid)
    ensures PendingAs(Run(l, now, es + fs), rid, Run(l, now, es).server.pending[rid])
  {
    hide Run, Displaces;
    if fs == [] {
      assert es + fs == es;
    } else {
      var front, e := fs[..|fs| - 1], fs[|fs| - 1];
      assert forall k | 0 <= k < |front| :: front[..k] == fs[..k];
      PublicationStays(l, now, es, front, rid);
      PublicationEndsIff(l, now, es + front, e, rid);
      assert es + fs == es + front + [e];
    }
  }

  // ---- Where codes and tickets come from, and how long they live ----

  /** Event i of the run published the code p, at the run's clock then. */
  ghost predicate PublishedBy(l: Limits, now: Time, es: seq<Event>, i: nat, rid: string, p: Pending)
    requires i < |es|
  {
    var r := Run(l, now, es[..i]);
    es[i] == Publish(rid, p.conn, p.sealed, p.observed) && p.created == r.now && p.publication == r.publications
  }

  lemma StillPublished(l: Limits, r: Relay, e: Event, rid: string)
    requires rid in Step(l, r, e).server.pending
    ensures || (rid in r.server.pending && Step(l, r, e).server.pending[rid] == r.server.pending[rid])
            || (var p := Step(l, r, e).server.pending[rid];
                && e == Publish(rid, p.conn, p.sealed, p.observed)
                && p.created == r.now && p.publication == r.publications)
  {
    if !CodeEvent(e) && !e.ClaimCode? {
      hide Step;
      OtherCodes(l, r, e);
    }
  }

  /** After any run, a pending code is just what some event of the run published, dated by the clock of that event. */
  lemma {:induction false} PendingTold(l: Limits, now: Time, es: seq<Event>, rid: string)
    requires rid in Run(l, now, es).server.pending
    ensures exists i: nat | i < |es| :: PublishedBy(l, now, es, i, rid, Run(l, now, es).server.pending[rid])
  {
    hide Step;
    var n := |es| - 1;
    var front, p := es[..n], Run(l, now, es).server.pending[rid];
    StillPublished(l, Run(l, now, front), es[n], rid);
    if rid in Run(l, now, front).server.pending && Run(l, now, front).server.pending[rid] == p {
      PendingTold(l, now, front, rid);
      var i: nat :| i < |front| && PublishedBy(l, now, front, i, rid, p);
      assert front[..i] == es[..i];
      assert PublishedBy(l, now, es, i, rid, p);
    } else {
      assert PublishedBy(l, now, es, n, rid, p);
    }
  }

  /** Circuit c was created at that time with these tickets. */
  ghost predicate Created(r: Relay, c: CircuitId, at: Time, a: string, b: string) {
    && c in r.server.heap && r.server.heap[c].created == at
    && r.server.heap[c].leftTicket == a && r.server.heap[c].rightTicket == b
  }

  lemma CreatedStays(l: Limits, r: Relay, e: Event, c: CircuitId, at: Time, a: string, b: string)
    requires Created(r, c, at, a, b)
    ensures Created(Step(l, r, e), c, at, a, b)
  {
    hide Step;
    if e.Issue? && Enabled(l, r, e) {
      IssueHeap(l, r, e);
    } else if e.Issue? {
      DisabledStep(l, r, e);
    } else if e.AttachHalf? {
      AttachOrigins(l, r, e);
    } else if e.CloseDoneChannel? {
      CloseOrigins(l, r, e);
    } else if ReleaseEvent(e) {
      ReleaseOrigins(l, r, e);
    } else {
      SameHeap(l, r, e);
    }
  }

  lemma DisabledStep(l: Limits, r: Relay, e: Event)
    requires !Enabled(l, r, e)
    ensures Step(l, r, e) == r
  {
  }

  /** Every circuit is still there, with the time and the tickets it was created with. */
  ghost predicate SameOrigins(r: Relay, r': Relay) {
    forall c | c in r.server.heap ::
      && c in r'.server.heap && r'.server.heap[c].created == r.server.heap[c].created
      && r'.server.heap[c].leftTicket == r.server.heap[c].leftTicket
      && r'.server.heap[c].rightTicket == r.server.heap[c].rightTicket
  }

  lemma AttachOrigins(l: Limits, r: Relay, e: Event)
    requires e.AttachHalf?
    ensures SameOrigins(r, Step(l, r, e))
  {
  }

  lemma CloseOrigins(l: Limits, r: Relay, e: Event)
    requires e.CloseDoneChannel?
    ensures SameOrigins(r, Step(l, r, e))
  {
  }

  lemma ReleaseOrigins(l: Limits, r: Relay, e: Event)
    requires ReleaseEvent(e)
    ensures SameOrigins(r, Step(l, r, e))
  {
    if Enabled(l, r, e) {
      ReleasedOrigins(r, r.threads[e.thread].circuit);
    }
    hide Release;
  }

  lemma ReleasedOrigins(r: Relay, c: CircuitId)
    ensures SameOrigins(r, Release(r, c))
  {
  }

  /** Event i of the run issued the tickets, with circuit c. */
  ghost predicate IssuedBy(l: Limits, now: Time, es: seq<Event>, i: nat)
    requires i < |es|
  {
    es[i].Issue? && Enabled(l, Run(l, now, es[..i]), es[i])
  }

  lemma {:induction false} IssuedCreated(l: Limits, now: Time, es: seq<Event>, i: nat)
    requires i < |es| && IssuedBy(l, now, es, i)
    ensures Created(Run(l, now, es), es[i].circuit, Run(l, now, es[..i]).now, es[i].a, es[i].b)
  {
    var n := |es| - 1;
    var front := es[..n];
    if i == n {
      hide Created;
      IssueCreates(l, Run(l, now, front), es[n]);
    } else {
      hide Step, Created;
      assert front[..i] == es[..i];
      IssuedCreated(l, now, front, i);
      CreatedStays(l, Run(l, now, front), es[n], es[i].circuit, Run(l, now, es[..i]).now, es[i].a, es[i].b);
    }
  }

  lemma IssueCreates(l: Limits, r: Relay, e: Event)
    requires e.Issue? && Enabled(l, r, e)
    ensures Created(Step(l, r, e), e.circuit, r.now, e.a, e.b)
  {
  }

  /** The only ends of a ticket: its redemption, the failed announcement of its pairing, a sweep past the TTL. */
  predicate EndsTicket(l: Limits, r: Relay, e: Event, ticket: string, c: CircuitId, issued: Time) {
    match e
    case RedeemTicket(t, k, _) => k == ticket && t !in r.threads
    case AnnounceFails(t) => t in r.threads && r.threads[t] == Issued(c)
    case Sweep => r.now - issued > l.codeTTL
    case _ => false
  }

  lemma TicketLeads(l: Limits, r: Relay, c: CircuitId, at: Time, a: string, b: string, ticket: string)
    requires Inv(l, r) && Created(r, c, at, a, b) && ticket in r.server.tickets && ticket in {a, b}
    ensures r.server.tickets[ticket].circuit == c
  {
    hide Slots, Codes, SplicedOnce;
    var ref := r.server.tickets[ticket];
    assert Entitles(r, ticket, ref.circuit, ref.side);
    var k := r.server.heap[c];
    assert k.TicketOf(false) == a && k.TicketOf(true) == b;
  }

  lemma TicketStep(l: Limits, r: Relay, e: Event, c: CircuitId, at: Time, a: string, b: string, ticket: string)
    requires Created(r, c, at, a, b) && ticket in r.server.tickets && ticket in {a, b}
    requires r.server.tickets[ticket].circuit == c
    requires forall t | t in r.threads && r.threads[t].Issued? :: OnlyTickets(r, r.threads[t].circuit)
    ensures ticket in Step(l, r, e).server.tickets <==> !EndsTicket(l, r, e, ticket, c, at)
  {
    hide Step;
    if !Enabled(l, r, e) {
      DisabledStep(l, r, e);
    } else if e.AnnounceFails? {
      assert OnlyTickets(r, r.threads[e.thread].circuit);
      AnnounceDrops(l, r, e);
    } else if e.RedeemTicket? {
      RedeemSpends(l, r, e);
    } else if e.Sweep? {
      SweepKeeps(l, r, ticket);
    } else {
      TicketsLeft(l, r, e);
    }
  }

  lemma AnnounceDrops(l: Limits, r: Relay, e: Event)
    requires e.AnnounceFails? && Enabled(l, r, e) && r.threads[e.thread].circuit in r.server.heap
    ensures var x := r.server.heap[r.threads[e.thread].circuit];
            Step(l, r, e).server.tickets == r.server.tickets - {x.leftTicket, x.rightTicket}
  {
  }

  lemma RedeemSpends(l: Limits, r: Relay, e: Event)
    requires e.RedeemTicket? && Enabled(l, r, e)
    ensures Step(l, r, e).server.tickets == r.server.tickets - {e.ticket}
  {
  }

  lemma SweepKeeps(l: Limits, r: Relay, ticket: string)
    requires ticket in r.server.tickets && r.server.tickets[ticket].circuit in r.server.heap
    ensures ticket in Step(l, r, Sweep).server.tickets <==>
              r.now - r.server.heap[r.server.tickets[ticket].circuit].created <= l.codeTTL
  {
  }

  lemma TicketsLeft(l: Limits, r: Relay, e: Event)
    requires !e.AnnounceFails? && !e.RedeemTicket? && !e.Sweep?
    ensures r.server.tickets.Keys <= Step(l, r, e).server.tickets.Keys
  {
    if e.AttachHalf? {
      hide Release;
    } else if ReleaseEvent(e) && Enabled(l, r, e) {
      ReleaseFrame(r, r.threads[e.thread].circuit);
      hide Release;
    }
  }

  /** The circuit exists, and a ticket that leads elsewhere is not one of its two. */
  ghost predicate OnlyTickets(r: Relay, c: CircuitId) {
    c in r.server.heap && forall k | k in r.server.tickets && r.server.tickets[k].circuit != c ::
      k != r.server.heap[c].leftTicket && k != r.server.heap[c].rightTicket
  }

  lemma IssuedOnly(l: Limits, r: Relay, t: ThreadId)
    requires Inv(l, r) && t in r.threads && r.threads[t].Issued?
    ensures OnlyTickets(r, r.threads[t].circuit)
  {
    hide Codes, SplicedOnce;
    var c := r.threads[t].circuit;
    var x := r.server.heap[c];
    assert x.TicketOf(false) == x.leftTicket && x.TicketOf(true) == x.rightTicket;
    forall k | k in r.server.tickets && r.server.tickets[k].circuit != c
      ensures k != x.leftTicket && k != x.rightTicket
    {
      assert Entitles(r, k, r.server.tickets[k].circuit, r.server.tickets[k].side);
    }
  }

  /**
   After any run, an unspent ticket survives the next event exactly when that does not redeem it,
   is not the failed announcement of its pairing, and is no sweep later than its issue by more
   than the TTL. The time of its issue is the run's clock at the event that issued it.
   */
  lemma TicketEndsIff(l: Limits, now: Time, es: seq<Event>, i: nat, e: Event, ticket: string)
    requires i < |es| && IssuedBy(l, now, es, i) && ticket in {es[i].a, es[i].b}
    requires ticket in Run(l, now, es).server.tickets
    ensures ticket in Run(l, now, es + [e]).server.tickets <==>
              !EndsTicket(l, Run(l, now, es), e, ticket, es[i].circuit, Run(l, now, es[..i]).now)
  {
    hide Step, Run, EndsTicket, Inv, Created, OnlyTickets;
    var r, c, at := Run(l, now, es), es[i].circuit, Run(l, now, es[..i]).now;
    RunKeeps(l, now, es);
    IssuedCreated(l, now, es, i);
    TicketLeads(l, r, c, at, es[i].a, es[i].b, ticket);
    forall t | t in r.threads && r.threads[t].Issued?
      ensures OnlyTickets(r, r.threads[t].circuit)
    {
      IssuedOnly(l, r, t);
    }
    TicketStep(l, r, e, c, at, es[i].a, es[i].b, ticket);
    RunOne(l, now, es, e);
  }

  /** A ticket is there from its issue on, through any continuation that holds none of its ends. */
  lemma {:induction false} TicketStays(l: Limits, now: Time, es: seq<Event>, issue: Event, fs: seq<Event>,
                                       ticket: string)
    requires issue.Issue? && Enabled(l, Run(l, now, es), issue) && ticket in {issue.a, issue.b}
    requires forall k | 0 <= k < |fs| ::
               !EndsTicket(l, Run(l, now, es + [issue] + fs[..k]), fs[k], ticket, issue.circuit, Run(l, now, es).now)
    ensures ticket in Run(l, now, es + [issue] + fs).server.tickets
  {
    hide Run, EndsTicket, Step;
    if fs == [] {
      assert es + [issue] + fs == es + [issue];
      RunOne(l, now, es, issue);
      IssuePuts(l, Run(l, now, es), issue);
    } else {
      var front, e := fs[..|fs| - 1], fs[|fs| - 1];
      assert forall k | 0 <= k < |front| :: front[..k] == fs[..k];
      TicketStays(l, now, es, issue, front, ticket);
      var all := es + [issue] + front;
      assert all[|es|] == issue && all[..|es|] == es;
      TicketEndsIff(l, now, all, |es|, e, ticket);
      assert es + [issue] + fs == all + [e];
    }
  }

  lemma IssuePuts(l: Limits, r: Relay, e: Event)
    requires e.Issue? && Enabled(l, r, e)
    ensures e.a in Step(l, r, e).server.tickets && e.b in Step(l, r, e).server.tickets
  {
  }

  // ---- Each thing happens at most once per circuit ----

  datatype Once = SideSet(side: bool) | SpliceStarted | DoneClosed | SlotReturned

  /** Whether it has happened to circuit c. */
  predicate Happened(r: Relay, c: CircuitId, w: Once) {
    c in r.server.heap &&
    match w
    case SideSet(side) => r.server.heap[c].At(side).Some?
    case SpliceStarted => r.server.heap[c].started
    case DoneClosed => r.server.heap[c].done
    case SlotReturned => r.server.heap[c].released
  }

  /** Whether this event makes it happen to circuit c. */
  predicate Happens(l: Limits, r: Relay, e: Event, c: CircuitId, w: Once) {
    Enabled(l, r, e) &&
    match w
    case SideSet(side) => e.AttachHalf? && r.threads[e.thread].circuit == c && r.threads[e.thread].side == side
    case SpliceStarted =>
      && e.AttachHalf? && e.thread in Step(l, r, e).threads
      && Step(l, r, e).threads[e.thread] == Splicing(c)
    case DoneClosed => e.CloseDoneChannel? && r.threads[e.thread].circuit == c
    case SlotReturned =>
      && ReleaseEvent(e) && r.threads[e.thread].circuit == c
      && Step(l, r, e).server.circuits < r.server.circuits
  }

  function Times(l: Limits, now: Time, es: seq<Event>, c: CircuitId, w: Once): nat {
    if es == [] then 0
    else
      var front, e := es[..|es| - 1], es[|es| - 1];
      Times(l, now, front, c, w) + if Happens(l, Run(l, now, front), e, c, w) then 1 else 0
  }

  /** When an event makes it happen, it had not happened before; nothing else changes that, and it stays. */
  lemma StepOnce(l: Limits, r: Relay, e: Event, c: CircuitId, w: Once)
    requires Inv(l, r) && Enabled(l, r, e)
    ensures Happens(l, r, e, c, w) ==> !Happened(r, c, w) && Happened(Step(l, r, e), c, w)
    ensures !Happens(l, r, e, c, w) ==> Happened(Step(l, r, e), c, w) == Happened(r, c, w)
  {
    if e.AttachHalf? {
      AttachOnce(l, r, e, c, w);
    } else if e.CloseDoneChannel? {
      assert Copies(r.threads[e.thread], r.threads[e.thread].circuit);
      CloseOnce(l, r, e, c, w);
    } else if ReleaseEvent(e) {
      ReturnOnce(l, r, e, c, w);
    } else {
      OtherOnce(l, r, e, c, w);
    }
  }

  lemma AttachOnce(l: Limits, r: Relay, e: Event, c: CircuitId, w: Once)
    requires Inv(l, r) && Enabled(l, r, e) && e.AttachHalf?
    ensures Happens(l, r, e, c, w) ==> !Happened(r, c, w) && Happened(Step(l, r, e), c, w)
    ensures !Happens(l, r, e, c, w) ==> Happened(Step(l, r, e), c, w) == Happened(r, c, w)
  {
    hide Slots, Rights, Codes;
    AttachRights(r, e.thread);
  }

  lemma CloseOnce(l: Limits, r: Relay, e: Event, c: CircuitId, w: Once)
    requires Enabled(l, r, e) && e.CloseDoneChannel?
    requires r.threads[e.thread].circuit in r.server.heap && !r.server.heap[r.threads[e.thread].circuit].done
    ensures Happens(l, r, e, c, w) ==> !Happened(r, c, w) && Happened(Step(l, r, e), c, w)
    ensures !Happens(l, r, e, c, w) ==> Happened(Step(l, r, e), c, w) == Happened(r, c, w)
  {
  }

  lemma ReturnOnce(l: Limits, r: Relay, e: Event, c: CircuitId, w: Once)
    requires Inv(l, r) && Enabled(l, r, e) && ReleaseEvent(e)
    ensures Happens(l, r, e, c, w) ==> !Happened(r, c, w) && Happened(Step(l, r, e), c, w)
    ensures !Happens(l, r, e, c, w) ==> Happened(Step(l, r, e), c, w) == Happened(r, c, w)
  {
    hide Slots, Rights, Codes;
    ReturnSlots(l, r, e);
  }

  lemma OtherOnce(l: Limits, r: Relay, e: Event, c: CircuitId, w: Once)
    requires Enabled(l, r, e) && !e.AttachHalf? && !e.CloseDoneChannel? && !ReleaseEvent(e)
    ensures !Happens(l, r, e, c, w) && Happened(Step(l, r, e), c, w) == Happened(r, c, w)
  {
    hide Step;
    if e.Issue? {
      IssueHeap(l, r, e);
    } else {
      SameHeap(l, r, e);
    }
  }

  lemma IssueHeap(l: Limits, r: Relay, e: Event)
    requires Enabled(l, r, e) && e.Issue?
    ensures Step(l, r, e).server.heap == r.server.heap[e.circuit := NewCircuit(r.now, e.a, e.b)]
  {
  }

  lemma SameHeap(l: Limits, r: Relay, e: Event)
    requires !e.Issue? && !e.AttachHalf? && !e.CloseDoneChannel? && !ReleaseEvent(e)
    ensures Step(l, r, e).server.heap == r.server.heap
  {
    if CodeEvent(e) {
      hide Step;
      CodeFewer(l, r, e);
    } else if LeaveEvent(e) {
      hide Step;
      LeaveFewer(l, r, e);
    } else if e.RedeemTicket? {
      hide Step;
      RedeemHeap(l, r, e);
    } else {
      hide Step;
      PairFewer(l, r, e);
    }
  }

  lemma RedeemHeap(l: Limits, r: Relay, e: Event)
    requires e.RedeemTicket?
    ensures Step(l, r, e).server.heap == r.server.heap
  {
  }

  /**
   In every interleaving, each side of a circuit is set at most once, at most one splice
   starts, `done` is closed at most once, and the slot is returned at most once.
   */
  lemma {:induction false} AtMostOnce(l: Limits, now: Time, es: seq<Event>, c: CircuitId, w: Once)
    ensures Times(l, now, es, c, w) == if Happened(Run(l, now, es), c, w) then 1 else 0
  {
    if es != [] {
      hide Happens, Happened, Inv;
      var front, e := es[..|es| - 1], es[|es| - 1];
      AtMostOnce(l, now, front, c, w);
      RunKeeps(l, now, front);
      StepTimes(l, Run(l, now, front), e, c, w);
    } else {
      hide Inv;
    }
  }

  lemma StepTimes(l: Limits, r: Relay, e: Event, c: CircuitId, w: Once)
    requires Inv(l, r)
    ensures Happens(l, r, e, c, w) ==> !Happened(r, c, w) && Happened(Step(l, r, e), c, w)
    ensures !Happens(l, r, e, c, w) ==> Happened(Step(l, r, e), c, w) == Happened(r, c, w)
  {
    if Enabled(l, r, e) {
      hide Inv, Happened, Step;
      StepOnce(l, r, e, c, w);
    }
  }

  // ---- A rendezvous works ----

  /** With room for it, a code published by one connection can be claimed by another, and the claim takes a slot. */
  lemma CodeIsClaimed(l: Limits, r: Relay, rid: string, publisher: ConnId, claimer: ConnId, t: ThreadId)
    requires |r.server.pending| < l.maxPendingCodes && r.server.circuits < l.maxCircuits
    requires publisher != claimer && t !in r.threads
    ensures var r' := Step(l, Step(l, r, Publish(rid, publisher, "", "")), ClaimCode(t, rid, claimer));
            && r'.threads == r.threads[t := Pairing] && r'.server.circuits == r.server.circuits + 1
            && r'.server.heap == r.server.heap && r'.tickets == r.tickets && r'.now == r.now
  {
    var r1 := Step(l, r, Publish(rid, publisher, "", ""));
    assert rid in r1.server.pending && r1.server.pending[rid].conn == publisher
           && r1.server.circuits == r.server.circuits;
  }

  /** A claim then issues both tickets of a new circuit. */
  lemma PairingIssues(l: Limits, r: Relay, t: ThreadId, c: CircuitId, a: string, b: string)
    requires Inv(l, r) && t in r.threads && r.threads[t].Pairing?
    requires c !in r.server.heap && a !in r.tickets && b !in r.tickets && a != b
    ensures var r' := Step(l, r, Issue(t, c, a, b));
            && Inv(l, r')
            && c in r'.server.heap && r'.server.heap[c] == NewCircuit(r.now, a, b)
            && a in r'.server.tickets && r'.server.tickets[a] == TicketRef(c, false)
            && b in r'.server.tickets && r'.server.tickets[b] == TicketRef(c, true)
            && r'.threads == r.threads[t := Issued(c)]
  {
    hide Inv;
    StepKeeps(l, r, Issue(t, c, a, b));
  }

  /** Redeeming an unspent ticket and attaching sets that side of its circuit to the redeeming connection. */
  lemma TicketAttaches(l: Limits, r: Relay, t: ThreadId, ticket: string, conn: ConnId)
    requires Inv(l, r) && t !in r.threads && ticket in r.server.tickets
    ensures var ref := r.server.tickets[ticket];
            var r' := Step(l, Step(l, r, RedeemTicket(t, ticket, conn)), AttachHalf(t));
            && Inv(l, r') && ref.circuit in r.server.heap && ref.circuit in r'.server.heap
            && var k, k' := r.server.heap[ref.circuit], r'.server.heap[ref.circuit];
               && k' == k.With(ref.side, Half(conn, ticket)).(started := k.started || k.At(!ref.side).Some?)
               && r'.server.tickets == r.server.tickets - {ticket}
               && t in r'.threads
               && r'.threads[t] == (if k.At(!ref.side).Some? && !k.started then Splicing(ref.circuit)
                                      else Waiting(ref.circuit))
               && forall u | u in r.threads :: u in r'.threads && r'.threads[u] == r.threads[u]
  {
    hide Slots, Codes, TicketsBelong, RightsHeldOnce, SplicedOnce;
    TicketCircuits(r);
    var r1 := Step(l, r, RedeemTicket(t, ticket, conn));
    StepKeeps(l, r, RedeemTicket(t, ticket, conn));
    StepKeeps(l, r1, AttachHalf(t));
  }

  /** With both tickets of a new circuit out, the two connections that redeem them are spliced, in either order. */
  lemma TicketsSplice(l: Limits, r: Relay, c: CircuitId, a: string, b: string, first: bool, t: ThreadId, u: ThreadId,
                      x: ConnId, y: ConnId)
    requires Inv(l, r) && t !in r.threads && u !in r.threads && t != u && a != b
    requires c in r.server.heap && r.server.heap[c].left.None? && r.server.heap[c].right.None?
             && !r.server.heap[c].started
    requires a in r.server.tickets && r.server.tickets[a] == TicketRef(c, first)
    requires b in r.server.tickets && r.server.tickets[b] == TicketRef(c, !first)
    ensures var r1 := Step(l, Step(l, r, RedeemTicket(t, a, x)), AttachHalf(t));
            var r2 := Step(l, Step(l, r1, RedeemTicket(u, b, y)), AttachHalf(u));
            && t in r1.threads && r1.threads[t] == Waiting(c)
            && u in r2.threads && r2.threads[u] == Splicing(c)
            && c in r2.server.heap && r2.server.heap[c].At(first) == Some(Half(x, a))
               && r2.server.heap[c].At(!first) == Some(Half(y, b))
  {
    hide Step, Inv;
    TicketAttaches(l, r, t, a, x);
    var r1 := Step(l, Step(l, r, RedeemTicket(t, a, x)), AttachHalf(t));
    assert u !in r1.threads by { OnlyNewThread(l, r, t, a, x, u); }
    TicketAttaches(l, r1, u, b, y);
  }

  lemma OnlyNewThread(l: Limits, r: Relay, t: ThreadId, ticket: string, conn: ConnId, u: ThreadId)
    requires u !in r.threads && t !in r.threads && u != t
    ensures u !in Step(l, Step(l, r, RedeemTicket(t, ticket, conn)), AttachHalf(t)).threads
  {
  }

  /**
   The steps of one rendezvous: a code published and claimed, its tickets issued, the claimer's
   redeemed, then the publisher's.
   */
  function Rendezvous(l: Limits, r: Relay, rid: string, publisher: ConnId, claimer: ConnId, c: CircuitId,
                      a: string, b: string, t: ThreadId, u: ThreadId, v: ThreadId, x: ConnId, y: ConnId): Relay
  {
    var r1 := Step(l, Step(l, Step(l, r, Publish(rid, publisher, "", "")), ClaimCode(t, rid, claimer)),
                   Issue(t, c, a, b));
    var r2 := Step(l, Step(l, r1, RedeemTicket(u, b, x)), AttachHalf(u));
    Step(l, Step(l, r2, RedeemTicket(v, a, y)), AttachHalf(v))
  }

  /**
   From any reachable state with room for a code and a circuit, a rendezvous splices the two
   connections that redeem its tickets.
   */
  lemma RendezvousSplices(l: Limits, now: Time, es: seq<Event>, rid: string, publisher: ConnId, claimer: ConnId,
                          c: CircuitId, a: string, b: string, t: ThreadId, u: ThreadId, v: ThreadId,
                          x: ConnId, y: ConnId)
    requires var r := Run(l, now, es);
             && |r.server.pending| < l.maxPendingCodes && r.server.circuits < l.maxCircuits
             && c !in r.server.heap && a !in r.tickets && b !in r.tickets
             && t !in r.threads && u !in r.threads && v !in r.threads
    requires publisher != claimer && a != b && t != u && u != v && t != v
    ensures var r' := Rendezvous(l, Run(l, now, es), rid, publisher, claimer, c, a, b, t, u, v, x, y);
            && v in r'.threads && r'.threads[v] == Splicing(c)
            && c in r'.server.heap && r'.server.heap[c].left == Some(Half(y, a))
               && r'.server.heap[c].right == Some(Half(x, b))
  {
    hide Run, Step, Inv;
    RunKeeps(l, now, es);
    var r := Run(l, now, es);
    CodeIsClaimed(l, r, rid, publisher, claimer, t);
    StepKeeps(l, r, Publish(rid, publisher, "", ""));
    var r1 := Step(l, r, Publish(rid, publisher, "", ""));
    StepKeeps(l, r1, ClaimCode(t, rid, claimer));
    var r2 := Step(l, r1, ClaimCode(t, rid, claimer));
    PairingIssues(l, r2, t, c, a, b);
    TicketsSplice(l, Step(l, r2, Issue(t, c, a, b)), c, b, a, true, u, v, x, y);
  }

  // ---- When a slot can still be returned ----

  function Continue(l: Limits, r: Relay, es: seq<Event>): Relay
    decreases |es|
  {
    if es == [] then r else Continue(l, Step(l, r, es[0]), es[1..])
  }

  /** A handler that has yet to return circuit c's slot, or may have to. */
  predicate WorksOn(x: Thread, c: CircuitId) {
    !x.Pairing? && !x.Finishing? && x.circuit == c
  }

  /** No handler works on circuit c any more and no ticket leads to it. */
  ghost predicate Stranded(r: Relay, c: CircuitId) {
    && (forall t | t in r.threads :: !WorksOn(r.threads[t], c))
    && (forall k | k in r.server.tickets :: r.server.tickets[k].circuit != c)
  }

  ghost predicate Unreturned(r: Relay, c: CircuitId) {
    c in r.server.heap && !r.server.heap[c].released
  }

  lemma StrandedStep(l: Limits, r: Relay, e: Event, c: CircuitId)
    requires Unreturned(r, c) && Stranded(r, c)
    ensures Unreturned(Step(l, r, e), c) && Stranded(Step(l, r, e), c)
  {
    if CodeEvent(e) || LeaveEvent(e) || e.ClaimCode? || e.TicketsFail? {
      hide Step;
      StrandedQuiet(l, r, e, c);
    } else if ReleaseEvent(e) {
      hide Step;
      StrandedReturn(l, r, e, c);
    } else {
      hide Step;
      StrandedCircuit(l, r, e, c);
    }
  }

  lemma StrandedQuiet(l: Limits, r: Relay, e: Event, c: CircuitId)
    requires Unreturned(r, c) && Stranded(r, c) && (CodeEvent(e) || LeaveEvent(e) || e.ClaimCode? || e.TicketsFail?)
    ensures Unreturned(Step(l, r, e), c) && Stranded(Step(l, r, e), c)
  {
    hide Unreturned, Stranded;
    if CodeEvent(e) {
      CodeFewer(l, r, e);
    } else if LeaveEvent(e) {
      LeaveFewer(l, r, e);
    } else {
      PairFewer(l, r, e);
    }
    FewerStranded(r, Step(l, r, e), c);
  }

  /** No new ticket and no new handler for any circuit, and every circuit as it was. */
  ghost predicate NothingNew(r: Relay, r': Relay) {
    && r'.server.heap == r.server.heap
    && (forall k | k in r'.server.tickets :: k in r.server.tickets && r'.server.tickets[k] == r.server.tickets[k])
    && (forall t | t in r'.threads ::
          || r'.threads[t].Pairing?
          || (t in r.threads && r'.threads[t] == r.threads[t])
          || (t in r.threads && r.threads[t].Issued? && r'.threads[t] == Dropping(r.threads[t].circuit)))
  }

  lemma FewerStranded(r: Relay, r': Relay, c: CircuitId)
    requires Unreturned(r, c) && Stranded(r, c) && NothingNew(r, r')
    ensures Unreturned(r', c) && Stranded(r', c)
  {
    forall t | t in r'.threads
      ensures !WorksOn(r'.threads[t], c)
    {
      if t in r.threads {
        assert !WorksOn(r.threads[t], c);
      }
    }
  }

  lemma CodeFewer(l: Limits, r: Relay, e: Event)
    requires CodeEvent(e)
    ensures NothingNew(r, Step(l, r, e))
  {
  }

  lemma LeaveFewer(l: Limits, r: Relay, e: Event)
    requires LeaveEvent(e)
    ensures NothingNew(r, Step(l, r, e))
  {
  }

  lemma PairFewer(l: Limits, r: Relay, e: Event)
    requires e.ClaimCode? || e.TicketsFail?
    ensures NothingNew(r, Step(l, r, e))
  {
  }

  lemma StrandedReturn(l: Limits, r: Relay, e: Event, c: CircuitId)
    requires Unreturned(r, c) && Stranded(r, c) && ReleaseEvent(e)
    ensures Unreturned(Step(l, r, e), c) && Stranded(Step(l, r, e), c)
  {
    if Enabled(l, r, e) {
      assert !WorksOn(r.threads[e.thread], c);
    }
  }

  lemma StrandedCircuit(l: Limits, r: Relay, e: Event, c: CircuitId)
    requires Unreturned(r, c) && Stranded(r, c)
    requires e.Issue? || e.RedeemTicket? || e.AttachHalf? || e.CloseDoneChannel?
    ensures Unreturned(Step(l, r, e), c) && Stranded(Step(l, r, e), c)
  {
    if e.AttachHalf? && Enabled(l, r, e) {
      assert !WorksOn(r.threads[e.thread], c);
    }
  }

  lemma {:induction false} StrandedForever(l: Limits, r: Relay, es: seq<Event>, c: CircuitId)
    requires Unreturned(r, c) && Stranded(r, c)
    ensures Unreturned(Continue(l, r, es), c)
    decreases |es|
  {
    if es == [] {
    } else {
      hide Step, Stranded;
      StrandedStep(l, r, es[0], c);
      StrandedForever(l, Step(l, r, es[0]), es[1..], c);
    }
  }

  ghost function Above(s: set<nat>): (n: nat)
    ensures forall m <- s :: m < n
  {
    if s == {} then 0
    else
      var m :| m in s;
      var n := Above(s - {m});
      assert forall k <- s :: k == m || k in s - {m};
      if n > m then n else m + 1
  }

  lemma ContinueTwo(l: Limits, r: Relay, d: Event, e: Event)
    ensures Continue(l, r, [d, e]) == Step(l, Step(l, r, d), e)
  {
    hide Step;
    assert [d, e][1..] == [e] && [e][1..] == [];
    assert Continue(l, Step(l, r, d), [e]) == Step(l, Step(l, r, d), e);
  }

  lemma ReturnsNow(l: Limits, r: Relay, c: CircuitId, e: Event)
    requires c in r.server.heap && ReleaseEvent(e) && Enabled(l, r, e) && r.threads[e.thread].circuit == c
    ensures !Unreturned(Step(l, r, e), c)
  {
  }

  lemma AfterAnnounceFails(l: Limits, r: Relay, t: ThreadId)
    requires t in r.threads && r.threads[t].Issued? && r.threads[t].circuit in r.server.heap
    ensures var r' := Step(l, r, AnnounceFails(t));
            t in r'.threads && r'.threads[t] == Dropping(r.threads[t].circuit) && r.threads[t].circuit in r'.server.heap
  {
  }

  lemma AfterAttach(l: Limits, r: Relay, t: ThreadId)
    requires t in r.threads && r.threads[t].Redeemed? && r.threads[t].circuit in r.server.heap
    ensures var r', c := Step(l, r, AttachHalf(t)), r.threads[t].circuit;
            t in r'.threads && r'.threads[t] in {Waiting(c), Splicing(c)} && c in r'.server.heap
  {
  }

  lemma AfterTick(l: Limits, r: Relay)
    ensures Step(l, r, Tick(r.now)) == r
  {
  }

  /** The event by which a waiting, splicing or dropping handler returns the slot. */
  function ReturnOf(x: Thread, t: ThreadId): Event {
    if x.Waiting? then IdleTimeout(t) else if x.Splicing? then SpliceEnds(t) else DropReleases(t)
  }

  /** A handler on c can return the slot in two more steps. */
  lemma HandlerReturns(l: Limits, r: Relay, c: CircuitId, t: ThreadId) returns (d: Event, e: Event)
    requires Unreturned(r, c) && t in r.threads && WorksOn(r.threads[t], c)
    ensures !Unreturned(Step(l, Step(l, r, d), e), c)
  {
    hide Step;
    if r.threads[t].Issued? {
      d := AnnounceFails(t);
      AfterAnnounceFails(l, r, t);
    } else if r.threads[t].Redeemed? {
      d := AttachHalf(t);
      AfterAttach(l, r, t);
    } else {
      d := Tick(r.now);
      AfterTick(l, r);
    }
    e := ReturnOf(Step(l, r, d).threads[t], t);
    ReturnsNow(l, Step(l, r, d), c, e);
  }

  lemma TicketWorks(l: Limits, r: Relay, c: CircuitId, k: string, t: ThreadId)
    requires Unreturned(r, c) && t !in r.threads && k in r.server.tickets && r.server.tickets[k].circuit == c
    ensures var r' := Step(l, r, RedeemTicket(t, k, 0));
            Unreturned(r', c) && t in r'.threads && WorksOn(r'.threads[t], c)
  {
  }

  /** While a handler or a ticket for c is left, the slot can be returned. */
  lemma Returning(l: Limits, r: Relay, c: CircuitId) returns (es: seq<Event>)
    requires Unreturned(r, c) && !Stranded(r, c)
    ensures !Unreturned(Continue(l, r, es), c)
  {
    hide Step, Unreturned, WorksOn;
    if t :| t in r.threads && WorksOn(r.threads[t], c) {
      var d, e := HandlerReturns(l, r, c, t);
      ContinueTwo(l, r, d, e);
      return [d, e];
    }
    var k :| k in r.server.tickets && r.server.tickets[k].circuit == c;
    var t := Above(r.threads.Keys);
    var redeem := RedeemTicket(t, k, 0);
    TicketWorks(l, r, c, k, t);
    var d, e := HandlerReturns(l, Step(l, r, redeem), c, t);
    ContinueTwo(l, Step(l, r, redeem), d, e);
    es := [redeem, d, e];
    assert es[1..] == [d, e];
  }

  /** The slot of an unreturned circuit can still come back exactly while a handler or a ticket for it is left. */
  lemma ReturnableIff(l: Limits, r: Relay, c: CircuitId)
    requires Unreturned(r, c)
    ensures (exists es :: !Unreturned(Continue(l, r, es), c)) <==> !Stranded(r, c)
  {
    hide Step, Unreturned, Stranded;
    if Stranded(r, c) {
      forall es
        ensures Unreturned(Continue(l, r, es), c)
      {
        StrandedForever(l, r, es, c);
      }
    } else {
      var es := Returning(l, r, c);
      assert !Unreturned(Continue(l, r, es), c);
    }
  }

  lemma RunOne(l: Limits, now: Time, es: seq<Event>, e: Event)
    ensures Run(l, now, es + [e]) == Step(l, Run(l, now, es), e)
  {
    hide Step;
    assert (es + [e])[..|es|] == es;
  }

  lemma RunNone(l: Limits, now: Time)
    ensures Run(l, now, []) == Start(now)
  {
  }

  const TINY := Limits(MILLISECOND, 1, 1)

  /** A relay with one paired circuit, its tickets out and nobody at work. */
  function Paired(now: Time, lastSweep: Time): Relay {
    Relay(Server(map[], map["a" := TicketRef(0, false), "b" := TicketRef(0, true)], 1,
                 map[0 := NewCircuit(0, "a", "b")]),
          map[], now, lastSweep, 1, [Claim(0, 1, 2, 0, 0)], {"a", "b"}, 1, 0)
  }

  const PAIR := [Publish("code", 1, "", ""), ClaimCode(0, "code", 2), Issue(0, 0, "a", "b"), Announced(0)]

  /** The relay once its first code is claimed. */
  function Claimed(): Relay {
    Start(0).(server := EMPTY.(circuits := 1), threads := map[0 := Pairing],
              publications := 1, claims := [Claim(0, 1, 2, 0, 0)], taken := 1)
  }

  lemma PairSteps()
    ensures Step(TINY, Step(TINY, Start(0), PAIR[0]), PAIR[1]) == Claimed()
  {
    var r1 := Step(TINY, Start(0), PAIR[0]);
    assert r1.server.pending == map["code" := Pending(1, "", "", 0, 0)];
    var r2 := Step(TINY, r1, PAIR[1]);
    assert r2.server.pending == map[] && r2.threads == map[0 := Pairing];
  }

  lemma IssueSteps(r: Relay)
    requires r == Claimed()
    ensures Step(TINY, Step(TINY, r, PAIR[2]), PAIR[3]) == Paired(0, 0)
  {
    var r3 := Step(TINY, r, PAIR[2]);
    assert r3.threads == map[0 := Issued(0)];
    assert Step(TINY, r3, PAIR[3]).threads == map[];
  }

  lemma PairRuns()
    ensures Run(TINY, 0, PAIR) == Paired(0, 0)
  {
    hide Step, Run, Paired;
    RunNone(TINY, 0);
    PairSteps();
    IssueSteps(Step(TINY, Step(TINY, Start(0), PAIR[0]), PAIR[1]));
    var e1, e2, e3, e4 := PAIR[0], PAIR[1], PAIR[2], PAIR[3];
    RunOne(TINY, 0, [], e1);
    RunOne(TINY, 0, [e1], e2);
    RunOne(TINY, 0, [e1, e2], e3);
    RunOne(TINY, 0, [e1, e2, e3], e4);
    assert [] + [e1] == [e1] && [e1] + [e2] == [e1, e2] && [e1, e2] + [e3] == [e1, e2, e3];
    assert [e1, e2, e3] + [e4] == PAIR;
  }

  const WAIT := [Tick(MILLISECOND), Sweep, Tick(2 * MILLISECOND), Sweep]

  lemma WaitSteps()
    ensures Step(TINY, Paired(0, 0), WAIT[0]) == Paired(MILLISECOND, 0)
    ensures Step(TINY, Paired(MILLISECOND, 0), WAIT[1]) == Paired(MILLISECOND, MILLISECOND)
    ensures Step(TINY, Paired(MILLISECOND, MILLISECOND), WAIT[2]) == Paired(2 * MILLISECOND, MILLISECOND)
  {
    var s := Paired(MILLISECOND, 0).server;
    assert LiveTickets(s, MILLISECOND, MILLISECOND) == s.tickets;
  }

  lemma LastSweep(r: Relay)
    requires r == Step(TINY, Paired(2 * MILLISECOND, MILLISECOND), Sweep)
    ensures r.server.tickets == map[] && r.server.circuits == 1 && r.threads == map[] && Unreturned(r, 0)
  {
  }

  /** When neither ticket is redeemed, the reaper drops both and the slot never comes back. */
  lemma SlotCanLeak(es: seq<Event>)
    ensures var r := Run(TINY, 0, PAIR + WAIT);
            && r.threads == map[] && r.server.circuits == 1 && Unreturned(Continue(TINY, r, es), 0)
  {
    hide Step, Unreturned, Run, Paired;
    PairRuns();
    WaitSteps();
    var w1, w2, w3, w4 := WAIT[0], WAIT[1], WAIT[2], WAIT[3];
    RunOne(TINY, 0, PAIR, w1);
    RunOne(TINY, 0, PAIR + [w1], w2);
    RunOne(TINY, 0, PAIR + [w1] + [w2], w3);
    RunOne(TINY, 0, PAIR + [w1] + [w2] + [w3], w4);
    assert PAIR + [w1] + [w2] + [w3] + [w4] == PAIR + WAIT;
    var r := Run(TINY, 0, PAIR + WAIT);
    LastSweep(r);
    StrandedForever(TINY, r, es, 0);
  }
}
