/**
 The relay server's shared state and the effect of each of its mutex sections, as
 functions (internal/relay/server.go).
 */
module RelaySpec {
  import opened Bytes

  type ConnId = nat
  type CircuitId = nat
  /** Nanoseconds, as in Go's time.Duration. */
  type Time = int

  const MILLISECOND: Time := 1_000_000
  const MAX_REAP_INTERVAL: Time := 30_000_000_000

  datatype Limits = Limits(codeTTL: Time, maxPendingCodes: int, maxCircuits: int)

  /** A published, unclaimed invite code. `publication` numbers publications for the record. */
  datatype Pending = Pending(conn: ConnId, sealed: string, observed: string, created: Time, publication: nat)

  /** A connection on one side of a circuit, and the ticket that brought it there. */
  datatype Half = Half(conn: ConnId, ticket: string)

  datatype Circuit = Circuit(
    left: Option<Half>, right: Option<Half>, started: bool, created: Time,
    done: bool, released: bool, leftTicket: string, rightTicket: string)
  {
    function At(side: bool): Option<Half> {
      if side then right else left
    }

    function TicketOf(side: bool): string {
      if side then rightTicket else leftTicket
    }

    function With(side: bool, h: Half): Circuit {
      if side then this.(right := Some(h)) else this.(left := Some(h))
    }
  }

  /** Side 0 is `false`, side 1 is `true`. */
  datatype TicketRef = TicketRef(circuit: CircuitId, side: bool)

  datatype Server = Server(
    pending: map<string, Pending>, tickets: map<string, TicketRef>, circuits: int, heap: map<CircuitId, Circuit>)

  const EMPTY := Server(map[], map[], 0, map[])

  datatype PairError = NoSuchCode | OwnCode | AtCapacity

  // ---- Invite codes ----

  function AddPending(l: Limits, s: Server, rid: string, p: Pending): (Server, bool) {
    if |s.pending| >= l.maxPendingCodes then (s, false)
    else (s.(pending := s.pending[rid := p]), true)
  }

  function DropPending(s: Server, rid: string, conn: ConnId): Server {
    if rid in s.pending && s.pending[rid].conn == conn then s.(pending := s.pending - {rid}) else s
  }

  /** The first section of a pairing: takes the code and a circuit slot. */
  function TakeCode(l: Limits, s: Server, rid: string, claimer: ConnId): (Server, Result<Pending, PairError>) {
    if rid !in s.pending then (s, Err(NoSuchCode))
    else if s.pending[rid].conn == claimer then (s, Err(OwnCode))
    else if s.circuits >= l.maxCircuits then (s, Err(AtCapacity))
    else (s.(pending := s.pending - {rid}, circuits := s.circuits + 1), Ok(s.pending[rid]))
  }

  // ---- Tickets and circuits ----

  function NewCircuit(created: Time, a: string, b: string): Circuit {
    Circuit(None, None, false, created, false, false, a, b)
  }

  /** The second section of a pairing: a new circuit and a ticket for each side. */
  function IssueTickets(s: Server, c: CircuitId, created: Time, a: string, b: string): Server {
    s.(heap := s.heap[c := NewCircuit(created, a, b)],
       tickets := s.tickets[a := TicketRef(c, false)][b := TicketRef(c, true)])
  }

  function DropTickets(s: Server, a: string, b: string): Server {
    s.(tickets := s.tickets - {a, b})
  }

  /** Redeeming a ticket spends it. */
  function Redeem(s: Server, ticket: string): (Server, Option<TicketRef>) {
    if ticket in s.tickets then (s.(tickets := s.tickets - {ticket}), Some(s.tickets[ticket])) else (s, None)
  }

  /** Sets one side's connection; the second arrival starts the splice. */
  function Attach(s: Server, c: CircuitId, side: bool, h: Half): (Server, bool)
    requires c in s.heap
  {
    var k := s.heap[c].With(side, h);
    var second := k.At(!side).Some? && !k.started;
    (s.(heap := s.heap[c := k.(started := k.started || second)]), second)
  }

  function ReleaseSlot(s: Server): Server {
    if s.circuits > 0 then s.(circuits := s.circuits - 1) else s
  }

  function ReleaseOnce(s: Server, c: CircuitId): Server
    requires c in s.heap
  {
    if s.heap[c].released then s
    else ReleaseSlot(s.(heap := s.heap[c := s.heap[c].(released := true)]))
  }

  function CloseDone(s: Server, c: CircuitId): Server
    requires c in s.heap
  {
    s.(heap := s.heap[c := s.heap[c].(done := true)])
  }

  // ---- Reaping ----

  /** Go's integer division, which truncates toward zero. */
  function Quotient(a: int, b: int): int
    requires b > 0
  {
    if a >= 0 then a / b else -(-a / b)
  }

  /** Half the code TTL, bounded at both ends. */
  function ReapInterval(ttl: Time): (d: Time)
    ensures MILLISECOND <= d <= MAX_REAP_INTERVAL
    ensures 2 * MILLISECOND <= ttl ==> 2 * d <= ttl
    ensures MILLISECOND < d < MAX_REAP_INTERVAL ==> ttl < 2 * d + 2
    ensures ttl >= 60_000_000_000 ==> d == 30_000_000_000
    ensures ttl < 2_000_000 ==> d == 1_000_000
  {
    var d := Quotient(ttl, 2);
    if d > MAX_REAP_INTERVAL then MAX_REAP_INTERVAL else if d < MILLISECOND then MILLISECOND else d
  }

  function LivePending(pending: map<string, Pending>, now: Time, ttl: Time): map<string, Pending> {
    map rid | rid in pending && now - pending[rid].created <= ttl :: pending[rid]
  }

  function TicketAge(s: Server, ticket: string, now: Time): Time
    requires ticket in s.tickets
  {
    if s.tickets[ticket].circuit in s.heap then now - s.heap[s.tickets[ticket].circuit].created else 0
  }

  function LiveTickets(s: Server, now: Time, ttl: Time): map<string, TicketRef> {
    map t | t in s.tickets && TicketAge(s, t, now) <= ttl :: s.tickets[t]
  }

  function Reap(l: Limits, s: Server, now: Time): Server {
    s.(pending := LivePending(s.pending, now, l.codeTTL), tickets := LiveTickets(s, now, l.codeTTL))
  }
}
