/** Duplicate-connection resolution in the session manager (internal/session/manager.go). */
module Manager {
  import opened Words

  // ---- What registration decides, as functions ----

  /** One end of a connection: the peer's fingerprint and the session ID both ends share. */
  datatype Link = Link(fp: string, id: uint64)

  /** The connection kept for each peer, and those that have been closed. */
  datatype Table = Table(kept: map<string, uint64>, closed: set<Link>)

  /** Registering a connection while none is announced and none misses a keepalive. */
  function RegisterSpec(t: Table, c: Link): Table {
    if c.fp in t.kept then
      if c.id < t.kept[c.fp] then Table(t.kept[c.fp := c.id], t.closed + {Link(c.fp, t.kept[c.fp])})
      else t.(closed := t.closed + {c})
    else t.(kept := t.kept[c.fp := c.id])
  }

  function RegisterAll(cs: seq<Link>): Table {
    if cs == [] then Table(map[], {}) else RegisterSpec(RegisterAll(cs[..|cs| - 1]), cs[|cs| - 1])
  }

  ghost predicate Distinct(cs: seq<Link>) {
    forall i, j | 0 <= i < j < |cs| :: cs[i] != cs[j]
  }

  /** id is the smallest session ID among the connections to fp. */
  ghost predicate Smallest(cs: seq<Link>, fp: string, id: uint64) {
    Link(fp, id) in cs && forall c <- cs | c.fp == fp :: id <= c.id
  }

  /** Every peer is kept, by its smallest session ID, and exactly the other connections are closed. */
  ghost predicate Resolved(cs: seq<Link>, t: Table) {
    && (forall c <- cs :: c.fp in t.kept)
    && (forall fp | fp in t.kept :: Smallest(cs, fp, t.kept[fp]))
    && (forall c :: c in t.closed <==> c in cs && t.kept[c.fp] != c.id)
  }

  /** After any order of arrival, each peer keeps its smallest session ID and every other connection is closed. */
  lemma {:induction false} KeepsSmallest(cs: seq<Link>)
    requires Distinct(cs)
    ensures Resolved(cs, RegisterAll(cs))
  {
    hide Resolved, RegisterSpec;
    if cs == [] {
      NothingResolved();
    } else {
      var front, c := cs[..|cs| - 1], cs[|cs| - 1];
      KeepsSmallest(front);
      assert cs == front + [c];
      ResolvedNext(front, c, RegisterAll(front));
    }
  }

  lemma NothingResolved()
    ensures Resolved([], Table(map[], {}))
  {
  }

  lemma ResolvedNext(front: seq<Link>, c: Link, t: Table)
    requires c !in front && Resolved(front, t)
    ensures Resolved(front + [c], RegisterSpec(t, c))
  {
    var t' := RegisterSpec(t, c);
    forall fp | fp in t'.kept
      ensures Smallest(front + [c], fp, t'.kept[fp])
    {
      SmallestNext(front, c, t, fp);
    }
    ClosedNext(front, c, t);
  }

  lemma SmallestNext(front: seq<Link>, c: Link, t: Table, fp: string)
    requires Resolved(front, t) && fp in RegisterSpec(t, c).kept
    ensures Smallest(front + [c], fp, RegisterSpec(t, c).kept[fp])
  {
    if fp in t.kept {
      assert Smallest(front, fp, t.kept[fp]);
    }
  }

  lemma ClosedNext(front: seq<Link>, c: Link, t: Table)
    requires c !in front && Resolved(front, t)
    ensures var t' := RegisterSpec(t, c);
            forall d :: d in t'.closed <==> d in front + [c] && t'.kept[d.fp] != d.id
  {
    if c.fp in t.kept {
      assert Smallest(front, c.fp, t.kept[c.fp]);
    }
  }

  /** Which connection is kept does not depend on those closed before. */
  lemma KeptNext(links: seq<Link>, n: nat)
    requires n < |links|
    ensures RegisterAll(links[..n + 1]).kept == RegisterSpec(Table(RegisterAll(links[..n]).kept, {}), links[n]).kept
  {
    assert links[..n + 1][..n] == links[..n];
  }

  lemma SameKept(xs: seq<Link>, ys: seq<Link>, s: Table, t: Table, fp: string)
    requires Resolved(xs, s) && Resolved(ys, t) && (forall c :: c in xs <==> c in ys) && fp in s.kept
    ensures fp in t.kept && s.kept[fp] == t.kept[fp]
  {
    assert Smallest(xs, fp, s.kept[fp]);
    assert Link(fp, s.kept[fp]) in ys;
    assert Smallest(ys, fp, t.kept[fp]);
  }

  lemma SameClosed(xs: seq<Link>, ys: seq<Link>, s: Table, t: Table)
    requires Resolved(xs, s) && Resolved(ys, t) && (forall c :: c in xs <==> c in ys) && s.kept == t.kept
    ensures s.closed == t.closed
  {
    hide Smallest;
  }

  /** The outcome does not depend on the order of arrival. */
  lemma OrderIrrelevant(xs: seq<Link>, ys: seq<Link>)
    requires Distinct(xs) && Distinct(ys) && forall c :: c in xs <==> c in ys
    ensures RegisterAll(xs) == RegisterAll(ys)
  {
    hide Resolved, RegisterAll;
    KeepsSmallest(xs);
    KeepsSmallest(ys);
    var s, t := RegisterAll(xs), RegisterAll(ys);
    forall fp | fp in s.kept
      ensures fp in t.kept && s.kept[fp] == t.kept[fp]
    {
      SameKept(xs, ys, s, t, fp);
    }
    forall fp | fp in t.kept
      ensures fp in s.kept
    {
      SameKept(ys, xs, t, s, fp);
    }
    assert s.kept == t.kept;
    SameClosed(xs, ys, s, t);
  }

  /**
   Two peers that register the two ends of the same connections, each in its own order
   and among connections to others, keep the same one and close the same others.
   */
  lemma BothPeersAgree(xs: seq<Link>, ys: seq<Link>, a: string, b: string, id: uint64)
    requires Distinct(xs) && Distinct(ys)
    requires forall i: uint64 :: Link(b, i) in xs <==> Link(a, i) in ys
    requires Link(b, id) in xs
    ensures var s, t := RegisterAll(xs), RegisterAll(ys);
            && b in s.kept && a in t.kept && s.kept[b] == t.kept[a] && Smallest(xs, b, s.kept[b])
            && (Link(b, id) in s.closed <==> Link(a, id) in t.closed)
            && (Link(b, id) !in s.closed <==> s.kept[b] == id)
  {
    KeepsSmallest(xs);
    KeepsSmallest(ys);
    var s, t := RegisterAll(xs), RegisterAll(ys);
    assert Link(a, id) in ys;
    assert Smallest(xs, b, s.kept[b]) && Smallest(ys, a, t.kept[a]);
    assert Link(a, s.kept[b]) in ys && Link(b, t.kept[a]) in xs;
  }

  // ---- Connections over their whole lives ----

  /** The current connection to a peer: its session ID, whether the user knows of it, and pings since the last pong. */
  datatype Slot = Slot(id: uint64, announced: bool, unanswered: nat)

  type Slots = map<string, Slot>

  /** The connection that a ping, a pong, an announcement or a failure concerns is told by its session ID. */
  datatype Event =
    | Arrives(fp: string, id: uint64)
    | Announces(fp: string, id: uint64)
    | PingDue(fp: string, id: uint64)
    | PongCame(fp: string, id: uint64)
    | Fails(fp: string, id: uint64)

  const KEEPALIVE_MISSES := 3

  predicate Current(t: Slots, e: Event) {
    e.fp in t && t[e.fp].id == e.id
  }

  function Step(t: Slots, e: Event): Slots {
    match e
    case Arrives(fp, id) =>
      if fp in t && t[fp].announced && t[fp].unanswered == 0 then t
      else if fp in t && t[fp].unanswered == 0 && t[fp].id <= id then t
      else t[fp := Slot(id, false, 0)]
    case Announces(fp, id) => if Current(t, e) then t[fp := t[fp].(announced := true)] else t
    case PingDue(fp, id) =>
      if !Current(t, e) then t
      else if t[fp].unanswered + 1 > KEEPALIVE_MISSES then t - {fp}
      else t[fp := t[fp].(unanswered := t[fp].unanswered + 1)]
    case PongCame(fp, id) => if Current(t, e) then t[fp := t[fp].(unanswered := 0)] else t
    case Fails(fp, id) => if Current(t, e) then t - {fp} else t
  }

  function Run(es: seq<Event>): Slots {
    if es == [] then map[] else Step(Run(es[..|es| - 1]), es[|es| - 1])
  }

  lemma RunOne(es: seq<Event>, e: Event)
    ensures Run(es + [e]) == Step(Run(es), e)
  {
    assert (es + [e])[..|es|] == es;
  }

  /** Pings of the connection in a run of events, counted from its last pong. */
  function Missed(fs: seq<Event>, fp: string, id: uint64): nat {
    if fs == [] then 0
    else
      var front, e := fs[..|fs| - 1], fs[|fs| - 1];
      if e == PongCame(fp, id) then 0 else Missed(front, fp, id) + if e == PingDue(fp, id) then 1 else 0
  }

  /** The connection arrived as event i, and what has happened to it since tells its slot. */
  ghost predicate LivesSince(es: seq<Event>, i: nat, fp: string, s: Slot)
    requires i < |es|
  {
    var fs := es[i + 1..];
    && es[i] == Arrives(fp, s.id) && (s.announced <==> Announces(fp, s.id) in fs)
    && s.unanswered == Missed(fs, fp, s.id) <= 3
  }

  /** What an event that leaves the connection current makes of its slot. */
  function Onward(s: Slot, e: Event, fp: string): Slot {
    Slot(s.id, s.announced || e == Announces(fp, s.id),
         if e == PongCame(fp, s.id) then 0 else if e == PingDue(fp, s.id) then s.unanswered + 1 else s.unanswered)
  }

  lemma LivesOn(es: seq<Event>, i: nat, fp: string, s: Slot, e: Event)
    requires i < |es| && LivesSince(es, i, fp, s) && Onward(s, e, fp).unanswered <= 3
    ensures LivesSince(es + [e], i, fp, Onward(s, e, fp))
  {
    var fs := es[i + 1..];
    assert (es + [e])[i + 1..] == fs + [e] && (fs + [e])[..|fs|] == fs;
  }

  lemma Arrived(es: seq<Event>, fp: string, id: uint64)
    ensures LivesSince(es + [Arrives(fp, id)], |es|, fp, Slot(id, false, 0))
  {
    assert (es + [Arrives(fp, id)])[|es| + 1..] == [];
  }

  lemma StepOnward(t: Slots, e: Event, fp: string)
    requires fp in Step(t, e) && (fp in t ==> t[fp].unanswered <= 3)
    ensures || (e == Arrives(fp, Step(t, e)[fp].id) && Step(t, e)[fp] == Slot(e.id, false, 0))
            || (fp in t && Step(t, e)[fp] == Onward(t[fp], e, fp) && Step(t, e)[fp].unanswered <= 3)
  {
  }

  /**
   In every run, the current connection to a peer came by one of the arrivals; it is announced
   exactly if that happened since, and misses exactly the pings since its last pong, three at most.
   */
  lemma {:induction false} SlotTold(es: seq<Event>, fp: string)
    requires fp in Run(es)
    ensures exists i: nat | i < |es| :: LivesSince(es, i, fp, Run(es)[fp])
  {
    var front, e := es[..|es| - 1], es[|es| - 1];
    var t := Run(front);
    hide Step, LivesSince;
    assert es == front + [e];
    if fp in t {
      SlotTold(front, fp);
      var i: nat :| i < |front| && LivesSince(front, i, fp, t[fp]);
      assert t[fp].unanswered <= 3 by { FewMissed(front, i, fp, t[fp]); }
      StepOnward(t, e, fp);
      if Run(es)[fp] == Onward(t[fp], e, fp) && Run(es)[fp].unanswered <= 3 {
        LivesOn(front, i, fp, t[fp], e);
        assert LivesSince(es, i, fp, Run(es)[fp]);
        return;
      }
    } else {
      StepOnward(t, e, fp);
    }
    Arrived(front, fp, e.id);
    assert LivesSince(es, |front|, fp, Run(es)[fp]);
  }

  lemma Arriving(t: Slots, fp: string, id: uint64)
    ensures Step(t, Arrives(fp, id)) ==
              if fp in t && t[fp].unanswered == 0 && (t[fp].announced || t[fp].id <= id) then t
              else t[fp := Slot(id, false, 0)]
  {
  }

  /** Between fresh connections an arrival is a registration. */
  lemma ArrivingFresh(t: Slots, kept: map<string, uint64>, fp: string, id: uint64)
    requires t.Keys == kept.Keys && forall k | k in t :: t[k].id == kept[k]
    requires fp in t ==> !t[fp].announced && t[fp].unanswered == 0
    ensures var t', s := Step(t, Arrives(fp, id)), RegisterSpec(Table(kept, {}), Link(fp, id));
            && t'.Keys == s.kept.Keys && (forall k | k in t' :: t'[k].id == s.kept[k])
            && s.closed == if fp !in t then {} else if id < kept[fp] then {Link(fp, kept[fp])} else {Link(fp, id)}
  {
  }

  lemma PingDrops(t: Slots, fp: string, id: uint64, n: nat)
    requires fp in t && t[fp].id == id ==> t[fp].unanswered == n >= 3
    ensures Step(t, PingDue(fp, id)) == Step(t, Fails(fp, id))
    ensures fp in t && t[fp].id == id ==>
              Step(t[fp := t[fp].(unanswered := n + 1)], Fails(fp, id)) == Step(t, Fails(fp, id))
  {
  }

  lemma PingCounts(t: Slots, fp: string, id: uint64, n: nat)
    requires fp in t && t[fp].id == id ==> t[fp].unanswered == n < 3
    ensures Step(t, PingDue(fp, id)) ==
              if fp in t && t[fp].id == id then t[fp := t[fp].(unanswered := n + 1)] else t
  {
  }

  lemma FewMissed(es: seq<Event>, i: nat, fp: string, s: Slot)
    requires i < |es| && LivesSince(es, i, fp, s)
    ensures s.unanswered <= 3
  {
  }

  lemma {:induction false} StillMissing(es: seq<Event>, fs: seq<Event>, fp: string, id: uint64)
    requires fp in Run(es) ==> Run(es)[fp].id == id && Run(es)[fp].unanswered > 0
    requires forall e <- fs :: e != PongCame(fp, id) && !(e.Arrives? && e.fp == fp)
    ensures var t := Run(es + fs); fp in t ==> t[fp].id == id && t[fp].unanswered > 0
  {
    if fs == [] {
      assert es + fs == es;
    } else {
      var front, e := fs[..|fs| - 1], fs[|fs| - 1];
      StillMissing(es, front, fp, id);
      assert es + fs == es + front + [e];
      RunOne(es + front, e);
    }
  }

  /**
   A connection that has been pinged and has not answered is replaced by the next newcomer,
   whatever the two session IDs and however well it was announced.
   */
  lemma MissingIsReplaced(es: seq<Event>, fp: string, fs: seq<Event>, id': uint64)
    requires fp in Run(es)
    requires var id := Run(es)[fp].id; forall e <- fs :: e != PongCame(fp, id) && !(e.Arrives? && e.fp == fp)
    ensures var t := Run(es + [PingDue(fp, Run(es)[fp].id)] + fs + [Arrives(fp, id')]);
            fp in t && t[fp] == Slot(id', false, 0)
  {
    var id := Run(es)[fp].id;
    var pinged := es + [PingDue(fp, id)];
    RunOne(es, PingDue(fp, id));
    StillMissing(pinged, fs, fp, id);
    RunOne(pinged + fs, Arrives(fp, id'));
  }

  /** An announced connection that answers is left alone by every newcomer, until it is pinged again or fails. */
  lemma {:induction false} AnnouncedStays(es: seq<Event>, fs: seq<Event>, fp: string, id: uint64)
    requires fp in Run(es) && Run(es)[fp] == Slot(id, true, 0)
    requires PingDue(fp, id) !in fs && Fails(fp, id) !in fs
    ensures fp in Run(es + fs) && Run(es + fs)[fp] == Slot(id, true, 0)
  {
    if fs == [] {
      assert es + fs == es;
    } else {
      var front, e := fs[..|fs| - 1], fs[|fs| - 1];
      AnnouncedStays(es, front, fp, id);
      assert es + fs == es + front + [e];
      RunOne(es + front, e);
    }
  }

  function Arrivals(cs: seq<Link>): (es: seq<Event>)
    ensures |es| == |cs|
  {
    seq(|cs|, i requires 0 <= i < |cs| => Arrives(cs[i].fp, cs[i].id))
  }

  /** While connections only arrive, the run keeps those of the table. */
  lemma {:induction false} ArrivalsRegister(cs: seq<Link>)
    ensures var t, kept := Run(Arrivals(cs)), RegisterAll(cs).kept;
            t.Keys == kept.Keys && forall fp | fp in kept :: t[fp] == Slot(kept[fp], false, 0)
  {
    if cs == [] {
    } else {
      var front, c := cs[..|cs| - 1], cs[|cs| - 1];
      ArrivalsRegister(front);
      assert Arrivals(cs) == Arrivals(front) + [Arrives(c.fp, c.id)];
      RunOne(Arrivals(front), Arrives(c.fp, c.id));
    }
  }

  // ---- The manager ----

  class Conn {
    const fp: string
    const name: string
    const sessionID: uint64
    /** Torn down: the session and the transport are closed. */
    var closed: bool
    var announced: bool
    /** Pings sent since the last pong. */
    var unanswered: nat

    constructor (fp: string, name: string, sessionID: uint64)
      ensures this.fp == fp && this.name == name && this.sessionID == sessionID
      ensures !closed && !announced && unanswered == 0
    {
      this.fp, this.name, this.sessionID := fp, name, sessionID;
      closed, announced, unanswered := false, false, 0;
    }

    /** Tears the connection down, once. */
    method Close()
      modifies this`closed
      ensures closed
    {
      if !closed {
        closed := true;
      }
    }
  }

  /** Whether a newcomer replaces the connection already there. */
  predicate PreferNew(old_: Conn, new_: Conn)
    reads old_
  {
    old_.unanswered > 0 || new_.sessionID < old_.sessionID
  }

  class Manager {
    var conns: map<string, Conn>
    var byName: map<string, Conn>

    ghost predicate Valid()
      reads this
    {
      forall fp | fp in conns :: conns[fp].fp == fp
    }

    ghost function Held(): set<Conn>
      reads this
    {
      set fp | fp in conns :: conns[fp]
    }

    /** Valid, and no current connection is torn down. */
    ghost predicate Live()
      reads this, Held()
    {
      Valid() && forall fp | fp in conns :: !conns[fp].closed
    }

    ghost function View(): Slots
      reads this, Held()
    {
      map fp | fp in conns :: Slot(conns[fp].sessionID, conns[fp].announced, conns[fp].unanswered)
    }

    /** A session ID tells the current connection to a peer from c. */
    ghost predicate Told(c: Conn)
      reads this
    {
      c.fp in conns && conns[c.fp].sessionID == c.sessionID ==> conns[c.fp] == c
    }

    static ghost function LinkOf(c: Conn): Link {
      Link(c.fp, c.sessionID)
    }

    /** The session ID kept for each peer. */
    ghost function Kept(): map<string, uint64>
      reads this
    {
      map fp | fp in conns :: conns[fp].sessionID
    }

    constructor ()
      ensures Valid() && Kept() == map[]
    {
      conns, byName := map[], map[];
    }

    /** Stores the connection unless the one already there is to stay; a replaced one is closed. */
    method Register(c: Conn) returns (kept: bool)
      requires c.fp in conns ==> conns[c.fp] != c
      modifies this`conns, this`byName, (if c.fp in conns then {conns[c.fp]} else {})`closed
      ensures c.fp !in old(conns) ==> kept
      ensures c.fp in old(conns) ==>
                var o := old(conns)[c.fp];
                && (old(o.unanswered) > 0 ==> kept)
                && (old(o.unanswered) == 0 && old(o.announced) ==> !kept)
                && (old(o.unanswered) == 0 && !old(o.announced) ==> (kept <==> c.sessionID < o.sessionID))
      ensures !kept ==> conns == old(conns) && byName == old(byName)
      ensures kept ==> conns == old(conns)[c.fp := c] && byName == old(byName)[c.name := c]
      ensures c.fp in old(conns) ==>
                var o := old(conns)[c.fp];
                o.closed == (kept || old(o.closed))
      ensures !c.announced && c.unanswered == 0 ==> View() == Step(old(View()), Arrives(c.fp, c.sessionID))
    {
      hide Step;
      Arriving(View(), c.fp, c.sessionID);
      if c.fp in conns {
        var o := conns[c.fp];
        if o.announced && o.unanswered == 0 {
          return false;
        }
        if !PreferNew(o, c) {
          return false;
        }
        o.Close();
      }
      conns := conns[c.fp := c];
      byName := byName[c.name := c];
      return true;
    }

    /** Fresh: open, not yet announced, no keepalive missed. */
    static ghost predicate Fresh(c: Conn)
      reads c
    {
      !c.closed && !c.announced && c.unanswered == 0
    }

    /** Registers a freshly authenticated connection; of two to one peer exactly the losing one is closed. */
    method Establish(c: Conn) returns (ghost loser: Conn?)
      requires Valid() && c !in Held() && Fresh(c)
      modifies this`conns, this`byName, c`closed, (if c.fp in conns then {conns[c.fp]} else {})`closed
      ensures Valid() && View() == Step(old(View()), Arrives(c.fp, c.sessionID))
      ensures loser == null <==> c.fp !in old(conns)
      ensures loser != null ==> loser in {c, old(conns)[c.fp]} && loser.closed
      ensures conns == if loser == c then old(conns) else old(conns)[c.fp := c]
      ensures c.closed <==> loser == c
      ensures loser == c ==> conns[c.fp].closed == old(conns[c.fp].closed)
      ensures c.fp in old(conns) && old(Fresh(conns[c.fp])) ==>
                (loser == c <==> old(conns)[c.fp].sessionID <= c.sessionID)
    {
      hide Step, View;
      ghost var o: Conn? := if c.fp in conns then conns[c.fp] else null;
      var kept := Register(c);
      loser := if kept then o else c;
      if !kept {
        c.Close();
      }
    }

    /** While nothing is announced and nothing misses a keepalive, the session IDs move as RegisterSpec says. */
    method Adopt(c: Conn) returns (ghost loser: Conn?)
      requires Valid() && c !in Held() && Fresh(c)
      requires c.fp in conns ==> Fresh(conns[c.fp])
      modifies this`conns, this`byName, c`closed, (if c.fp in conns then {conns[c.fp]} else {})`closed
      ensures Valid()
      ensures var t := RegisterSpec(Table(old(Kept()), {}), LinkOf(c));
              Kept() == t.kept && t.closed == if loser == null then {} else {LinkOf(loser)}
      ensures c.fp in conns && !conns[c.fp].closed && conns[c.fp].fp == c.fp
      ensures loser == null <==> c.fp !in old(conns)
      ensures loser != null ==> loser in {c, old(conns)[c.fp]} && loser.closed
      ensures conns == if loser == c then old(conns) else old(conns)[c.fp := c]
      ensures c.closed <==> loser == c
    {
      hide Step, RegisterSpec, View, Kept;
      SlotsTold();
      ArrivingFresh(View(), Kept(), c.fp, c.sessionID);
      loser := Establish(c);
      SlotsTold();
    }

    lemma SlotsTold()
      ensures Kept().Keys == View().Keys == conns.Keys
      ensures forall fp | fp in conns ::
                && View()[fp] == Slot(conns[fp].sessionID, conns[fp].announced, conns[fp].unanswered)
                && Kept()[fp] == conns[fp].sessionID
    {
    }

    static ghost function Links(cs: seq<Conn>): (ls: seq<Link>)
      ensures |ls| == |cs| && forall i | 0 <= i < |cs| :: ls[i] == LinkOf(cs[i])
    {
      seq(|cs|, i requires 0 <= i < |cs| => LinkOf(cs[i]))
    }

    /** The first n connections are registered, each closed unless it is the one kept; the others are untouched. */
    ghost predicate Settled(cs: seq<Conn>, n: nat)
      requires n <= |cs|
      reads this, cs
    {
      && Valid() && Kept() == RegisterAll(Links(cs)[..n]).kept
      && (forall fp | fp in conns :: conns[fp] in cs[..n])
      && (forall i | 0 <= i < n :: cs[i].fp in conns && (cs[i].closed <==> conns[cs[i].fp] != cs[i]))
      && (forall i | 0 <= i < |cs| :: !cs[i].announced && cs[i].unanswered == 0)
      && (forall i | n <= i < |cs| :: !cs[i].closed)
    }

    method AdoptNext(cs: seq<Conn>, n: nat)
      requires n < |cs| && Distinct(Links(cs)) && Settled(cs, n)
      modifies this, cs
      ensures Settled(cs, n + 1)
    {
      hide RegisterAll, RegisterSpec, Links, Step, View;
      var c := cs[n];
      assert c !in cs[..n] by {
        assert forall i | 0 <= i < n :: Links(cs)[i] != Links(cs)[n];
      }
      KeptNext(Links(cs), n);
      ghost var loser := Adopt(c);
    }

    /** A registered connection is closed exactly when the table closes its link. */
    lemma SettledClosed(cs: seq<Conn>, c: Conn)
      requires Distinct(Links(cs)) && Settled(cs, |cs|) && c in cs
      ensures c.closed <==> LinkOf(c) in RegisterAll(Links(cs)).closed
    {
      var links := Links(cs);
      assert links[..|cs|] == links;
      KeepsSmallest(links);
      var i :| 0 <= i < |cs| && cs[i] == c;
      assert links[i] == LinkOf(c) && LinkOf(c) in links;
      var j :| 0 <= j < |cs| && cs[j] == conns[c.fp];
      assert links[j] == Link(c.fp, Kept()[c.fp]);
    }

    /**
     Adopts connections one after the other: whatever their order, the table is that of
     RegisterAll, and a connection is closed exactly when the table closes its link.
     */
    method AdoptAll(cs: seq<Conn>)
      requires Valid() && conns == map[] && Distinct(Links(cs)) && forall i | 0 <= i < |cs| :: Fresh(cs[i])
      modifies this, cs
      ensures Valid() && Kept() == RegisterAll(Links(cs)).kept
      ensures forall c <- cs :: c.closed <==> LinkOf(c) in RegisterAll(Links(cs)).closed
    {
      for n := 0 to |cs|
        invariant Settled(cs, n)
      {
        AdoptNext(cs, n);
      }
      assert Links(cs)[..|cs|] == Links(cs);
      forall c <- cs
        ensures c.closed <==> LinkOf(c) in RegisterAll(Links(cs)).closed
      {
        SettledClosed(cs, c);
      }
    }

    /** Tells the user of a connection, once, and only while it is the current one. */
    method Announce(c: Conn) returns (told: bool)
      requires Live() && Told(c)
      modifies c`announced
      ensures Live() && View() == Step(old(View()), Announces(c.fp, c.sessionID))
      ensures told <==> !c.closed && c.fp in conns && conns[c.fp] == c && !old(c.announced)
    {
      if c.closed {
        return false;
      }
      if c.fp !in conns || conns[c.fp] != c || c.announced {
        return false;
      }
      c.announced := true;
      return true;
    }

    /** One tick of the keepalive loop: a connection that missed three pings is dropped. */
    method Keepalive(c: Conn) returns (dropped: bool)
      requires Live() && Told(c)
      modifies this`conns, this`byName, c
      ensures Live() && View() == Step(old(View()), PingDue(c.fp, c.sessionID))
      ensures dropped <==> old(c.unanswered) >= 3
      ensures c.closed == (old(c.closed) || dropped)
    {
      hide Step;
      Count(c);
      if c.unanswered > KEEPALIVE_MISSES {
        PingDrops(old(View()), c.fp, c.sessionID, old(c.unanswered));
        DropConn(c);
        return true;
      }
      PingCounts(old(View()), c.fp, c.sessionID, old(c.unanswered));
      return false;
    }

    method Count(c: Conn)
      requires Live() && Told(c)
      modifies c`unanswered
      ensures Live() && Told(c) && c.unanswered == old(c.unanswered) + 1
      ensures var s := Slot(c.sessionID, c.announced, old(c.unanswered));
              if c.fp in conns && conns[c.fp] == c
              then old(View())[c.fp] == s && View() == old(View())[c.fp := s.(unanswered := c.unanswered)]
              else !Current(old(View()), PingDue(c.fp, c.sessionID)) && View() == old(View())
    {
      c.unanswered := c.unanswered + 1;
    }

    method Pong(c: Conn)
      requires Live() && Told(c)
      modifies c`unanswered
      ensures Live() && View() == Step(old(View()), PongCame(c.fp, c.sessionID))
    {
      c.unanswered := 0;
    }

    /** Removes the connection if it is still the current one for its peer. */
    method Unregister(c: Conn)
      modifies this`conns, this`byName
      ensures c.fp in old(conns) && old(conns)[c.fp] == c ==>
                && conns == old(conns) - {c.fp}
                && byName ==
                     if c.name in old(byName) && old(byName)[c.name] == c then old(byName) - {c.name} else old(byName)
      ensures !(c.fp in old(conns) && old(conns)[c.fp] == c) ==> conns == old(conns) && byName == old(byName)
    {
      if c.fp in conns && conns[c.fp] == c {
        conns := conns - {c.fp};
        if c.name in byName && byName[c.name] == c {
          byName := byName - {c.name};
        }
      }
    }

    /** A connection already torn down, say because a better one replaced it, drops nothing. */
    method DropConn(c: Conn)
      modifies this`conns, this`byName, c`closed
      ensures c.closed
      ensures old(Live() && Told(c)) ==> Live() && View() == Step(old(View()), Fails(c.fp, c.sessionID))
      ensures old(c.closed) ==> conns == old(conns) && byName == old(byName)
      ensures forall fp | fp in old(conns) && old(conns)[fp] != c :: fp in conns && conns[fp] == old(conns)[fp]
      ensures conns.Keys <= old(conns).Keys
    {
      if !c.closed {
        c.closed := true;
        Unregister(c);
      }
    }
  }
}
