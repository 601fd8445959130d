/**
 Two sessions over an ordered, loss-free link: each side receives the other's frames in
 the order they were sealed, with any interleaving of the two directions.
 */
module InOrder {
  import opened Words
  import opened Bytes
  import opened Crypto
  import opened Frames
  import opened Spec = SessionSpec
  import opened Channel
  import EpochDrift
  import ReplayWindow

  /** One end: the party, how many peer frames it was handed, and that count at each of its own sealings. */
  datatype End = End(party: Party, got: nat, gotAt: seq<nat>)

  datatype Link = Link(initiator: End, responder: End, ledger: Ledger) {
    function At(side: bool): End {
      if side then initiator else responder
    }

    function With(side: bool, e: End): Link {
      if side then this.(initiator := e) else this.(responder := e)
    }
  }

  datatype Action =
    | Send(side: bool, typ: byte, plaintext: Bytes, blob: Bytes)
    | Receive(side: bool)

  /** Callers seal known types and payloads that fit; a receive needs a frame in flight. */
  predicate Enabled(l: Link, a: Action) {
    match a
    case Send(_, typ, plaintext, blob) =>
      KnownType(typ) && |plaintext| <= MAX_PLAINTEXT && |blob| == NONCE_SIZE + |plaintext| + TAG_SIZE
    case Receive(side) => l.At(side).got < |l.At(!side).party.log|
  }

  /** The bytes the peer sealed as its n-th frame. */
  function Wire(p: Party, n: nat): Bytes
    requires n < |p.log|
  {
    Marshal(FrameOf(p.state.id, n % TWO_64, p.log[n]))
  }

  ghost function Act(l: Link, a: Action): Link {
    var e := l.At(a.side);
    if !Enabled(l, a) then l
    else match a
      case Send(side, typ, plaintext, blob) =>
        l.With(side, End(SealStep(e.party, typ, plaintext, blob), e.got, e.gotAt + [e.got]))
         .(ledger := l.ledger[SealedEntry(e.party.state, typ, blob) := plaintext])
      case Receive(side) =>
        l.With(side, e.(party := OpenStep(e.party, l.ledger, Wire(l.At(!side).party, e.got)), got := e.got + 1))
  }

  function Begin(root: Secret, id: uint64): Link {
    Link(End(Party(Initial(root, id, true), [], []), 0, []), End(Party(Initial(root, id, false), [], []), 0, []), map[])
  }

  /** The link after any interleaving of sends and receives. */
  ghost function Play(root: Secret, id: uint64, acts: seq<Action>): Link {
    if acts == [] then Begin(root, id)
    else Act(Play(root, id, acts[..|acts| - 1]), acts[|acts| - 1])
  }

  /** Frames both sides have sealed. */
  function Total(l: Link): nat {
    |l.initiator.party.log| + |l.responder.party.log|
  }

  const MAX_SENT := TWO_64 - 1

  /** Both sides still have an epoch to move to. */
  predicate EpochsLeft(l: Link) {
    l.initiator.party.state.epoch + 1 < TWO_32 && l.responder.party.state.epoch + 1 < TWO_32
  }

  /** At no point of the play has a 32-bit epoch run out. */
  ghost predicate NoneRunsOut(root: Secret, id: uint64, acts: seq<Action>) {
    forall k | 0 <= k <= |acts| :: EpochsLeft(Play(root, id, acts[..k]))
  }

  lemma NoneRunsOutBefore(root: Secret, id: uint64, acts: seq<Action>, n: nat)
    requires n <= |acts| && NoneRunsOut(root, id, acts)
    ensures NoneRunsOut(root, id, acts[..n]) && EpochsLeft(Play(root, id, acts[..n]))
  {
    hide EpochsLeft, Play;
    forall k | 0 <= k <= n
      ensures EpochsLeft(Play(root, id, acts[..n][..k]))
    {
      assert acts[..n][..k] == acts[..k];
    }
  }

  // ---- What every play keeps ----

  function Skeleton(e: End): EpochDrift.Side {
    EpochDrift.Side(e.party.state.epoch, seq(|e.party.log|, i requires 0 <= i < |e.party.log| => e.party.log[i].epoch),
                    e.got, e.gotAt)
  }

  lemma SkeletonParts(e: End)
    ensures |Skeleton(e).log| == |e.party.log|
    ensures forall i | 0 <= i < |e.party.log| :: Skeleton(e).log[i] == e.party.log[i].epoch
    ensures Skeleton(e).epoch == e.party.state.epoch && Skeleton(e).got == e.got && Skeleton(e).gotAt == e.gotAt
  {
  }

  lemma SendSkeleton(e: End, typ: byte, plaintext: Bytes, blob: Bytes)
    requires e.party.state.sendSeq == |e.party.log| && e.party.state.epoch + 1 < TWO_32
    ensures Skeleton(End(SealStep(e.party, typ, plaintext, blob), e.got,
                         e.gotAt + [e.got])) == EpochDrift.Sends(Skeleton(e))
  {
  }

  lemma ReceiveSkeleton(e: End, e': End, from: End)
    requires e.got < |from.party.log|
    requires e'.got == e.got + 1 && e'.gotAt == e.gotAt && e'.party.log == e.party.log
    requires e'.party.state.epoch == EpochDrift.Max(e.party.state.epoch, from.party.log[e.got].epoch)
    ensures e.got < |Skeleton(from).log| && Skeleton(e') == EpochDrift.Receives(Skeleton(e), Skeleton(from))
  {
  }

  /** A frame as callers may seal it, on record. */
  ghost predicate Logged(root: Secret, id: uint64, side: bool, ledger: Ledger, n: uint64, m: Sent) {
    KnownType(m.typ) && |m.blob| == NONCE_SIZE + |m.plaintext| + TAG_SIZE && Recorded(root, id, side, ledger, n, m)
  }

  ghost predicate Sane(root: Secret, id: uint64, side: bool, e: End, ledger: Ledger) {
    && Counted(root, id, side, e.party, MAX_SENT) && !e.party.state.closed && Blocks(e.party)
    && (forall n <- e.party.state.accepted :: n < e.got)
    && (forall n | 0 <= n < |e.party.log| :: Logged(root, id, side, ledger, n, e.party.log[n]))
  }

  ghost predicate Inv(root: Secret, id: uint64, l: Link) {
    && Total(l) <= MAX_SENT && EpochsLeft(l)
    && Sane(root, id, true, l.initiator, l.ledger) && Sane(root, id, false, l.responder, l.ledger)
    && EpochDrift.Inv(Skeleton(l.initiator), Skeleton(l.responder))
  }

  lemma LogsSurvive(root: Secret, id: uint64, l: Link, a: Action, from: bool, n: nat)
    requires Inv(root, id, l) && a.Send? && Enabled(l, a) && n < |l.At(from).party.log|
    ensures Logged(root, id, from, Act(l, a).ledger, n, l.At(from).party.log[n])
  {
    hide EntryOf, Header, Blocks, EpochDrift.Inv, SealedEntry;
    NewKey(root, id, a.side, l.At(a.side).party, a.typ, a.blob, from, n, l.At(from).party.log[n], MAX_SENT);
  }

  lemma SendSane(root: Secret, id: uint64, l: Link, a: Action, from: bool)
    requires Inv(root, id, l) && a.Send? && Enabled(l, a) && Total(l) < MAX_SENT
    ensures Sane(root, id, from, Act(l, a).At(from), Act(l, a).ledger)
  {
    hide Logged, Blocks, EpochDrift.Inv, Skeleton, SealedEntry;
    var l' := Act(l, a);
    var e, e' := l.At(from), l'.At(from);
    assert Counted(root, id, from, e'.party, MAX_SENT) && Blocks(e'.party) by {
      if from == a.side {
        BlocksSeal(e.party, a.typ, a.plaintext, a.blob);
      }
    }
    forall n: nat | n < |e'.party.log|
      ensures Logged(root, id, from, l'.ledger, n, e'.party.log[n])
    {
      if n < |e.party.log| {
        LogsSurvive(root, id, l, a, from, n);
      } else {
        SentIsLogged(root, id, l, a);
      }
    }
  }

  lemma SendKeeps(root: Secret, id: uint64, l: Link, a: Action)
    requires Inv(root, id, l) && a.Send? && Enabled(l, a) && Total(l) < MAX_SENT && EpochsLeft(Act(l, a))
    ensures Inv(root, id, Act(l, a))
  {
    hide Sane, EpochDrift.Inv;
    var l' := Act(l, a);
    SendSane(root, id, l, a, true);
    SendSane(root, id, l, a, false);
    SendDrift(root, id, l, a);
  }

  lemma SendDrift(root: Secret, id: uint64, l: Link, a: Action)
    requires Inv(root, id, l) && a.Send? && Enabled(l, a)
    ensures EpochDrift.Inv(Skeleton(Act(l, a).initiator), Skeleton(Act(l, a).responder))
  {
    hide Logged, Blocks, EpochDrift.Inv, EpochDrift.Sends, Skeleton, SealStep;
    var x, y := l.At(a.side), l.At(!a.side);
    SendSkeleton(x, a.typ, a.plaintext, a.blob);
    DriftSymmetric(l, a.side);
    EpochDrift.SendKeeps(Skeleton(x), Skeleton(y));
    DriftSymmetric(Act(l, a), a.side);
  }

  lemma SentIsLogged(root: Secret, id: uint64, l: Link, a: Action)
    requires Inv(root, id, l) && a.Send? && Enabled(l, a)
    ensures Logged(root, id, a.side, Act(l, a).ledger, |l.At(a.side).party.log|,
                   Act(l, a).At(a.side).party.log[|l.At(a.side).party.log|])
  {
    hide Blocks, Recorded, SealedEntry;
    SealRecords(root, id, a.side, l.At(a.side).party, a.typ, a.plaintext, a.blob, l.ledger, MAX_SENT);
  }

  lemma DriftSymmetric(l: Link, side: bool)
    ensures EpochDrift.Inv(Skeleton(l.At(side)), Skeleton(l.At(!side)))
       <==> EpochDrift.Inv(Skeleton(l.initiator), Skeleton(l.responder))
  {
    hide Skeleton, EpochDrift.Half;
  }

  ghost predicate Opens(l: Link, side: bool)
    requires Enabled(l, Receive(side))
  {
    var m := l.At(!side).party.log[l.At(side).got];
    Open(l.At(side).party.state, l.ledger, Wire(l.At(!side).party, l.At(side).got)).result == Ok((m.typ, m.plaintext))
  }

  /** What opening frame m with number n does to a receiver in state s. */
  function Outcome(s: State, n: uint64, m: Sent): Opened {
    if s.epoch > m.epoch + 1 then Opened(s, Err(BadEpoch))
    else Opened((if m.epoch > s.epoch then Install(s, m.epoch) else s).(accepted := s.accepted + {n}),
                Ok((m.typ, m.plaintext)))
  }

  /** A logged frame one epoch ahead at most opens, unless the receiver has moved two epochs past it. */
  lemma LoggedOpens(root: Secret, id: uint64, side: bool, p: Party, ledger: Ledger, n: uint64, m: Sent)
    requires Counted(root, id, side, p, MAX_SENT) && !p.state.closed && (p.state.hasOld <==> p.state.epoch > 0)
    requires Logged(root, id, !side, ledger, n, m)
    requires m.epoch <= p.state.epoch + 1 < TWO_32
    requires ReplayWindow.Fresh(p.state.accepted, n)
    ensures Open(p.state, ledger, Marshal(FrameOf(id, n, m))) == Outcome(p.state, n, m)
  {
    hide ChainKey, MessageKey, Header, Parse, Marshal, ReplayWindow.Fresh;
    var s, f := p.state, FrameOf(id, n, m);
    ParseOfMarshal(f);
    assert EpochAccepted(s, m.epoch) <==> s.epoch <= m.epoch + 1;
    assert Entry(RecvKey(s, f), Header(f), f.blob) == EntryOf(root, id, !side, n, m);
  }

  /** The next frame is at most one epoch ahead of its receiver, and opening it has that outcome. */
  lemma NextFrame(root: Secret, id: uint64, l: Link, side: bool)
    requires Inv(root, id, l) && Enabled(l, Receive(side)) && l.At(side).got < TWO_64
    ensures var x, y := l.At(side), l.At(!side);
            var s, m := x.party.state, y.party.log[x.got];
            && m.epoch <= s.epoch + 1 < TWO_32
            && Open(s, l.ledger, Wire(y.party, x.got)) == Outcome(s, x.got, m)
  {
    hide Logged, Open, Marshal, Outcome, Skeleton, EpochDrift.Inv;
    var x, y := l.At(side), l.At(!side);
    SkeletonParts(x);
    SkeletonParts(y);
    DriftSymmetric(l, side);
    EpochDrift.NeverTwoAhead(Skeleton(x), Skeleton(y));
    LoggedOpens(root, id, side, x.party, l.ledger, x.got, y.party.log[x.got]);
  }

  lemma ReceiveKeeps(root: Secret, id: uint64, l: Link, a: Action)
    requires Inv(root, id, l) && a.Receive? && Enabled(l, a)
    ensures EpochsLeft(Act(l, a)) ==> Inv(root, id, Act(l, a))
  {
    hide Logged, Blocks, EpochDrift.Inv, EpochDrift.Receives, Skeleton, Open, Wire;
    var side, l' := a.side, Act(l, a);
    var x, x', y := l.At(side), l'.At(side), l.At(!side);
    NextFrame(root, id, l, side);
    BlocksOpen(x.party, l.ledger, Wire(y.party, x.got));
    SkeletonParts(x);
    ReceiveSkeleton(x, x', y);
    DriftSymmetric(l, side);
    EpochDrift.ReceiveKeeps(Skeleton(x), Skeleton(y));
    DriftSymmetric(l', side);
  }

  lemma ActKeeps(root: Secret, id: uint64, l: Link, a: Action)
    requires Inv(root, id, l) && Total(Act(l, a)) <= MAX_SENT && EpochsLeft(Act(l, a))
    ensures Inv(root, id, Act(l, a))
  {
    hide Inv;
    if Enabled(l, a) {
      if a.Send? {
        SendKeeps(root, id, l, a);
      } else {
        ReceiveKeeps(root, id, l, a);
      }
    }
  }

  lemma BeginsSane(root: Secret, id: uint64)
    ensures Inv(root, id, Begin(root, id))
  {
  }

  lemma TotalGrows(l: Link, a: Action)
    ensures Total(l) <= Total(Act(l, a))
  {
    hide Open, Wire, SealedEntry;
  }

  lemma {:induction false} PlayKeeps(root: Secret, id: uint64, acts: seq<Action>)
    requires Total(Play(root, id, acts)) <= MAX_SENT && NoneRunsOut(root, id, acts)
    ensures Inv(root, id, Play(root, id, acts))
  {
    hide Inv, Act, EpochsLeft, Begin, NoneRunsOut;
    if acts == [] {
      BeginsSane(root, id);
    } else {
      var n := |acts| - 1;
      var l := Play(root, id, acts[..n]);
      TotalGrows(l, acts[n]);
      NoneRunsOutBefore(root, id, acts, n);
      PlayKeeps(root, id, acts[..n]);
      NoneRunsOutBefore(root, id, acts, |acts|);
      assert acts[..|acts|] == acts;
      ActKeeps(root, id, l, acts[n]);
    }
  }

  // ---- The theorems ----

  /**
   In every interleaving, the next frame is never more than one epoch ahead of its
   receiver, and it opens to what was sealed exactly when the receiver is at most one
   epoch ahead of it.
   */
  lemma DeliveryIff(root: Secret, id: uint64, acts: seq<Action>, side: bool)
    requires Total(Play(root, id, acts)) <= MAX_SENT && NoneRunsOut(root, id, acts)
    requires Enabled(Play(root, id, acts), Receive(side))
    ensures var l := Play(root, id, acts);
            var m := l.At(!side).party.log[l.At(side).got];
            && m.epoch <= l.At(side).party.state.epoch + 1
            && (Opens(l, side) <==> l.At(side).party.state.epoch <= m.epoch + 1)
  {
    PlayKeeps(root, id, acts);
    NextFrame(root, id, Play(root, id, acts), side);
  }

  /** How many of the receiver's own frames the sender had not been handed when it sealed the next frame. */
  function Unseen(l: Link, side: bool): int {
    var x, y := l.At(side), l.At(!side);
    |x.party.log| - if x.got < |y.gotAt| then y.gotAt[x.got] else 0
  }

  /** A frame opens whenever at most 1000 frames of its receiver were unseen when it was sealed. */
  lemma RecentFrameOpens(root: Secret, id: uint64, acts: seq<Action>, side: bool)
    requires Total(Play(root, id, acts)) <= MAX_SENT && NoneRunsOut(root, id, acts)
    requires Enabled(Play(root, id, acts), Receive(side))
    requires Unseen(Play(root, id, acts), side) <= ROTATION_INTERVAL
    ensures Opens(Play(root, id, acts), side)
  {
    hide Sane, Skeleton, Play, Open, EpochDrift.Inv;
    var l := Play(root, id, acts);
    PlayKeeps(root, id, acts);
    SkeletonParts(l.At(side));
    SkeletonParts(l.At(!side));
    NextFrame(root, id, l, side);
    DriftSymmetric(l, side);
    EpochDrift.CountsRecorded(Skeleton(l.At(side)), Skeleton(l.At(!side)));
    EpochDrift.AtMostOneBehind(Skeleton(l.At(side)), Skeleton(l.At(!side)));
  }

  /** Each epoch lies between the side's own rotations and the rotations of both sides. */
  lemma EpochBounds(root: Secret, id: uint64, acts: seq<Action>, side: bool)
    requires Total(Play(root, id, acts)) <= MAX_SENT && NoneRunsOut(root, id, acts)
    ensures var l := Play(root, id, acts);
            var own := EpochDrift.Rotations(|l.At(side).party.log|);
            var other := EpochDrift.Rotations(|l.At(!side).party.log|);
            own <= l.At(side).party.state.epoch <= own + other
  {
    hide Sane, Skeleton, Play, NoneRunsOut;
    var l := Play(root, id, acts);
    PlayKeeps(root, id, acts);
    SkeletonParts(l.At(side));
    SkeletonParts(l.At(!side));
    DriftSymmetric(l, side);
  }

  /** An action moves an epoch up by one at most, or past its end. */
  lemma ActEpoch(l: Link, a: Action, side: bool)
    ensures var n, n' := l.At(side).party.state.epoch, Act(l, a).At(side).party.state.epoch; n' == n || n' == Next32(n)
  {
    hide Open, Wire, SealedEntry;
    if a.Receive? && Enabled(l, a) {
      OpenChanges(l.At(a.side).party.state, l.ledger, Wire(l.At(!a.side).party, l.At(a.side).got));
    }
  }

  /** While both sides together seal at most 1000 * (2^32 - 2) frames, no epoch runs out. */
  lemma {:induction false} FewFrames(root: Secret, id: uint64, acts: seq<Action>)
    requires Total(Play(root, id, acts)) <= 1000 * (TWO_32 - 2)
    ensures NoneRunsOut(root, id, acts)
  {
    hide Act, Begin;
    if acts == [] {
      assert acts[..0] == [];
      BeginsSane(root, id);
    } else {
      var n := |acts| - 1;
      var front := acts[..n];
      TotalGrows(Play(root, id, front), acts[n]);
      FewFrames(root, id, front);
      FewEpochs(root, id, front, acts[n]);
      hide Play, EpochsLeft;
      forall k | 0 <= k <= |acts|
        ensures EpochsLeft(Play(root, id, acts[..k]))
      {
        if k <= n {
          assert front[..k] == acts[..k];
        } else {
          assert acts[..k] == acts;
        }
      }
    }
  }

  lemma FewEpochs(root: Secret, id: uint64, acts: seq<Action>, a: Action)
    requires Total(Play(root, id, acts)) <= 1000 * (TWO_32 - 2) && NoneRunsOut(root, id, acts)
    ensures EpochsLeft(Act(Play(root, id, acts), a))
  {
    hide Act, Play, NoneRunsOut;
    var l := Play(root, id, acts);
    EpochBounds(root, id, acts, true);
    EpochBounds(root, id, acts, false);
    ActEpoch(l, a, true);
    ActEpoch(l, a, false);
  }

  // ---- The bound of 1000 cannot be raised ----

  function Ping(side: bool): Action {
    Send(side, TYPE_PING, [], seq(NONCE_SIZE + TAG_SIZE, _ => 0))
  }

  /** k pings by the initiator, each handed to the responder at once. */
  function Echoed(k: nat): seq<Action> {
    if k == 0 then [] else Echoed(k - 1) + [Ping(true)] + [Receive(false)]
  }

  /** A thousand answered pings, one frame by the responder, then k more pings. */
  function Script(k: nat): seq<Action> {
    if k == 0 then Echoed(1000) + [Ping(false)] else Script(k - 1) + [Ping(true)]
  }

  lemma PlayOne(root: Secret, id: uint64, acts: seq<Action>, a: Action)
    ensures Play(root, id, acts + [a]) == Act(Play(root, id, acts), a)
  {
    assert (acts + [a])[..|acts|] == acts;
  }

  lemma SendCounts(l: Link, a: Action)
    requires a.Send? && Enabled(l, a)
    ensures var e, e' := l.At(a.side), Act(l, a).At(a.side);
            && |e'.party.log| == |e.party.log| + 1 && e'.got == e.got && e'.gotAt == e.gotAt + [e.got]
            && e'.party.log[|e.party.log|].epoch == Rotated(e.party.state).epoch
            && Act(l, a).At(!a.side) == l.At(!a.side)
  {
    hide SealedEntry;
  }

  lemma ReceiveCounts(l: Link, a: Action)
    requires a.Receive? && Enabled(l, a)
    ensures var e, e' := l.At(a.side), Act(l, a).At(a.side);
            && e'.party.log == e.party.log && e'.got == e.got + 1 && e'.gotAt == e.gotAt
            && e'.party.state.sendSeq == e.party.state.sendSeq
            && Act(l, a).At(!a.side) == l.At(!a.side)
  {
    hide Open, Wire;
    OpenChanges(l.At(a.side).party.state, l.ledger, Wire(l.At(!a.side).party, l.At(a.side).got));
  }

  lemma PlayNone(root: Secret, id: uint64)
    ensures Play(root, id, []) == Begin(root, id)
  {
  }

  lemma {:induction false} EchoedCounts(root: Secret, id: uint64, k: nat)
    ensures var l := Play(root, id, Echoed(k));
            && |l.initiator.party.log| == k && l.initiator.got == 0
            && |l.responder.party.log| == 0 && l.responder.got == k && l.responder.gotAt == []
            && l.responder.party.state.sendSeq == 0
  {
    hide Act, Play;
    if k == 0 {
      PlayNone(root, id);
    } else {
      EchoedCounts(root, id, k - 1);
      var acts := Echoed(k - 1);
      var l := Play(root, id, acts);
      PlayOne(root, id, acts, Ping(true));
      SendCounts(l, Ping(true));
      PlayOne(root, id, acts + [Ping(true)], Receive(false));
      ReceiveCounts(Act(l, Ping(true)), Receive(false));
    }
  }

  lemma {:induction false} ScriptCounts(root: Secret, id: uint64, k: nat)
    ensures var l := Play(root, id, Script(k));
            && |l.initiator.party.log| == 1000 + k && l.initiator.got == 0
            && |l.responder.party.log| == 1 && l.responder.party.log[0].epoch == 0 && l.responder.gotAt == [1000]
  {
    hide Act, Play;
    if k == 0 {
      var acts := Echoed(1000);
      EchoedCounts(root, id, 1000);
      FewFrames(root, id, acts);
      EpochBounds(root, id, acts, false);
      PlayOne(root, id, acts, Ping(false));
      SendCounts(Play(root, id, acts), Ping(false));
    } else {
      var acts := Script(k - 1);
      ScriptCounts(root, id, k - 1);
      PlayOne(root, id, acts, Ping(true));
      SendCounts(Play(root, id, acts), Ping(true));
    }
  }

  /** With 1001 unseen frames there is a play whose next frame is refused. */
  lemma BoundIsTight(root: Secret, id: uint64)
    ensures var l := Play(root, id, Script(1001));
            && Enabled(l, Receive(true)) && Unseen(l, true) == 1001 && !Opens(l, true)
            && NoneRunsOut(root, id, Script(1001))
  {
    hide Play, Act;
    ScriptCounts(root, id, 1001);
    FewFrames(root, id, Script(1001));
    EpochBounds(root, id, Script(1001), true);
    DeliveryIff(root, id, Script(1001), true);
  }
}
