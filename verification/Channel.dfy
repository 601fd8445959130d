/**
 Two sessions from one handshake over a network that may hand either side any buffer
 at any time: dropped, repeated, reordered, altered or invented frames.
 */
module Channel {
  import opened Words
  import opened Bytes
  import opened Crypto
  import opened Frames
  import opened Spec = SessionSpec
  import EpochDrift
  import ReplayWindow

  /** A sealed frame. The log keeps it at the index of its sequence number. */
  datatype Sent = Sent(typ: byte, plaintext: Bytes, epoch: uint32, blob: Bytes)

  /** A frame that Open returned to its caller. */
  datatype Delivery = Delivery(sequence: uint64, typ: byte, plaintext: Bytes)

  datatype Party = Party(state: State, log: seq<Sent>, delivered: seq<Delivery>)

  datatype World = World(initiator: Party, responder: Party, ledger: Ledger) {
    function At(side: bool): Party {
      if side then initiator else responder
    }

    function With(side: bool, p: Party): World {
      if side then this.(initiator := p) else this.(responder := p)
    }
  }

  datatype Event =
    | SealEvent(side: bool, typ: byte, plaintext: Bytes, blob: Bytes)
    | OpenEvent(side: bool, buf: Bytes)
    | CloseEvent(side: bool)

  function SealStep(p: Party, typ: byte, plaintext: Bytes, blob: Bytes): Party {
    p.(state := SealedState(p.state), log := p.log + [Sent(typ, plaintext, Rotated(p.state).epoch, blob)])
  }

  ghost function OpenStep(p: Party, ledger: Ledger, buf: Bytes): Party {
    var o := Open(p.state, ledger, buf);
    if o.result.Ok?
    then p.(state := o.state,
            delivered := p.delivered + [Delivery(Parse(buf).value.sequence, o.result.value.0, o.result.value.1)])
    else p.(state := o.state)
  }

  ghost function Step(w: World, e: Event): World {
    var p := w.At(e.side);
    match e
    case SealEvent(side, typ, plaintext, blob) =>
      if !CanSeal(p.state, plaintext) then w
      else w.With(side, SealStep(p, typ, plaintext, blob))
            .(ledger := w.ledger[SealedEntry(p.state, typ, blob) := plaintext])
    case OpenEvent(side, buf) => w.With(side, OpenStep(p, w.ledger, buf))
    case CloseEvent(side) => w.With(side, p.(state := p.state.(closed := true)))
  }

  function Start(root: Secret, id: uint64): World {
    World(Party(Initial(root, id, true), [], []), Party(Initial(root, id, false), [], []), map[])
  }

  ghost function Run(root: Secret, id: uint64, es: seq<Event>): World {
    if es == [] then Start(root, id)
    else Step(Run(root, id, es[..|es| - 1]), es[|es| - 1])
  }

  // ---- What every run keeps ----

  function KeyOf(root: Secret, side: bool, n: uint64, m: Sent): Secret {
    MessageKey(ChainKey(root, SendDirection(side), m.epoch), n)
  }

  function FrameOf(id: uint64, n: uint64, m: Sent): Frame {
    Frame(m.typ, id, n, m.epoch, m.blob)
  }

  function EntryOf(root: Secret, id: uint64, side: bool, n: uint64, m: Sent): Entry {
    Entry(KeyOf(root, side, n, m), Header(FrameOf(id, n, m)), m.blob)
  }

  /** Sequence numbers are log positions; each party keeps its identity. */
  ghost predicate Counted(root: Secret, id: uint64, side: bool, p: Party, bound: nat) {
    && p.state.root == root && p.state.id == id && p.state.initiator == side
    && p.state.sendSeq == |p.log| <= bound < TWO_64
  }

  /** The ledger entry was made by sealing some logged frame. */
  ghost predicate Explained(root: Secret, id: uint64, w: World, t: Entry)
    requires |w.initiator.log| < TWO_64 && |w.responder.log| < TWO_64
    requires t in w.ledger
  {
    exists side: bool, n: nat | n < |w.At(side).log| ::
      t == EntryOf(root, id, side, n, w.At(side).log[n]) && w.ledger[t] == w.At(side).log[n].plaintext
  }

  /** The delivery is a frame the sender logged under that very number. */
  ghost predicate Authentic(log: seq<Sent>, d: Delivery) {
    d.sequence < |log| && log[d.sequence].typ == d.typ && log[d.sequence].plaintext == d.plaintext
  }

  ghost predicate Distinct(ds: seq<Delivery>) {
    forall i, j | 0 <= i < j < |ds| :: ds[i].sequence != ds[j].sequence
  }

  ghost predicate Faithful(p: Party, log: seq<Sent>) {
    && (forall d <- p.delivered :: Authentic(log, d) && d.sequence in p.state.accepted)
    && Distinct(p.delivered)
  }

  ghost predicate Inv(root: Secret, id: uint64, w: World, bound: nat) {
    && Counted(root, id, true, w.initiator, bound)
    && Counted(root, id, false, w.responder, bound)
    && (forall t <- w.ledger :: Explained(root, id, w, t))
    && Faithful(w.initiator, w.responder.log)
    && Faithful(w.responder, w.initiator.log)
  }

  lemma ExplainedGrows(root: Secret, id: uint64, w: World, w': World, t: Entry)
    requires |w'.initiator.log| < TWO_64 && |w'.responder.log| < TWO_64
    requires w.initiator.log <= w'.initiator.log && w.responder.log <= w'.responder.log
    requires t in w.ledger && t in w'.ledger && w'.ledger[t] == w.ledger[t]
    requires Explained(root, id, w, t)
    ensures Explained(root, id, w', t)
  {
    var side: bool, n: nat :| n < |w.At(side).log| && t == EntryOf(root, id, side, n, w.At(side).log[n])
                              && w.ledger[t] == w.At(side).log[n].plaintext;
    assert w'.At(side).log[n] == w.At(side).log[n];
  }

  lemma SealKeeps(root: Secret, id: uint64, w: World, e: Event, bound: nat)
    requires Inv(root, id, w, bound) && bound + 1 < TWO_64 && e.SealEvent?
    ensures Inv(root, id, Step(w, e), bound + 1)
  {
    hide ChainKey, MessageKey, Header;
    var w' := Step(w, e);
    var p, p' := w.At(e.side), w'.At(e.side);
    if CanSeal(p.state, e.plaintext) {
      var t' := SealedEntry(p.state, e.typ, e.blob);
      var n := |p.log|;
      assert p'.log[n].epoch == Rotated(p.state).epoch;
      assert t' == EntryOf(root, id, e.side, n, p'.log[n]);
      assert w'.ledger[t'] == p'.log[n].plaintext;
      assert n < |w'.At(e.side).log|;
      assert Explained(root, id, w', t');
      forall t <- w'.ledger | t != t'
        ensures Explained(root, id, w', t)
      {
        ExplainedGrows(root, id, w, w', t);
      }
    }
  }

  /** A buffer that opens is a frame the other side sealed, with its type and plaintext. */
  lemma OpenedIsAuthentic(root: Secret, id: uint64, w: World, side: bool, buf: Bytes, bound: nat)
    requires Inv(root, id, w, bound)
    ensures var o := Open(w.At(side).state, w.ledger, buf);
            o.result.Ok? ==> Authentic(w.At(!side).log,
                                       Delivery(Parse(buf).value.sequence, o.result.value.0, o.result.value.1))
  {
    hide ChainKey, MessageKey, Header;
    var s := w.At(side).state;
    if Open(s, w.ledger, buf).result.Ok? {
      var f := Parse(buf).value;
      var t := Entry(RecvKey(s, f), Header(f), f.blob);
      assert Explained(root, id, w, t);
      var from: bool, n: nat :| n < |w.At(from).log| && t == EntryOf(root, id, from, n, w.At(from).log[n])
                                && w.ledger[t] == w.At(from).log[n].plaintext;
      var m := w.At(from).log[n];
      MessageKeyInjective(root, SendDirection(!side), f.rotation, f.sequence, root, SendDirection(from), m.epoch, n);
      HeaderInjective(f, FrameOf(id, n, m));
    }
  }

  lemma OpenFaithful(p: Party, log: seq<Sent>, ledger: Ledger, buf: Bytes)
    requires Faithful(p, log)
    requires var o := Open(p.state, ledger, buf);
             o.result.Ok? ==> Authentic(log, Delivery(Parse(buf).value.sequence, o.result.value.0, o.result.value.1))
    ensures Faithful(OpenStep(p, ledger, buf), log)
  {
    hide Open, Parse, Authentic;
    OpenChanges(p.state, ledger, buf);
  }

  lemma OpenKeeps(root: Secret, id: uint64, w: World, e: Event, bound: nat)
    requires Inv(root, id, w, bound) && bound + 1 < TWO_64 && e.OpenEvent?
    ensures Inv(root, id, Step(w, e), bound + 1)
  {
    hide Open, Parse, EntryOf, Faithful;
    var w' := Step(w, e);
    var p := w.At(e.side);
    OpenChanges(p.state, w.ledger, e.buf);
    if Open(p.state, w.ledger, e.buf).result.Ok? {
      OpenedIsAuthentic(root, id, w, e.side, e.buf, bound);
    }
    OpenFaithful(p, w.At(!e.side).log, w.ledger, e.buf);
    forall t <- w'.ledger
      ensures Explained(root, id, w', t)
    {
      ExplainedGrows(root, id, w, w', t);
    }
  }

  lemma CloseKeeps(root: Secret, id: uint64, w: World, e: Event, bound: nat)
    requires Inv(root, id, w, bound) && bound + 1 < TWO_64 && e.CloseEvent?
    ensures Inv(root, id, Step(w, e), bound + 1)
  {
    hide EntryOf;
    var w' := Step(w, e);
    forall t <- w'.ledger
      ensures Explained(root, id, w', t)
    {
      ExplainedGrows(root, id, w, w', t);
    }
  }

  lemma {:induction false} RunKeeps(root: Secret, id: uint64, es: seq<Event>)
    requires |es| < TWO_64
    ensures Inv(root, id, Run(root, id, es), |es|)
  {
    if es == [] {
    } else {
      var front, e := es[..|es| - 1], es[|es| - 1];
      RunKeeps(root, id, front);
      var w := Run(root, id, front);
      match e
      case SealEvent(_, _, _, _) => SealKeeps(root, id, w, e, |front|);
      case OpenEvent(_, _) => OpenKeeps(root, id, w, e, |front|);
      case CloseEvent(_) => CloseKeeps(root, id, w, e, |front|);
    }
  }

  // ---- The theorems ----

  /**
   Whatever the network does, each sequence number is delivered at most once, and
   everything delivered was sealed by the peer under that number.
   */
  lemma AuthenticOnce(root: Secret, id: uint64, es: seq<Event>, side: bool)
    requires |es| < TWO_64
    ensures var w := Run(root, id, es);
            Distinct(w.At(side).delivered) && forall d <- w.At(side).delivered :: Authentic(w.At(!side).log, d)
  {
    RunKeeps(root, id, es);
  }

  /** Event i of the run seals a frame: it asks for one and is not refused. */
  ghost predicate Seals(root: Secret, id: uint64, es: seq<Event>, i: nat)
    requires i < |es|
  {
    es[i].SealEvent? && CanSeal(Run(root, id, es[..i]).At(es[i].side).state, es[i].plaintext)
  }

  /** The key that event i would seal under. */
  ghost function KeyAt(root: Secret, id: uint64, es: seq<Event>, i: nat): Secret
    requires i < |es|
  {
    SendKey(Run(root, id, es[..i]).At(es[i].side).state)
  }

  lemma StepLog(w: World, e: Event, side: bool)
    ensures |w.At(side).log| <= |Step(w, e).At(side).log|
    ensures e.SealEvent? && e.side == side && CanSeal(w.At(side).state, e.plaintext) ==>
              |Step(w, e).At(side).log| == |w.At(side).log| + 1
  {
    hide Open, SealedEntry;
  }

  lemma {:induction false} LogGrows(root: Secret, id: uint64, es: seq<Event>, i: nat, j: nat, side: bool)
    requires i <= j <= |es|
    ensures |Run(root, id, es[..i]).At(side).log| <= |Run(root, id, es[..j]).At(side).log|
    decreases j
  {
    if i == j {
    } else {
      hide Step;
      LogGrows(root, id, es, i, j - 1, side);
      assert es[..j][..j - 1] == es[..j - 1];
      StepLog(Run(root, id, es[..j - 1]), es[j - 1], side);
    }
  }

  /** Of two sealings by one side, the later has the larger sequence number. */
  lemma SequenceRises(root: Secret, id: uint64, es: seq<Event>, i: nat, j: nat)
    requires i < j < |es| < TWO_64 && Seals(root, id, es, i) && es[i].side == es[j].side
    ensures var side := es[i].side;
            Run(root, id, es[..i]).At(side).state.sendSeq < Run(root, id, es[..j]).At(side).state.sendSeq
  {
    hide Step;
    var side := es[i].side;
    assert es[..i + 1][..i] == es[..i];
    StepLog(Run(root, id, es[..i]), es[i], side);
    LogGrows(root, id, es, i + 1, j, side);
    RunCounted(root, id, es[..i], side);
    RunCounted(root, id, es[..j], side);
  }

  /** No message key seals two frames: not twice in a direction, not in both, in any epochs. */
  lemma KeysNeverReused(root: Secret, id: uint64, es: seq<Event>, i: nat, j: nat)
    requires i < j < |es| < TWO_64 && Seals(root, id, es, i) && Seals(root, id, es, j)
    ensures KeyAt(root, id, es, i) != KeyAt(root, id, es, j)
  {
    hide Run;
    var s, t := Run(root, id, es[..i]).At(es[i].side).state, Run(root, id, es[..j]).At(es[j].side).state;
    RunCounted(root, id, es[..i], es[i].side);
    RunCounted(root, id, es[..j], es[j].side);
    if es[i].side == es[j].side {
      SequenceRises(root, id, es, i, j);
    }
    if KeyAt(root, id, es, i) == KeyAt(root, id, es, j) {
      MessageKeyInjective(root, SendDirection(es[i].side), Rotated(s).epoch, s.sendSeq,
                          root, SendDirection(es[j].side), Rotated(t).epoch, t.sendSeq);
    }
  }

  /** Opening changes at most the epoch, by one, and the accepted set; a failing Open not even that set. */
  lemma OpenChanges(s: State, ledger: Ledger, buf: Bytes)
    ensures var o := Open(s, ledger, buf);
            && (o.state.(accepted := s.accepted) == s
                || o.state.(accepted := s.accepted) == Install(s, Next32(s.epoch)))
            && (o.result.Err? ==> o.state.accepted == s.accepted)
            && (o.result.Ok? ==> o.state.accepted == s.accepted + {Parse(buf).value.sequence}
                                 && Parse(buf).value.sequence !in s.accepted)
  {
    hide Parse, Unseal, RecvKey, Header;
  }

  lemma {:induction false} ClosedStays(root: Secret, id: uint64, es: seq<Event>, fs: seq<Event>, side: bool)
    requires Run(root, id, es).At(side).state.closed
    ensures Run(root, id, es + fs).At(side) == Run(root, id, es).At(side)
  {
    if fs == [] {
      assert es + fs == es;
    } else {
      ClosedStays(root, id, es, fs[..|fs| - 1], side);
      assert (es + fs)[..|es + fs| - 1] == es + fs[..|fs| - 1];
    }
  }

  /** Once closed, a session seals nothing and delivers nothing, whatever follows. */
  lemma ClosedIsFinal(root: Secret, id: uint64, es: seq<Event>, fs: seq<Event>, side: bool)
    ensures var w, w' := Run(root, id, es + [CloseEvent(side)]), Run(root, id, es + [CloseEvent(side)] + fs);
            w'.At(side).log == Run(root, id, es).At(side).log && w'.At(side) == w.At(side)
  {
    var closing := es + [CloseEvent(side)];
    assert closing[..|closing| - 1] == es;
    ClosedStays(root, id, closing, fs, side);
  }

  // ---- Epochs and sequence numbers ----

  /**
   Epochs never fall along the log and rise from each block of 1000 numbers to the
   next; the previous chain exists exactly after the first epoch.
   */
  ghost predicate Blocks(p: Party) {
    && EpochDrift.Rotations(|p.log|) <= p.state.epoch
    && (p.state.hasOld <==> p.state.epoch > 0)
    && (forall i | 0 <= i < |p.log| :: p.log[i].epoch <= p.state.epoch)
    && (forall i, j | 0 <= i < j < |p.log| :: p.log[i].epoch <= p.log[j].epoch)
    && (forall i, j | 0 <= i < j < |p.log| && i / ROTATION_INTERVAL < j / ROTATION_INTERVAL ::
          p.log[i].epoch < p.log[j].epoch)
  }

  lemma BlockOf(n: nat)
    requires n > 0
    ensures n / ROTATION_INTERVAL == (n - 1) / ROTATION_INTERVAL + if RotatesAt(n) then 1 else 0
  {
  }

  /** The next frame has a later epoch than every frame of an earlier block. */
  lemma NewBlock(p: Party, i: nat)
    requires Blocks(p) && p.state.sendSeq == |p.log| && p.state.epoch <= Rotated(p.state).epoch
    requires i < |p.log| && i / ROTATION_INTERVAL < |p.log| / ROTATION_INTERVAL
    ensures p.log[i].epoch < Rotated(p.state).epoch
  {
    var n := |p.log|;
    BlockOf(n);
    if !RotatesAt(n) {
      assert p.log[i].epoch < p.log[n - 1].epoch;
    }
  }

  lemma BlocksSeal(p: Party, typ: byte, plaintext: Bytes, blob: Bytes)
    requires Blocks(p) && p.state.sendSeq == |p.log| && p.state.epoch <= Rotated(p.state).epoch
    ensures Blocks(SealStep(p, typ, plaintext, blob))
  {
    hide ChainKey, MessageKey, Header, SealedEntry;
    var p' := SealStep(p, typ, plaintext, blob);
    var n := |p.log|;
    EpochDrift.RotationsStep(n);
    forall i | 0 <= i < n && i / ROTATION_INTERVAL < n / ROTATION_INTERVAL
      ensures p'.log[i].epoch < p'.log[n].epoch
    {
      NewBlock(p, i);
    }
  }

  lemma BlocksClose(p: Party)
    requires Blocks(p)
    ensures Blocks(p.(state := p.state.(closed := true)))
  {
  }

  lemma BlocksOpen(p: Party, ledger: Ledger, buf: Bytes)
    requires Blocks(p) && p.state.epoch <= OpenStep(p, ledger, buf).state.epoch
    ensures Blocks(OpenStep(p, ledger, buf))
  {
    hide Open, Parse;
    OpenChanges(p.state, ledger, buf);
  }

  /** The event takes the side's 32-bit epoch counter past its end. */
  ghost predicate Wraps(w: World, e: Event, side: bool) {
    w.At(side).state.epoch == TWO_32 - 1 && Step(w, e).At(side).state.epoch == 0
  }

  /** An event raises the epoch by one at most, or wraps it. */
  lemma StepEpoch(w: World, e: Event, side: bool)
    ensures var n, n' := w.At(side).state.epoch, Step(w, e).At(side).state.epoch; n' == n || n' == Next32(n)
  {
    hide Open, Parse, SealedEntry;
    if e.OpenEvent? {
      OpenChanges(w.At(e.side).state, w.ledger, e.buf);
    }
  }

  lemma StepBlocks(w: World, e: Event, side: bool)
    requires Blocks(w.At(side)) && w.At(side).state.sendSeq == |w.At(side).log| && !Wraps(w, e, side)
    ensures Blocks(Step(w, e).At(side))
  {
    hide Blocks, OpenStep, SealedEntry;
    StepEpoch(w, e, side);
    if e.side == side {
      match e
      case SealEvent(_, typ, plaintext, blob) =>
        if CanSeal(w.At(side).state, plaintext) {
          BlocksSeal(w.At(side), typ, plaintext, blob);
        }
      case OpenEvent(_, buf) => BlocksOpen(w.At(side), w.ledger, buf);
      case CloseEvent(_) => BlocksClose(w.At(side));
    }
  }

  /** After wrapping, the first epoch has a predecessor, which it never has otherwise. */
  lemma WrapBreaks(w: World, e: Event, side: bool)
    requires Wraps(w, e, side)
    ensures !Blocks(Step(w, e).At(side))
  {
    hide Open, Parse, SealedEntry;
    if e.OpenEvent? {
      OpenChanges(w.At(e.side).state, w.ledger, e.buf);
    }
  }

  ghost predicate NeverWraps(root: Secret, id: uint64, es: seq<Event>, side: bool) {
    forall k | 0 <= k < |es| :: !Wraps(Run(root, id, es[..k]), es[k], side)
  }

  lemma NeverWrapsBefore(root: Secret, id: uint64, es: seq<Event>, side: bool, n: nat)
    requires n <= |es| && NeverWraps(root, id, es, side)
    ensures NeverWraps(root, id, es[..n], side)
  {
    hide Wraps, Run;
    forall k | 0 <= k < n
      ensures !Wraps(Run(root, id, es[..n][..k]), es[..n][k], side)
    {
      assert es[..n][..k] == es[..k] && es[..n][k] == es[k];
    }
  }

  lemma StartBlocks(root: Secret, id: uint64, side: bool)
    ensures Blocks(Start(root, id).At(side)) && Start(root, id).At(side).state.epoch == 0
  {
    hide ChainKey, MessageKey;
  }

  lemma {:induction false} RunBlocks(root: Secret, id: uint64, es: seq<Event>, side: bool)
    requires |es| < TWO_64 && NeverWraps(root, id, es, side)
    ensures Blocks(Run(root, id, es).At(side))
  {
    hide Blocks, Step, Start, Wraps;
    if es == [] {
      StartBlocks(root, id, side);
    } else {
      var front, e := es[..|es| - 1], es[|es| - 1];
      NeverWrapsBefore(root, id, es, side, |front|);
      RunBlocks(root, id, front, side);
      RunCounted(root, id, front, side);
      StepBlocks(Run(root, id, front), e, side);
    }
  }

  /** Throughout a run epochs keep to their blocks of 1000 numbers exactly when the 32-bit epoch never wraps. */
  lemma BlocksIff(root: Secret, id: uint64, es: seq<Event>, side: bool)
    requires |es| < TWO_64
    ensures (forall k | 0 <= k <= |es| :: Blocks(Run(root, id, es[..k]).At(side))) <==> NeverWraps(root, id, es, side)
  {
    hide Blocks, Wraps, Step;
    if NeverWraps(root, id, es, side) {
      forall k | 0 <= k <= |es|
        ensures Blocks(Run(root, id, es[..k]).At(side))
      {
        NeverWrapsBefore(root, id, es, side, k);
        RunBlocks(root, id, es[..k], side);
      }
    } else {
      var k :| 0 <= k < |es| && Wraps(Run(root, id, es[..k]), es[k], side);
      WrapBreaks(Run(root, id, es[..k]), es[k], side);
      assert es[..k + 1][..k] == es[..k];
      assert !Blocks(Run(root, id, es[..k + 1]).At(side));
    }
  }

  lemma {:induction false} EpochAtMost(root: Secret, id: uint64, es: seq<Event>, side: bool)
    ensures Run(root, id, es).At(side).state.epoch <= |es|
  {
    hide Step, Start;
    if es == [] {
      StartBlocks(root, id, side);
    } else {
      EpochAtMost(root, id, es[..|es| - 1], side);
      StepEpoch(Run(root, id, es[..|es| - 1]), es[|es| - 1], side);
    }
  }

  /** No run of fewer than 2^32 events wraps. */
  lemma ShortRuns(root: Secret, id: uint64, es: seq<Event>, side: bool)
    requires |es| < TWO_32
    ensures NeverWraps(root, id, es, side)
  {
    forall k | 0 <= k < |es|
      ensures !Wraps(Run(root, id, es[..k]), es[k], side)
    {
      hide Run, Step;
      EpochAtMost(root, id, es[..k], side);
    }
  }

  lemma RunCounted(root: Secret, id: uint64, es: seq<Event>, side: bool)
    requires |es| < TWO_64
    ensures Counted(root, id, side, Run(root, id, es).At(side), |es|)
  {
    RunKeeps(root, id, es);
  }

  /** Two frames sealed in one epoch lie in the same block of 1000 sequence numbers. */
  lemma OneBlockPerEpoch(root: Secret, id: uint64, es: seq<Event>, side: bool, m: nat, n: nat)
    requires |es| < TWO_64 && NeverWraps(root, id, es, side)
    requires m < |Run(root, id, es).At(side).log| && n < |Run(root, id, es).At(side).log|
    requires Run(root, id, es).At(side).log[m].epoch == Run(root, id, es).At(side).log[n].epoch
    ensures m / ROTATION_INTERVAL == n / ROTATION_INTERVAL
  {
    RunBlocks(root, id, es, side);
  }

  // ---- Genuine frames in any order ----

  ghost predicate Recorded(root: Secret, id: uint64, side: bool, ledger: Ledger, n: uint64, m: Sent) {
    && |m.plaintext| <= MAX_PLAINTEXT
    && EntryOf(root, id, side, n, m) in ledger && ledger[EntryOf(root, id, side, n, m)] == m.plaintext
  }

  /** Every logged frame can still be found in the ledger. */
  ghost predicate AllRecorded(root: Secret, id: uint64, w: World)
    requires |w.initiator.log| < TWO_64 && |w.responder.log| < TWO_64
  {
    forall side: bool, n: nat | n < |w.At(side).log| :: Recorded(root, id, side, w.ledger, n, w.At(side).log[n])
  }

  /** A new entry overwrites nothing logged before. */
  lemma NewKey(root: Secret, id: uint64, side: bool, p: Party, typ: byte, blob: Bytes, from: bool, n: uint64, m: Sent,
               bound: nat)
    requires Counted(root, id, side, p, bound) && (from != side || n < |p.log|)
    ensures SealedEntry(p.state, typ, blob) != EntryOf(root, id, from, n, m)
  {
    hide ChainKey, MessageKey, Header;
    if SealedEntry(p.state, typ, blob) == EntryOf(root, id, from, n, m) {
      MessageKeyInjective(root, SendDirection(side), Rotated(p.state).epoch, p.state.sendSeq, root, SendDirection(from),
                          m.epoch, n);
    }
  }

  /** A sealing records its frame. */
  lemma SealRecords(root: Secret, id: uint64, side: bool, p: Party, typ: byte, plaintext: Bytes, blob: Bytes,
                    ledger: Ledger, bound: nat)
    requires Counted(root, id, side, p, bound) && CanSeal(p.state, plaintext)
    ensures Recorded(root, id, side, ledger[SealedEntry(p.state, typ, blob) := plaintext], |p.log|,
                     SealStep(p, typ, plaintext, blob).log[|p.log|])
  {
    hide ChainKey, MessageKey, Header;
  }

  lemma StepRecorded(root: Secret, id: uint64, w: World, e: Event, bound: nat)
    requires Counted(root, id, true, w.initiator, bound) && Counted(root, id, false, w.responder, bound)
             && bound + 1 < TWO_64
    requires AllRecorded(root, id, w)
    ensures |Step(w, e).initiator.log| < TWO_64 && |Step(w, e).responder.log| < TWO_64
            && AllRecorded(root, id, Step(w, e))
  {
    hide SealedEntry, EntryOf, Open, Rotated;
    var w', p := Step(w, e), w.At(e.side);
    forall side: bool, n: nat | n < |w'.At(side).log|
      ensures Recorded(root, id, side, w'.ledger, n, w'.At(side).log[n])
    {
      if n < |w.At(side).log| {
        assert Recorded(root, id, side, w.ledger, n, w.At(side).log[n]);
        if e.SealEvent? {
          NewKey(root, id, e.side, p, e.typ, e.blob, side, n, w.At(side).log[n], bound);
        }
      } else {
        SealRecords(root, id, e.side, p, e.typ, e.plaintext, e.blob, w.ledger, bound);
      }
    }
  }

  lemma {:induction false} RunRecorded(root: Secret, id: uint64, es: seq<Event>)
    requires |es| < TWO_64
    ensures var w := Run(root, id, es);
            |w.initiator.log| < TWO_64 && |w.responder.log| < TWO_64 && AllRecorded(root, id, w)
  {
    if es == [] {
    } else {
      hide Step, AllRecorded;
      var front := es[..|es| - 1];
      RunRecorded(root, id, front);
      RunCounted(root, id, front, true);
      RunCounted(root, id, front, false);
      StepRecorded(root, id, Run(root, id, front), es[|es| - 1], |front|);
    }
  }

  lemma RecordedOpens(root: Secret, id: uint64, side: bool, p: Party, ledger: Ledger, n: uint64, m: Sent, bound: nat)
    requires Counted(root, id, side, p, bound) && Recorded(root, id, !side, ledger, n, m)
    requires |m.blob| == NONCE_SIZE + |m.plaintext| + TAG_SIZE
    ensures Open(p.state, ledger, Marshal(FrameOf(id, n, m))).result == Ok((m.typ, m.plaintext))
       <==>
            && !p.state.closed && KnownType(m.typ)
            && EpochAccepted(p.state, m.epoch) && ReplayWindow.Fresh(p.state.accepted, n)
  {
    hide ChainKey, MessageKey, Header, Parse, Marshal, EpochAccepted, ReplayWindow.Fresh;
    var f := FrameOf(id, n, m);
    ParseOfMarshal(f);
    assert Entry(RecvKey(p.state, f), Header(f), f.blob) == EntryOf(root, id, !side, n, m);
  }

  /**
   After any run, a frame the peer sealed opens, in whatever order it arrives, exactly when
   the session is open, its type is known, its epoch is the current, next or previous one,
   and its number is still fresh.
   */
  lemma GenuineOpensIff(root: Secret, id: uint64, es: seq<Event>, side: bool, n: nat)
    requires |es| < TWO_64 && n < |Run(root, id, es).At(!side).log| < TWO_64
    requires var m := Run(root, id, es).At(!side).log[n]; |m.blob| == NONCE_SIZE + |m.plaintext| + TAG_SIZE
    ensures var w := Run(root, id, es);
            var s, m := w.At(side).state, w.At(!side).log[n];
            (Open(s, w.ledger, Marshal(FrameOf(id, n, m))).result == Ok((m.typ, m.plaintext)) <==>
             !s.closed && KnownType(m.typ) && EpochAccepted(s, m.epoch) && ReplayWindow.Fresh(s.accepted, n))
  {
    hide Run, Open, Recorded, EpochAccepted, ReplayWindow.Fresh;
    RunRecorded(root, id, es);
    RunCounted(root, id, es, side);
    var w := Run(root, id, es);
    assert Recorded(root, id, !side, w.ledger, n, w.At(!side).log[n]);
    RecordedOpens(root, id, side, w.At(side), w.ledger, n, w.At(!side).log[n], |es|);
  }
}
