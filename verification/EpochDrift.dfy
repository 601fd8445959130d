/**
 How far two sides' epochs can drift apart on an ordered link. Only epochs and counts
 matter here: a side is its epoch, the epochs of the frames it sealed, how many peer
 frames it was handed, and that count at each sealing.
 */
module EpochDrift {
  import opened SessionSpec

  datatype Side = Side(epoch: nat, log: seq<nat>, got: nat, gotAt: seq<nat>)

  /** Rotations a side makes of its own accord while sealing n frames. */
  function Rotations(n: nat): nat {
    if n == 0 then 0 else (n - 1) / ROTATION_INTERVAL
  }

  function Max(a: int, b: int): int {
    if a > b then a else b
  }

  function NextEpoch(x: Side): nat {
    if RotatesAt(|x.log|) then x.epoch + 1 else x.epoch
  }

  function Sends(x: Side): Side {
    x.(epoch := NextEpoch(x), log := x.log + [NextEpoch(x)], gotAt := x.gotAt + [x.got])
  }

  function Receives(x: Side, y: Side): Side
    requires x.got < |y.log|
  {
    x.(epoch := Max(x.epoch, y.log[x.got]), got := x.got + 1)
  }

  // ---- The invariant, seen from x's frames on their way to y ----

  ghost predicate WellFormed(x: Side, y: Side) {
    && |x.gotAt| == |x.log| && x.got <= |y.log|
    && Rotations(|x.log|) <= x.epoch <= Rotations(|x.log|) + Rotations(|y.log|)
    && (forall i | 0 <= i < |x.log| :: x.log[i] <= x.epoch && x.gotAt[i] <= x.got)
    && (forall i, j | 0 <= i < j < |x.log| :: x.log[i] <= x.log[j])
  }

  /** x is ahead of y only by what its last frame in flight announces. */
  ghost predicate Announced(x: Side, y: Side) {
    x.epoch <= y.epoch || (y.got < |x.log| && x.epoch == x.log[|x.log| - 1])
  }

  /** Each frame in flight is at most one epoch past its predecessor or the receiver. */
  ghost predicate Stepwise(x: Side, y: Side) {
    forall i | y.got <= i < |x.log| :: StepAt(x, y, i)
  }

  ghost predicate StepAt(x: Side, y: Side, i: nat)
    requires y.got <= i < |x.log|
  {
    x.log[i] <= 1 + Max(y.epoch, if i > y.got then x.log[i - 1] else 0)
  }

  /** y is ahead of x by at most its own rotations among the frames x has not been handed. */
  ghost predicate Bounded(x: Side, y: Side) {
    && y.epoch <= x.epoch + Rotations(|y.log|) - Rotations(x.got)
    && (forall j | x.got <= j < |y.log| ::
          y.epoch <= Max(x.epoch, y.log[j]) + Rotations(|y.log|) - Rotations(j + 1))
    && |x.gotAt| == |x.log|
    && (forall i | y.got <= i < |x.log| ::
          y.epoch <= x.log[i] + Rotations(|y.log|) - Rotations(x.gotAt[i]))
  }

  ghost predicate Half(x: Side, y: Side) {
    WellFormed(x, y) && Announced(x, y) && Stepwise(x, y) && Bounded(x, y)
  }

  ghost predicate Inv(x: Side, y: Side) {
    Half(x, y) && Half(y, x)
  }

  lemma RotationsStep(n: nat)
    ensures Rotations(n + 1) == Rotations(n) + if RotatesAt(n) then 1 else 0
  {
  }

  lemma {:induction false} RotationsMonotone(m: nat, n: nat)
    requires m <= n
    ensures Rotations(m) <= Rotations(n)
  {
  }

  lemma SendKeeps(x: Side, y: Side)
    requires Inv(x, y)
    ensures Inv(Sends(x), y)
  {
    RotationsStep(|x.log|);
    SendKeepsOwn(x, y);
    SendKeepsPeer(x, y);
  }

  lemma SendKeepsOwn(x: Side, y: Side)
    requires Inv(x, y)
    ensures Half(Sends(x), y)
  {
    SendStepwise(x, y);
    SendBounded(x, y);
    RotationsStep(|x.log|);
    hide Rotations, RotatesAt, Stepwise, Bounded;
  }

  lemma SendStepwise(x: Side, y: Side)
    requires WellFormed(x, y) && Announced(x, y) && Stepwise(x, y)
    ensures Stepwise(Sends(x), y)
  {
    hide Rotations, RotatesAt;
    var x' := Sends(x);
    forall i | y.got <= i < |x'.log|
      ensures StepAt(x', y, i)
    {
      if i < |x.log| {
        assert StepAt(x, y, i);
      }
    }
  }

  lemma SendBounded(x: Side, y: Side)
    requires Inv(x, y)
    ensures Bounded(Sends(x), y)
  {
    RotationsStep(|x.log|);
    hide Rotations, RotatesAt, Stepwise, Announced;
  }

  lemma SendKeepsPeer(x: Side, y: Side)
    requires Inv(x, y)
    ensures Half(y, Sends(x))
  {
    RotationsStep(|x.log|);
    hide Rotations, RotatesAt;
    var x' := Sends(x);
    forall i | x'.got <= i < |y.log|
      ensures StepAt(y, x', i)
    {
      assert StepAt(y, x, i);
    }
    assert WellFormed(y, x') && Announced(y, x') && Stepwise(y, x');
    assert Bounded(y, x');
  }

  lemma ReceiveKeeps(x: Side, y: Side)
    requires Inv(x, y) && x.got < |y.log|
    ensures Inv(Receives(x, y), y)
  {
    ReceiveKeepsOwn(x, y);
    ReceiveKeepsPeer(x, y);
  }

  lemma ReceiveKeepsOwn(x: Side, y: Side)
    requires Inv(x, y) && x.got < |y.log|
    ensures Half(Receives(x, y), y)
  {
    NeverTwoAhead(x, y);
    hide Rotations;
    var x' := Receives(x, y);
    forall i | y.got <= i < |x'.log|
      ensures StepAt(x', y, i)
    {
      assert StepAt(x, y, i);
    }
  }

  lemma ReceiveKeepsPeer(x: Side, y: Side)
    requires Inv(x, y) && x.got < |y.log|
    ensures Half(y, Receives(x, y))
  {
    NeverTwoAhead(x, y);
    hide Rotations;
    var x' := Receives(x, y);
    forall i | x'.got <= i < |y.log|
      ensures StepAt(y, x', i)
    {
      assert StepAt(y, x, i);
    }
    forall i | x'.got <= i < |y.log|
      ensures x'.epoch <= y.log[i] + Rotations(|x.log|) - Rotations(y.gotAt[i])
    {
      RotationsMonotone(y.gotAt[i], |x.log|);
    }
  }

  /** The next frame handed to x is at most one epoch ahead of it. */
  lemma NeverTwoAhead(x: Side, y: Side)
    requires Inv(x, y) && x.got < |y.log|
    ensures y.log[x.got] <= x.epoch + 1
  {
    assert StepAt(y, x, x.got);
  }

  lemma CountsRecorded(x: Side, y: Side)
    requires Inv(x, y)
    ensures |x.gotAt| == |x.log| && |y.gotAt| == |y.log|
  {
  }

  /** With at most 1000 own frames unseen by the sender, the next frame is at most one epoch behind. */
  lemma AtMostOneBehind(x: Side, y: Side)
    requires Inv(x, y) && x.got < |y.log| && |x.log| - y.gotAt[x.got] <= ROTATION_INTERVAL
    ensures x.epoch <= y.log[x.got] + 1
  {
  }
}
