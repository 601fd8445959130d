/** The relay's fixed-window rate limiter (internal/relay/limits.go). */
module RateLimit {

  /** Nanoseconds, as in Go's time.Duration. */
  type Time = int

  datatype Window = Window(count: int, start: Time)

  type Windows = map<string, Window>

  // ---- The two operations ----

  function AllowSpec(w: Windows, key: string, limit: int, per: Time, now: Time): (Windows, bool) {
    if key !in w || now - w[key].start > per then (w[key := Window(1, now)], true)
    else if w[key].count >= limit then (w, false)
    else (w[key := w[key].(count := w[key].count + 1)], true)
  }

  function SweepSpec(w: Windows, per: Time, now: Time): Windows {
    map k | k in w && now - w[k].start <= per :: w[k]
  }

  class RateCounter {
    var windows: Windows

    constructor ()
      ensures windows == map[]
    {
      windows := map[];
    }

    /** Records an event and reports whether it stays under the limit. */
    method Allow(key: string, limit: int, per: Time, now: Time) returns (ok: bool)
      modifies this
      ensures (windows, ok) == AllowSpec(old(windows), key, limit, per, now)
    {
      if key !in windows || now - windows[key].start > per {
        windows := windows[key := Window(1, now)];
        return true;
      }
      var w := windows[key];
      if w.count >= limit {
        return false;
      }
      windows := windows[key := w.(count := w.count + 1)];
      return true;
    }

    /** Drops exactly the windows that have run out. */
    method Sweep(per: Time, now: Time)
      modifies this
      ensures windows == SweepSpec(old(windows), per, now)
      ensures forall k :: k in windows <==> k in old(windows) && now - old(windows)[k].start <= per
    {
      var keys := windows.Keys;
      while keys != {}
        invariant keys <= old(windows).Keys
        invariant forall k :: k in windows <==>
                    k in old(windows) && (k in keys || now - old(windows)[k].start <= per)
        invariant forall k | k in windows :: windows[k] == old(windows)[k]
        decreases |keys|
      {
        var k :| k in keys;
        if now - windows[k].start > per {
          windows := windows - {k};
        }
        keys := keys - {k};
      }
    }
  }

  // ---- Runs ----

  datatype Event = Ask(key: string, now: Time) | SweepAt(now: Time)

  /** The windows, every answer in order, and the events that were allowed. */
  datatype Run = Run(windows: Windows, answers: seq<bool>, allowed: seq<Event>)

  function Play(limit: int, per: Time, es: seq<Event>): Run {
    if es == [] then Run(map[], [], [])
    else
      var r, e := Play(limit, per, es[..|es| - 1]), es[|es| - 1];
      match e
      case Ask(key, now) =>
        var (w, ok) := AllowSpec(r.windows, key, limit, per, now);
        Run(w, r.answers + [ok], if ok then r.allowed + [e] else r.allowed)
      case SweepAt(now) => r.(windows := SweepSpec(r.windows, per, now))
  }

  /** Time does not run backwards. */
  ghost predicate InOrder(es: seq<Event>) {
    forall i, j | 0 <= i < j < |es| :: es[i].now <= es[j].now
  }

  /** The run with its sweeps left out. */
  function Asks(es: seq<Event>): seq<Event> {
    if es == [] then []
    else Asks(es[..|es| - 1]) + if es[|es| - 1].Ask? then [es[|es| - 1]] else []
  }

  // ---- Sweeping changes no answer ----

  /** swept is kept but for windows that are over by now. */
  ghost predicate Trimmed(swept: Windows, kept: Windows, per: Time, now: Time) {
    && (forall k | k in swept :: k in kept && swept[k] == kept[k])
    && (forall k | k in kept && k !in swept :: now - kept[k].start > per)
  }

  lemma AllowTrimmed(swept: Windows, kept: Windows, key: string, limit: int, per: Time, now: Time)
    requires Trimmed(swept, kept, per, now)
    ensures var (w, ok), (w', ok') := AllowSpec(swept, key, limit, per, now), AllowSpec(kept, key, limit, per, now);
            ok == ok' && Trimmed(w, w', per, now)
  {
  }

  lemma TrimmedLater(swept: Windows, kept: Windows, per: Time, now: Time, later: Time)
    requires Trimmed(swept, kept, per, now) && now <= later
    ensures Trimmed(swept, kept, per, later)
  {
  }

  /** Run r, with sweeps, has done what run s did without; its windows are those of s but for some that are over. */
  ghost predicate InStep(r: Run, s: Run, per: Time, now: Time) {
    r.answers == s.answers && r.allowed == s.allowed && Trimmed(r.windows, s.windows, per, now)
  }

  lemma AskInStep(limit: int, per: Time, front: seq<Event>, asks: seq<Event>, e: Event)
    requires e.Ask? && InStep(Play(limit, per, front), Play(limit, per, asks), per, e.now)
    ensures InStep(Play(limit, per, front + [e]), Play(limit, per, asks + [e]), per, e.now)
  {
    hide AllowSpec, Trimmed;
    assert (front + [e])[..|front|] == front && (asks + [e])[..|asks|] == asks;
    var r, s := Play(limit, per, front), Play(limit, per, asks);
    AllowTrimmed(r.windows, s.windows, e.key, limit, per, e.now);
  }

  lemma SweepInStep(limit: int, per: Time, front: seq<Event>, s: Run, e: Event)
    requires e.SweepAt? && InStep(Play(limit, per, front), s, per, e.now)
    ensures InStep(Play(limit, per, front + [e]), s, per, e.now)
  {
    hide Trimmed;
    assert (front + [e])[..|front|] == front;
    SweepTrimmed(Play(limit, per, front).windows, s.windows, per, e.now);
  }

  lemma {:induction false} SweptIsTrimmed(limit: int, per: Time, es: seq<Event>, now: Time)
    requires InOrder(es) && (es != [] ==> es[|es| - 1].now <= now)
    ensures InStep(Play(limit, per, es), Play(limit, per, Asks(es)), per, now)
  {
    if es == [] {
    } else {
      hide Play, InStep;
      var front, e := es[..|es| - 1], es[|es| - 1];
      SweptIsTrimmed(limit, per, front, e.now);
      assert es == front + [e];
      if e.Ask? {
        AskInStep(limit, per, front, Asks(front), e);
      } else {
        assert Asks(es) == Asks(front);
        SweepInStep(limit, per, front, Play(limit, per, Asks(front)), e);
      }
      StillInStep(Play(limit, per, es), Play(limit, per, Asks(es)), per, e.now, now);
    }
  }

  lemma StillInStep(r: Run, s: Run, per: Time, now: Time, later: Time)
    requires InStep(r, s, per, now) && now <= later
    ensures InStep(r, s, per, later)
  {
    hide Trimmed;
    TrimmedLater(r.windows, s.windows, per, now, later);
  }

  lemma SweepTrimmed(swept: Windows, kept: Windows, per: Time, now: Time)
    requires Trimmed(swept, kept, per, now)
    ensures Trimmed(SweepSpec(swept, per, now), kept, per, now)
  {
  }

  /** Sweeps anywhere in a run change no answer and no grant. */
  lemma SweepsAreInvisible(limit: int, per: Time, es: seq<Event>)
    requires InOrder(es)
    ensures Play(limit, per, es).answers == Play(limit, per, Asks(es)).answers
    ensures Play(limit, per, es).allowed == Play(limit, per, Asks(es)).allowed
  {
    SweptIsTrimmed(limit, per, es, if es == [] then 0 else es[|es| - 1].now);
  }

  // ---- At most twice the limit in any interval ----

  /** How many of a key's events fall in [lo, hi). */
  function Count(es: seq<Event>, key: string, lo: Time, hi: Time): nat {
    if es == [] then 0
    else
      var e := es[|es| - 1];
      Count(es[..|es| - 1], key, lo, hi) + if e.Ask? && e.key == key && lo <= e.now < hi then 1 else 0
  }

  lemma CountOne(es: seq<Event>, e: Event, key: string, lo: Time, hi: Time)
    ensures Count(es + [e], key, lo, hi) ==
              Count(es, key, lo, hi) + if e.Ask? && e.key == key && lo <= e.now < hi then 1 else 0
  {
    assert (es + [e])[..|es|] == es;
  }

  lemma {:induction false} CountSplit(es: seq<Event>, key: string, lo: Time, mid: Time, hi: Time)
    requires lo <= mid <= hi
    ensures Count(es, key, lo, hi) == Count(es, key, lo, mid) + Count(es, key, mid, hi)
  {
    if es == [] {
    } else {
      CountSplit(es[..|es| - 1], key, lo, mid, hi);
    }
  }

  lemma {:induction false} CountWithin(es: seq<Event>, key: string, lo: Time, hi: Time, lo': Time, hi': Time)
    requires forall e <- es | e.Ask? && e.key == key && lo <= e.now < hi :: lo' <= e.now < hi'
    ensures Count(es, key, lo, hi) <= Count(es, key, lo', hi')
  {
    if es == [] {
    } else {
      CountWithin(es[..|es| - 1], key, lo, hi, lo', hi');
    }
  }

  function AtLeastOne(limit: int): int {
    if limit < 1 then 1 else limit
  }

  /** Where a key stands: its current window counts the events since its start; what came just before is bounded. */
  ghost predicate Tracked(w: Windows, allowed: seq<Event>, key: string, limit: int, per: Time, now: Time) {
    var m := AtLeastOne(limit);
    && (key !in w ==> forall e <- allowed :: e.Ask? && e.key != key)
    && (key in w ==>
          var s := w[key].start;
          && s <= now && 1 <= w[key].count <= m
          && (forall e <- allowed | e.Ask? && e.key == key :: e.now <= s + per && e.now <= now)
          && Count(allowed, key, s, s + per + 1) == w[key].count
          && (forall t: Time | s - per <= t <= s :: Count(allowed, key, t, s) <= m))
  }

  /** How many of a key's events fall in the closed interval of length per from t. */
  function Span(es: seq<Event>, key: string, per: Time, t: Time): nat {
    Count(es, key, t, t + per + 1)
  }

  ghost predicate Bounded(allowed: seq<Event>, key: string, limit: int, per: Time) {
    forall t: Time :: Span(allowed, key, per, t) <= 2 * AtLeastOne(limit)
  }

  lemma {:induction false} CountOther(es: seq<Event>, key: string, lo: Time, hi: Time)
    requires forall e <- es | e.Ask? && e.key == key :: !(lo <= e.now < hi)
    ensures Count(es, key, lo, hi) == 0
  {
    if es == [] {
    } else {
      CountOther(es[..|es| - 1], key, lo, hi);
    }
  }

  /** A new window opens: the old one is over, so nothing of it lies at or after now. */
  lemma OpenWindow(w: Windows, allowed: seq<Event>, key: string, limit: int, per: Time, before: Time, now: Time)
    requires per >= 0 && before <= now && Tracked(w, allowed, key, limit, per, before)
             && Bounded(allowed, key, limit, per)
    requires key !in w || now - w[key].start > per
    ensures Tracked(w[key := Window(1, now)], allowed + [Ask(key, now)], key, limit, per, now)
    ensures Bounded(allowed + [Ask(key, now)], key, limit, per)
  {
    var e, m := Ask(key, now), AtLeastOne(limit);
    var grown := allowed + [e];
    CountOne(allowed, e, key, now, now + per + 1);
    CountOther(allowed, key, now, now + per + 1);
    forall t: Time | now - per <= t
      ensures Count(allowed, key, t, now) <= m
    {
      RecentFew(w, allowed, key, limit, per, before, now, t);
    }
    forall t: Time
      ensures t <= now ==> Count(grown, key, t, now) == Count(allowed, key, t, now)
      ensures Span(grown, key, per, t) <= 2 * m
    {
      CountOne(allowed, e, key, t, now);
      CountOne(allowed, e, key, t, t + per + 1);
      assert Span(allowed, key, per, t) <= 2 * m;
      if t <= now <= t + per {
        CountWithin(allowed, key, t, t + per + 1, t, now);
      }
    }
  }

  lemma RecentFew(w: Windows, allowed: seq<Event>, key: string, limit: int, per: Time, before: Time, now: Time, t: Time)
    requires per >= 0 && before <= now && Tracked(w, allowed, key, limit, per, before)
    requires key !in w || now - w[key].start > per
    requires now - per <= t
    ensures Count(allowed, key, t, now) <= AtLeastOne(limit)
  {
    if key !in w {
      CountOther(allowed, key, t, now);
    } else {
      var s := w[key].start;
      CountWithin(allowed, key, t, now, s, s + per + 1);
    }
  }

  /** Another event in the current window. */
  lemma SameWindow(w: Windows, allowed: seq<Event>, key: string, limit: int, per: Time, before: Time, now: Time)
    requires before <= now && Tracked(w, allowed, key, limit, per, before) && Bounded(allowed, key, limit, per)
    requires key in w && now - w[key].start <= per && w[key].count < limit
    ensures Tracked(w[key := w[key].(count := w[key].count + 1)], allowed + [Ask(key, now)], key, limit, per, now)
    ensures Bounded(allowed + [Ask(key, now)], key, limit, per)
  {
    var e, m, s := Ask(key, now), AtLeastOne(limit), w[key].start;
    var grown := allowed + [e];
    CountOne(allowed, e, key, s, s + per + 1);
    forall t: Time | s - per <= t <= s
      ensures Count(grown, key, t, s) <= m
    {
      CountOne(allowed, e, key, t, s);
    }
    forall t: Time
      ensures Span(grown, key, per, t) <= 2 * m
    {
      CountOne(allowed, e, key, t, t + per + 1);
      assert Span(allowed, key, per, t) <= 2 * m;
      if t <= now <= t + per {
        SpanFew(w, allowed, key, limit, per, before, t);
      }
    }
  }

  /** An interval that reaches into the current window holds at most the window and the little before it. */
  lemma SpanFew(w: Windows, allowed: seq<Event>, key: string, limit: int, per: Time, now: Time, t: Time)
    requires Tracked(w, allowed, key, limit, per, now) && key in w && w[key].start - per <= t && per >= 0
    ensures Count(allowed, key, t, t + per + 1) <= AtLeastOne(limit) + w[key].count
  {
    var s := w[key].start;
    if t <= s {
      CountSplit(allowed, key, t, s, t + per + 1);
      CountWithin(allowed, key, s, t + per + 1, s, s + per + 1);
    } else {
      CountWithin(allowed, key, t, t + per + 1, s, s + per + 1);
    }
  }

  lemma OtherKey(w: Windows, w': Windows, allowed: seq<Event>, key: string, limit: int, per: Time, now: Time,
                 later: Time, e: Event)
    requires Tracked(w, allowed, key, limit, per, now) && Bounded(allowed, key, limit, per) && now <= later
    requires e.Ask? && e.key != key
    requires key in w <==> key in w'
    requires key in w ==> w'[key] == w[key]
    ensures Tracked(w', allowed + [e], key, limit, per, later) && Bounded(allowed + [e], key, limit, per)
  {
    forall lo: Time, hi: Time
      ensures Count(allowed + [e], key, lo, hi) == Count(allowed, key, lo, hi)
    {
      CountOne(allowed, e, key, lo, hi);
    }
    forall t: Time
      ensures Span(allowed + [e], key, per, t) <= 2 * AtLeastOne(limit)
    {
      assert Span(allowed, key, per, t) <= 2 * AtLeastOne(limit);
    }
  }

  lemma TrackedLater(w: Windows, allowed: seq<Event>, key: string, limit: int, per: Time, now: Time, later: Time)
    requires Tracked(w, allowed, key, limit, per, now) && now <= later
    ensures Tracked(w, allowed, key, limit, per, later)
  {
  }

  ghost predicate OnlyAsks(es: seq<Event>) {
    forall e <- es :: e.Ask?
  }

  lemma AskTracked(w: Windows, allowed: seq<Event>, e: Event, key: string, limit: int, per: Time)
    requires per >= 0 && e.Ask?
    requires Tracked(w, allowed, key, limit, per, e.now) && Bounded(allowed, key, limit, per)
    ensures var (w', ok) := AllowSpec(w, e.key, limit, per, e.now);
            var allowed' := if ok then allowed + [e] else allowed;
            Tracked(w', allowed', key, limit, per, e.now) && Bounded(allowed', key, limit, per)
  {
    hide Tracked, Bounded;
    var (w', ok) := AllowSpec(w, e.key, limit, per, e.now);
    if ok {
      if e.key != key {
        OtherKey(w, w', allowed, key, limit, per, e.now, e.now, e);
      } else if key !in w || e.now - w[key].start > per {
        OpenWindow(w, allowed, key, limit, per, e.now, e.now);
      } else {
        SameWindow(w, allowed, key, limit, per, e.now, e.now);
      }
    }
  }

  lemma NothingTracked(key: string, limit: int, per: Time, now: Time)
    ensures Tracked(map[], [], key, limit, per, now) && Bounded([], key, limit, per)
  {
    assert forall t: Time :: Span([], key, per, t) == 0;
  }

  lemma {:induction false} AsksTracked(limit: int, per: Time, es: seq<Event>, key: string, now: Time)
    requires per >= 0 && InOrder(es) && OnlyAsks(es) && (es != [] ==> es[|es| - 1].now <= now)
    ensures var r := Play(limit, per, es);
            Tracked(r.windows, r.allowed, key, limit, per, now) && Bounded(r.allowed, key, limit, per)
  {
    hide Tracked, Bounded, AllowSpec;
    if es == [] {
      NothingTracked(key, limit, per, now);
    } else {
      var front, e := es[..|es| - 1], es[|es| - 1];
      AsksTracked(limit, per, front, key, e.now);
      var r := Play(limit, per, front);
      AskTracked(r.windows, r.allowed, e, key, limit, per);
      var r' := Play(limit, per, es);
      TrackedLater(r'.windows, r'.allowed, key, limit, per, e.now, now);
    }
  }

  lemma {:induction false} AsksInOrder(es: seq<Event>)
    requires InOrder(es)
    ensures InOrder(Asks(es)) && OnlyAsks(Asks(es))
    ensures forall e <- Asks(es) :: e in es
  {
    if es == [] {
    } else {
      var front := es[..|es| - 1];
      AsksInOrder(front);
      forall e <- Asks(front)
        ensures e.now <= es[|es| - 1].now
      {
        assert e in front;
      }
    }
  }

  /** Whatever sweeps happen, no interval of length per sees more than twice the limit of a key's events allowed. */
  lemma AtMostTwice(limit: int, per: Time, es: seq<Event>, key: string, t: Time)
    requires per >= 0 && InOrder(es)
    ensures Span(Play(limit, per, es).allowed, key, per, t) <= 2 * AtLeastOne(limit)
  {
    hide Play, Tracked;
    SweepsAreInvisible(limit, per, es);
    AsksInOrder(es);
    var asks := Asks(es);
    AsksTracked(limit, per, asks, key, if asks == [] then 0 else asks[|asks| - 1].now);
  }

  /** A window that refuses holds the limit, all of it within per of now. */
  lemma FullWindow(w: Windows, allowed: seq<Event>, key: string, limit: int, per: Time, now: Time)
    requires per >= 0 && Tracked(w, allowed, key, limit, per, now)
    requires key in w && now - w[key].start <= per && w[key].count >= limit
    ensures Span(allowed, key, per, now - per) >= AtLeastOne(limit)
  {
    var s := w[key].start;
    CountWithin(allowed, key, s, s + per + 1, now - per, now + 1);
  }

  /** No event of a run in order comes after its end, with or without the sweeps. */
  lemma AsksBefore(es: seq<Event>, now: Time)
    requires InOrder(es) && (es != [] ==> es[|es| - 1].now <= now)
    ensures Asks(es) != [] ==> Asks(es)[|Asks(es)| - 1].now <= now
  {
    AsksInOrder(es);
    if Asks(es) != [] {
      assert Asks(es)[|Asks(es)| - 1] in es;
    }
  }

  /** An event is refused only when the interval of length per that ends with it holds the limit, and one at least. */
  lemma RefusedMeansFull(limit: int, per: Time, es: seq<Event>, key: string, now: Time)
    requires per >= 0 && InOrder(es) && (es != [] ==> es[|es| - 1].now <= now)
    requires !AllowSpec(Play(limit, per, es).windows, key, limit, per, now).1
    ensures Span(Play(limit, per, es).allowed, key, per, now - per) >= AtLeastOne(limit)
  {
    hide Play, Tracked, Bounded, Span, Asks;
    AsksInOrder(es);
    AsksBefore(es, now);
    SweptIsTrimmed(limit, per, es, now);
    AsksTracked(limit, per, Asks(es), key, now);
    var r := Play(limit, per, Asks(es));
    FullWindow(r.windows, r.allowed, key, limit, per, now);
  }

  // ---- The edge of a window ----

  /** k events of a key at once. */
  function Burst(key: string, s: Time, k: nat): (es: seq<Event>)
    ensures |es| == k && forall e <- es :: e == Ask(key, s)
  {
    seq(k, _ => Ask(key, s))
  }

  lemma {:induction false} BurstFills(limit: nat, per: Time, key: string, s: Time, k: nat)
    requires per >= 0 && 1 <= k <= limit
    ensures Play(limit, per, Burst(key, s, k)).windows == map[key := Window(k, s)]
  {
    var e := Ask(key, s);
    hide Play, Burst;
    BurstOne(key, s, k);
    var front := Burst(key, s, k - 1);
    PlayAsk(limit, per, front, e);
    if k == 1 {
      assert front == [];
      PlayNothing(limit, per);
    } else {
      BurstFills(limit, per, key, s, k - 1);
    }
  }

  lemma BurstOne(key: string, s: Time, k: nat)
    requires k >= 1
    ensures Burst(key, s, k) == Burst(key, s, k - 1) + [Ask(key, s)]
  {
  }

  lemma PlayNothing(limit: int, per: Time)
    ensures Play(limit, per, []) == Run(map[], [], [])
  {
  }

  lemma PlayAsk(limit: int, per: Time, es: seq<Event>, e: Event)
    requires e.Ask?
    ensures var r, r' := Play(limit, per, es), Play(limit, per, es + [e]);
            var (w, ok) := AllowSpec(r.windows, e.key, limit, per, e.now);
            r'.windows == w && r'.answers == r.answers + [ok]
  {
    assert (es + [e])[..|es|] == es;
  }

  /** Once a key has used up its limit at time s, the next event is refused up to s + per and allowed after. */
  lemma WindowEdge(limit: nat, per: Time, key: string, s: Time, now: Time)
    requires per >= 0 && limit >= 1 && s <= now
    ensures var answers := Play(limit, per, Burst(key, s, limit) + [Ask(key, now)]).answers;
            |answers| == limit + 1 && (answers[limit] <==> now > s + per)
  {
    hide Play, Burst;
    BurstFills(limit, per, key, s, limit);
    var es := Burst(key, s, limit);
    PlayAsk(limit, per, es, Ask(key, now));
    AnswersAll(limit, per, es);
  }

  lemma {:induction false} AnswersAll(limit: int, per: Time, es: seq<Event>)
    ensures (forall e <- es :: e.Ask?) ==> |Play(limit, per, es).answers| == |es|
  {
    if es == [] {
    } else {
      AnswersAll(limit, per, es[..|es| - 1]);
    }
  }
}
