/**
 The trust store (internal/peers/peers.go). Records are kept under the fingerprint of
 their key. Go visits a map in any order, so a lookup by name may find any record that
 bears the name.
 */
module Peers {
  import opened Bytes
  import opened Crypto

  type Time = int
  type Fingerprint = Digest

  function FingerprintOf(key: Bytes): Fingerprint {
    Sha256(key)
  }

  datatype TrustLevel = Unknown | Unverified | Verified | Changed

  /** An empty pending key means there is none. */
  datatype Peer = Peer(
    name: string, publicKey: Bytes, fingerprint: Fingerprint, verified: bool, address: string,
    firstSeen: Time, lastSeen: Time, pendingKey: Bytes)

  type Records = map<Fingerprint, Peer>

  ghost predicate KnownName(s: Records, name: string) {
    exists id :: Named(s, name, id)
  }

  predicate Named(s: Records, name: string, id: Fingerprint) {
    id in s && s[id].name == name
  }

  // ---- The operations as functions; `who` is the record a lookup by name found ----

  ghost function TrustSpec(s: Records, name: string, pub: Bytes): TrustLevel {
    var id := FingerprintOf(pub);
    if id in s then if s[id].verified then Verified else Unverified
    else if KnownName(s, name) then Changed
    else Unknown
  }

  function SeenAgain(p: Peer, name: string, address: string, now: Time): Peer {
    p.(name := name, address := if address != "" then address else p.address, lastSeen := now, pendingKey := [])
  }

  function NewPeer(name: string, address: string, pub: Bytes, now: Time): Peer {
    Peer(name, pub, FingerprintOf(pub), false, address, now, now, [])
  }

  ghost function ObserveSpec(s: Records, name: string, address: string, pub: Bytes, now: Time,
                             who: Fingerprint): Records
    requires TrustSpec(s, name, pub).Changed? ==> Named(s, name, who)
  {
    var id := FingerprintOf(pub);
    if id in s then s[id := SeenAgain(s[id], name, address, now)]
    else if KnownName(s, name) then s[who := s[who].(pendingKey := pub, lastSeen := now)]
    else s[id := NewPeer(name, address, pub, now)]
  }

  /** Verifying adopts a pending key, moving the record under the new key's fingerprint. */
  function VerifySpec(s: Records, who: Fingerprint): Records
    requires who in s
  {
    var p := s[who];
    if p.pendingKey != [] then
      var id := FingerprintOf(p.pendingKey);
      (s - {FingerprintOf(p.publicKey)})[id := p.(publicKey := p.pendingKey, pendingKey := [], fingerprint := id,
                                                  verified := true)]
    else s[who := p.(verified := true)]
  }

  function RejectSpec(s: Records, who: Fingerprint): Records
    requires who in s
  {
    s[who := s[who].(pendingKey := [])]
  }

  class Store {
    var peers: Records

    constructor ()
      ensures peers == map[]
    {
      peers := map[];
    }

    /** Some record with the name, if there is one. */
    method FindByName(name: string) returns (who: Option<Fingerprint>)
      ensures who.Some? <==> KnownName(peers, name)
      ensures who.Some? ==> Named(peers, name, who.value)
    {
      var left := peers.Keys;
      while left != {}
        invariant left <= peers.Keys
        invariant forall id | Named(peers, name, id) :: id in left
        decreases |left|
      {
        var id :| id in left;
        if peers[id].name == name {
          assert Named(peers, name, id);
          return Some(id);
        }
        left := left - {id};
      }
      return None;
    }

    /** Records a sighting and returns the record touched and the trust the key had just before. */
    method Observe(name: string, address: string, pub: Bytes, now: Time) returns (who: Fingerprint, level: TrustLevel)
      modifies this
      ensures level == TrustSpec(old(peers), name, pub)
      ensures level.Changed? ==> Named(old(peers), name, who)
      ensures !level.Changed? ==> who == FingerprintOf(pub)
      ensures peers == ObserveSpec(old(peers), name, address, pub, now, who)
      ensures who in peers && peers.Keys == old(peers).Keys + {who} && peers - {who} == old(peers) - {who}
      ensures who == FingerprintOf(pub) && who in old(peers) ==>
                peers[who] == old(peers)[who].(name := name, lastSeen := now, pendingKey := [],
                                               address := if address == "" then old(peers)[who].address else address)
      ensures level.Changed? ==> peers[who] == old(peers)[who].(pendingKey := pub, lastSeen := now)
      ensures level.Unknown? ==> peers[who] == Peer(name, pub, FingerprintOf(pub), false, address, now, now, [])
    {
      var id := FingerprintOf(pub);
      if id in peers {
        var p := peers[id];
        p := p.(name := name);
        if address != "" {
          p := p.(address := address);
        }
        p := p.(lastSeen := now, pendingKey := []);
        peers := peers[id := p];
        return id, if p.verified then Verified else Unverified;
      }
      var found := FindByName(name);
      if found.Some? {
        who := found.value;
        peers := peers[who := peers[who].(pendingKey := pub, lastSeen := now)];
        return who, Changed;
      }
      peers := peers[id := Peer(name, pub, FingerprintOf(pub), false, address, now, now, [])];
      return id, Unknown;
    }

    method Verify(name: string) returns (who: Option<Fingerprint>)
      modifies this
      ensures who.Some? <==> KnownName(old(peers), name)
      ensures who.None? ==> peers == old(peers)
      ensures who.Some? ==> Named(old(peers), name, who.value) && peers == VerifySpec(old(peers), who.value)
      ensures who.Some? ==>
                var p := old(peers)[who.value];
                var key := if p.pendingKey == [] then p.publicKey else p.pendingKey;
                var id := if p.pendingKey == [] then who.value else FingerprintOf(key);
                && id in peers
                && peers[id] == p.(publicKey := key, pendingKey := [], verified := true,
                                   fingerprint := if p.pendingKey == [] then p.fingerprint else FingerprintOf(key))
    {
      who := FindByName(name);
      if who.None? {
        return;
      }
      var id := who.value;
      var p := peers[id];
      if |p.pendingKey| > 0 {
        var oldID := FingerprintOf(p.publicKey);
        p := p.(publicKey := p.pendingKey, pendingKey := []);
        p := p.(fingerprint := FingerprintOf(p.publicKey));
        peers := peers - {oldID};
        id := FingerprintOf(p.publicKey);
      }
      peers := peers[id := p.(verified := true)];
    }

    method Reject(name: string) returns (who: Option<Fingerprint>)
      modifies this
      ensures who.Some? <==> KnownName(old(peers), name)
      ensures who.None? ==> peers == old(peers)
      ensures who.Some? ==> Named(old(peers), name, who.value) && peers == RejectSpec(old(peers), who.value)
    {
      who := FindByName(name);
      if who.Some? {
        peers := peers[who.value := peers[who.value].(pendingKey := [])];
      }
    }

    method TrustOf(name: string, pub: Bytes) returns (level: TrustLevel)
      ensures level == TrustSpec(peers, name, pub)
      ensures level in {Verified, Unverified} <==> FingerprintOf(pub) in peers
      ensures level == Verified <==> FingerprintOf(pub) in peers && peers[FingerprintOf(pub)].verified
      ensures level == Changed <==> FingerprintOf(pub) !in peers && exists id | id in peers :: peers[id].name == name
    {
      var id := FingerprintOf(pub);
      if id in peers {
        return if peers[id].verified then Verified else Unverified;
      }
      assert forall id :: Named(peers, name, id) <==> id in peers && peers[id].name == name;
      var found := FindByName(name);
      return if found.Some? then Changed else Unknown;
    }
  }

  // ---- Runs ----

  datatype Event =
    | Observe(name: string, address: string, pub: Bytes, now: Time, who: Fingerprint)
    | Verify(name: string, who: Fingerprint)
    | Reject(name: string, who: Fingerprint)

  /** Lookups find a record with the name; verifying or rejecting an unknown name does nothing. */
  ghost predicate Enabled(s: Records, e: Event) {
    (e.Observe? && !TrustSpec(s, e.name, e.pub).Changed?) || Named(s, e.name, e.who)
  }

  ghost function Step(s: Records, e: Event): Records {
    if !Enabled(s, e) then s
    else match e
      case Observe(name, address, pub, now, who) => ObserveSpec(s, name, address, pub, now, who)
      case Verify(_, who) => VerifySpec(s, who)
      case Reject(_, who) => RejectSpec(s, who)
  }

  ghost function Run(es: seq<Event>): Records {
    if es == [] then map[] else Step(Run(es[..|es| - 1]), es[|es| - 1])
  }

  /** Each record lies under its own key's fingerprint, and a pending key is never the stored one. */
  ghost predicate Sound(s: Records) {
    forall id | id in s ::
      && FingerprintOf(s[id].publicKey) == id == s[id].fingerprint
      && (s[id].pendingKey != [] ==> s[id].pendingKey != s[id].publicKey)
  }

  lemma StepSound(s: Records, e: Event)
    requires Sound(s)
    ensures Sound(Step(s, e))
  {
  }

  /** In every run, each record is stored once, under its own key, and a pending key differs from the stored one. */
  lemma {:induction false} RunSound(es: seq<Event>)
    ensures Sound(Run(es))
    ensures forall id, id' | id in Run(es) && id' in Run(es) && Run(es)[id].publicKey == Run(es)[id'].publicKey ::
              id == id'
  {
    if es == [] {
    } else {
      RunSound(es[..|es| - 1]);
      StepSound(Run(es[..|es| - 1]), es[|es| - 1]);
    }
  }

  /** The records before are still there, with the same key and the same verification. */
  ghost predicate KeysKept(s: Records, s': Records) {
    forall id | id in s :: id in s' && s'[id].publicKey == s[id].publicKey && s'[id].verified == s[id].verified
  }

  lemma StepKeepsKeys(s: Records, e: Event)
    requires !e.Verify?
    ensures KeysKept(s, Step(s, e))
  {
  }

  /** Until the user verifies something, no key is replaced, no verification changes and no record goes. */
  lemma {:induction false} OnlyVerifyReplaces(es: seq<Event>, fs: seq<Event>)
    requires forall e <- fs :: !e.Verify?
    ensures KeysKept(Run(es), Run(es + fs))
  {
    if fs == [] {
      assert es + fs == es;
    } else {
      var front, e := fs[..|fs| - 1], fs[|fs| - 1];
      OnlyVerifyReplaces(es, front);
      hide Step;
      assert (es + fs)[..|es + fs| - 1] == es + front;
      StepKeepsKeys(Run(es + front), e);
    }
  }

  // ---- What reads VERIFIED ----

  ghost predicate ReadsVerified(s: Records, key: Bytes) {
    forall name :: TrustSpec(s, name, key).Verified?
  }

  /** The key a verification leaves in its record. */
  function Adopted(p: Peer): Bytes {
    if p.pendingKey != [] then p.pendingKey else p.publicKey
  }

  /** The keys a run's verifications left in place: each adds one and takes away the key it displaced. */
  ghost function Trusted(es: seq<Event>): iset<Bytes> {
    if es == [] then iset{}
    else
      var front, e := es[..|es| - 1], es[|es| - 1];
      if e.Verify? && Enabled(Run(front), e)
      then Trusted(front) - iset{Run(front)[e.who].publicKey} + iset{Adopted(Run(front)[e.who])}
      else Trusted(front)
  }

  lemma VerifiedMeans(s: Records, key: Bytes)
    ensures ReadsVerified(s, key) <==> FingerprintOf(key) in s && s[FingerprintOf(key)].verified
  {
    assert ReadsVerified(s, key) ==> TrustSpec(s, "", key).Verified?;
  }

  /** A key reads VERIFIED exactly when some verification left it in its record and none since displaced it. */
  lemma {:induction false} VerifiedIff(es: seq<Event>, key: Bytes)
    ensures ReadsVerified(Run(es), key) <==> key in Trusted(es)
  {
    VerifiedMeans(Run(es), key);
    if es == [] {
    } else {
      var front, e := es[..|es| - 1], es[|es| - 1];
      VerifiedIff(front, key);
      VerifiedMeans(Run(front), key);
      RunSound(front);
    }
  }

  /** In particular there is a verification in the run that left this very key. */
  lemma {:induction false} VerifiedByUser(es: seq<Event>, key: Bytes)
    requires ReadsVerified(Run(es), key)
    ensures exists i | 0 <= i < |es| ::
              es[i].Verify? && Enabled(Run(es[..i]), es[i]) && Adopted(Run(es[..i])[es[i].who]) == key
  {
    VerifiedIff(es, key);
    TrustedByUser(es, key);
  }

  lemma {:induction false} TrustedByUser(es: seq<Event>, key: Bytes)
    requires key in Trusted(es)
    ensures exists i | 0 <= i < |es| ::
              es[i].Verify? && Enabled(Run(es[..i]), es[i]) && Adopted(Run(es[..i])[es[i].who]) == key
  {
    var n := |es| - 1;
    var front := es[..n];
    if key in Trusted(front) {
      TrustedByUser(front, key);
      var i :| 0 <= i < n && front[i].Verify? && Enabled(Run(front[..i]), front[i])
          && Adopted(Run(front[..i])[front[i].who]) == key;
      assert front[..i] == es[..i] && front[i] == es[i];
    } else {
      assert es[n].Verify? && Enabled(Run(es[..n]), es[n]) && Adopted(Run(es[..n])[es[n].who]) == key;
    }
  }

  // ---- Pending keys ----

  /** The event reaches record id: a sighting of its key or of a changed one, or a decision of the user about it. */
  ghost predicate Touches(s: Records, e: Event, id: Fingerprint) {
    Enabled(s, e) &&
    match e
    case Observe(name, _, pub, _, who) => id == FingerprintOf(pub) || (TrustSpec(s, name, pub).Changed? && id == who)
    case Verify(_, who) => id == who || id == FingerprintOf(Adopted(s[who]))
    case Reject(_, who) => id == who
  }

  /** The event is a sighting of key, which is not stored, under the name of record id. */
  ghost predicate Challenges(s: Records, e: Event, id: Fingerprint, key: Bytes) {
    e.Observe? && Enabled(s, e) && TrustSpec(s, e.name, e.pub).Changed? && e.who == id && e.pub == key
  }

  lemma UntouchedStays(s: Records, e: Event, id: Fingerprint)
    requires Sound(s) && !Touches(s, e, id)
    ensures id in Step(s, e) <==> id in s
    ensures id in s ==> Step(s, e)[id] == s[id]
  {
  }

  lemma TouchedPending(s: Records, e: Event, id: Fingerprint, key: Bytes)
    requires Sound(s) && Touches(s, e, id) && id in Step(s, e) && key != []
    ensures Step(s, e)[id].pendingKey == key <==> Challenges(s, e, id, key)
  {
  }

  /** Event i of the run challenged record id with key, and no event since has reached the record. */
  ghost predicate LastChallenge(es: seq<Event>, i: nat, id: Fingerprint, key: Bytes)
    requires i < |es|
  {
    && Challenges(Run(es[..i]), es[i], id, key)
    && forall j | i < j < |es| :: !Touches(Run(es[..j]), es[j], id)
  }

  /** In every run, a key is pending on a record exactly when the last event to reach it was a sighting of that key. */
  lemma {:induction false} PendingIff(es: seq<Event>, id: Fingerprint, key: Bytes)
    requires id in Run(es) && key != []
    ensures Run(es)[id].pendingKey == key <==> exists i: nat | i < |es| :: LastChallenge(es, i, id, key)
  {
    var n := |es| - 1;
    var front := es[..n];
    hide Step, Challenges, Touches, Sound;
    RunSound(front);
    if Touches(Run(front), es[n], id) {
      TouchedPending(Run(front), es[n], id, key);
      assert es[..n] == front;
      if Challenges(Run(front), es[n], id, key) {
        assert LastChallenge(es, n, id, key);
      } else {
        assert forall i: nat | i < |es| :: !LastChallenge(es, i, id, key);
      }
    } else {
      UntouchedStays(Run(front), es[n], id);
      PendingIff(front, id, key);
      SameChallenges(es, front, id, key);
    }
  }

  lemma SameChallenges(es: seq<Event>, front: seq<Event>, id: Fingerprint, key: Bytes)
    requires es != [] && front == es[..|es| - 1] && !Touches(Run(front), es[|es| - 1], id)
    ensures (exists i: nat | i < |es| :: LastChallenge(es, i, id, key)) <==>
            (exists i: nat | i < |front| :: LastChallenge(front, i, id, key))
  {
    hide LastChallenge, Run, Touches;
    forall i: nat | i < |es|
      ensures LastChallenge(es, i, id, key) <==> i < |front| && LastChallenge(front, i, id, key)
    {
      SameChallenge(es, front, i, id, key);
    }
  }

  lemma SameChallenge(es: seq<Event>, front: seq<Event>, i: nat, id: Fingerprint, key: Bytes)
    requires es != [] && front == es[..|es| - 1] && !Touches(Run(front), es[|es| - 1], id) && i < |es|
    ensures LastChallenge(es, i, id, key) <==> i < |front| && LastChallenge(front, i, id, key)
  {
    hide Run, Touches, Challenges;
    if i == |front| {
      assert es[..i] == front;
      if LastChallenge(es, i, id, key) {
        ChallengesTouch(Run(es[..i]), es[i], id, key);
      }
    } else {
      assert front[..i] == es[..i];
      assert forall j | i < j < |front| :: front[..j] == es[..j] && front[j] == es[j];
      assert forall j | i < j < |es| :: j < |front| || es[..j] == front;
    }
  }

  lemma ChallengesTouch(s: Records, e: Event, id: Fingerprint, key: Bytes)
    requires Challenges(s, e, id, key)
    ensures Touches(s, e, id)
  {
  }

  /** After a sighting of the stored key, verifying the record leaves that key, whatever was pending before. */
  lemma SightingSettles(es: seq<Event>, name: string, address: string, pub: Bytes, now: Time)
    requires FingerprintOf(pub) in Run(es)
    ensures var id := FingerprintOf(pub);
            var s := Run(es + [Observe(name, address, pub, now, id)] + [Verify(name, id)]);
            && ReadsVerified(s, pub) && id in s && s[id].publicKey == pub && s[id].pendingKey == []
            && s.Keys == Run(es).Keys
  {
    var id := FingerprintOf(pub);
    var seen := Observe(name, address, pub, now, id);
    RunSound(es);
    assert (es + [seen])[..|es|] == es;
    assert (es + [seen] + [Verify(name, id)])[..|es| + 1] == es + [seen];
    VerifiedMeans(Run(es + [seen] + [Verify(name, id)]), pub);
  }

  // ---- What the user can do about a changed key ----

  /** Rejecting a changed key undoes its sighting, but for the time last seen. */
  lemma RejectUndoesChange(s: Records, name: string, address: string, pub: Bytes, now: Time, who: Fingerprint)
    requires TrustSpec(s, name, pub).Changed? && Named(s, name, who) && s[who].pendingKey == []
    ensures var s' := ObserveSpec(s, name, address, pub, now, who);
            who in s' && RejectSpec(s', who) == s[who := s[who].(lastSeen := now)]
  {
    var s' := ObserveSpec(s, name, address, pub, now, who);
    assert RejectSpec(s', who)[who] == s[who].(lastSeen := now);
  }

  /** Moving a record under another fingerprint changes no name. */
  lemma NamesMove(s: Records, s': Records, who: Fingerprint, id: Fingerprint, name: string)
    requires who in s && id !in s && s'.Keys == s.Keys - {who} + {id} && s'[id].name == s[who].name
    requires forall other | other in s && other != who :: s'[other].name == s[other].name
    ensures KnownName(s', name) <==> KnownName(s, name)
  {
    if KnownName(s, name) {
      var other :| Named(s, name, other);
      assert Named(s', name, if other == who then id else other);
    }
    if KnownName(s', name) {
      var other :| Named(s', name, other);
      assert Named(s, name, if other == id then who else other);
    }
  }

  /**
   Verifying after a changed key makes that key read VERIFIED and forgets the old one; all other
   keys read as before.
   */
  lemma VerifyAdoptsChange(s: Records, name: string, address: string, pub: Bytes, now: Time, who: Fingerprint,
                           key: Bytes)
    requires Sound(s) && pub != [] && TrustSpec(s, name, pub).Changed? && Named(s, name, who)
    ensures var s1 := ObserveSpec(s, name, address, pub, now, who);
            && who in s1
            && var s2 := VerifySpec(s1, who);
               && ReadsVerified(s2, pub)
               && FingerprintOf(s[who].publicKey) !in s2
               && (key != pub && key != s[who].publicKey ==>
                     forall name' :: TrustSpec(s2, name', key) == TrustSpec(s, name', key))
  {
    var s2 := VerifySpec(ObserveSpec(s, name, address, pub, now, who), who);
    VerifiedMeans(s2, pub);
    forall name'
      ensures KnownName(s2, name') <==> KnownName(s, name')
    {
      NamesMove(s, s2, who, FingerprintOf(pub), name');
    }
  }
}
