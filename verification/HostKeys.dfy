/** The SSH host key pair: read at boot, generated and stored if either half is missing. */
module HostKeys {
  import opened CStrings
  import opened KeyValueStores

  type Flash = map<ObjectId, Bytes>

  /** How a public key follows from a private one; the crypto engine is not part of this model,
    so every statement below holds for every such function. */
  type Derivation = Bytes -> Bytes

  datatype KeyPair = KeyPair(pub: Bytes, priv: Bytes)

  ghost predicate Matching(derive: Derivation, pair: KeyPair) {
    pair.pub == derive(pair.priv)
  }

  predicate BothStored(flash: Flash) {
    SshHostPub in flash && SshHostPriv in flash
  }

  function StoredPair(flash: Flash): KeyPair
    requires BothStored(flash)
  {
    KeyPair(flash[SshHostPub], flash[SshHostPriv])
  }

  /** The flash holds no pair, or one whose halves belong together. */
  ghost predicate Consistent(derive: Derivation, flash: Flash) {
    BothStored(flash) ==> Matching(derive, StoredPair(flash))
  }

  class HostKeyServer {
    const kvs: KeyValueStore
    const derive: Derivation
    var active: KeyPair

    constructor (kvs: KeyValueStore, derive: Derivation)
      ensures this.kvs == kvs && this.derive == derive
    {
      this.kvs, this.derive, active := kvs, derive, KeyPair([], []);
    }

    /** The host key part of the server's constructor. `seed` is the private key the generator
      would come up with; the flags say whether the flash takes the two writes. */
    method InitHostKey(seed: Bytes, pubWorks: bool, privWorks: bool)
      modifies this, kvs
      ensures Booted(derive, old(kvs.objects), Boot(seed, pubWorks, privWorks), active, kvs.objects)
      ensures old(SshHostPub in kvs.objects && SshHostPriv in kvs.objects) ==>
                && active.pub == old(kvs.objects)[SshHostPub] && active.priv == old(kvs.objects)[SshHostPriv]
                && kvs.objects == old(kvs.objects)
      ensures !old(BothStored(kvs.objects)) && pubWorks && privWorks ==>
                BothStored(kvs.objects) && StoredPair(kvs.objects) == active == KeyPair(derive(seed), seed)
    {
      var found := true;
      var pubFound, pub := kvs.ReadObject(SshHostPub);
      if !pubFound {
        found := false;
      }
      var privFound, priv := kvs.ReadObject(SshHostPriv);
      if !privFound {
        found := false;
      }
      if found {
        active := KeyPair(pub, priv);
      } else {
        active := KeyPair(derive(seed), seed);
        var pubOk := kvs.StoreObject(SshHostPub, active.pub, pubWorks);
        var privOk := kvs.StoreObject(SshHostPriv, active.priv, privWorks);
      }
    }
  }

  // ---------------------------------------------------------------- many boots

  datatype Event =
    | Boot(seed: Bytes, pubWorks: bool, privWorks: bool)
    | Wipe
    | Remove(key: ObjectId)

  /** The event takes a half of the pair out of the flash. */
  predicate TakesHalf(e: Event) {
    e == Wipe || e == Remove(SshHostPub) || e == Remove(SshHostPriv)
  }

  /** What one boot does to the active pair and to the flash. */
  ghost predicate Booted(derive: Derivation, before: Flash, boot: Event, active: KeyPair, after: Flash)
    requires boot.Boot?
  {
    if BothStored(before)
    then active == StoredPair(before) && after == before
    else
      && active == KeyPair(derive(boot.seed), boot.seed)
      && (forall k :: k != SshHostPub && k != SshHostPriv ==>
            (k in after <==> k in before) && (k in after ==> after[k] == before[k]))
      && HalfStored(before, after, SshHostPub, active.pub, boot.pubWorks)
      && HalfStored(before, after, SshHostPriv, active.priv, boot.privWorks)
  }

  predicate HalfStored(before: Flash, after: Flash, key: ObjectId, value: Bytes, works: bool) {
    if works then key in after && after[key] == value
    else (key in after <==> key in before) && (key in after ==> after[key] == before[key])
  }

  /** A history of the device: what the flash held before each event and after the last one, and
    the pair that was active after each event. */
  ghost predicate History(derive: Derivation, events: seq<Event>, flash: seq<Flash>, active: seq<KeyPair>) {
    && |flash| == |events| + 1 && |active| == |events|
    && forall i {:trigger events[i]} :: 0 <= i < |events| ==>
         match events[i]
         case Boot(_, _, _) => Booted(derive, flash[i], events[i], active[i], flash[i + 1])
         case Wipe => flash[i + 1] == map[]
         case Remove(key) => flash[i + 1] == flash[i] - {key}
  }

  /** The boot mixes two pairs: one half was left over from an earlier pair, only the other half
    could be stored, and the leftover does not belong to the new pair by chance. */
  ghost predicate Mixes(derive: Derivation, before: Flash, boot: Event)
    requires boot.Boot?
  {
    || (&& SshHostPub in before && SshHostPriv !in before && !boot.pubWorks && boot.privWorks
        && before[SshHostPub] != derive(boot.seed))
    || (&& SshHostPriv in before && SshHostPub !in before && boot.pubWorks && !boot.privWorks
        && derive(before[SshHostPriv]) != derive(boot.seed))
  }

  /** The i-th event mixes two pairs and no half has been taken out of the flash since. */
  ghost predicate MixedSince(derive: Derivation, events: seq<Event>, flash: seq<Flash>, i: nat, n: nat)
    requires i < n <= |events| < |flash|
  {
    && events[i].Boot? && Mixes(derive, flash[i], events[i])
    && forall j :: i < j < n ==> !TakesHalf(events[j])
  }

  /** One event: the flash turns inconsistent by a mixing boot, and consistent again by nothing but
    the loss of a half. */
  lemma InconsistentAfter(derive: Derivation, events: seq<Event>, flash: seq<Flash>, active: seq<KeyPair>, i: nat)
    requires History(derive, events, flash, active) && i < |events|
    ensures !Consistent(derive, flash[i + 1]) <==>
              || (Consistent(derive, flash[i]) && events[i].Boot? && Mixes(derive, flash[i], events[i]))
              || (!Consistent(derive, flash[i]) && !TakesHalf(events[i]))
  {
    match events[i]
    case Boot(_, _, _) =>
    case Wipe =>
    case Remove(key) =>
  }

  /** Some boot among the first n events mixed two pairs, and no half has been lost since. */
  ghost predicate Mixed(derive: Derivation, events: seq<Event>, flash: seq<Flash>, n: nat)
    requires n <= |events| < |flash|
  {
    exists i :: 0 <= i < n && MixedSince(derive, events, flash, i, n)
  }

  lemma MixedAfter(derive: Derivation, events: seq<Event>, flash: seq<Flash>, n: nat)
    requires n < |events| < |flash|
    ensures Mixed(derive, events, flash, n + 1) <==>
              || (events[n].Boot? && Mixes(derive, flash[n], events[n]))
              || (Mixed(derive, events, flash, n) && !TakesHalf(events[n]))
  {
    if events[n].Boot? && Mixes(derive, flash[n], events[n]) {
      assert MixedSince(derive, events, flash, n, n + 1);
    } else if Mixed(derive, events, flash, n) {
      var i :| 0 <= i < n && MixedSince(derive, events, flash, i, n);
      assert MixedSince(derive, events, flash, i, n + 1) <==> !TakesHalf(events[n]);
    }
    var next := n + 1;
    if i :| 0 <= i < n && MixedSince(derive, events, flash, i, next) {
      assert MixedSince(derive, events, flash, i, n);
    }
  }

  /** Over any history from a consistent flash, with any stores failing: the flash holds halves that
    do not match if and only if some boot mixed two pairs and no half has been lost since. */
  lemma {:induction false} InconsistentExactlyIf(derive: Derivation, events: seq<Event>,
      flash: seq<Flash>, active: seq<KeyPair>, n: nat)
    requires History(derive, events, flash, active) && Consistent(derive, flash[0]) && n <= |events|
    ensures !Consistent(derive, flash[n]) <==> Mixed(derive, events, flash, n)
  {
    if n == 0 {
    } else {
      InconsistentExactlyIf(derive, events, flash, active, n - 1);
      InconsistentAfter(derive, events, flash, active, n - 1);
      MixedAfter(derive, events, flash, n - 1);
    }
  }

  /** So the pair that is active after a boot matches if and only if the boot did not find such
    halves. */
  lemma ActivePairMatchesExactlyIf(derive: Derivation, events: seq<Event>,
      flash: seq<Flash>, active: seq<KeyPair>, n: nat)
    requires History(derive, events, flash, active) && Consistent(derive, flash[0])
    requires n < |events| && events[n].Boot?
    ensures Matching(derive, active[n]) <==> !Mixed(derive, events, flash, n)
  {
    InconsistentExactlyIf(derive, events, flash, active, n);
  }

  /** In particular it matches if no boot before mixed two pairs. */
  lemma ActivePairMatches(derive: Derivation, events: seq<Event>,
      flash: seq<Flash>, active: seq<KeyPair>, n: nat)
    requires History(derive, events, flash, active) && Consistent(derive, flash[0])
    requires n < |events| && events[n].Boot?
    requires forall i :: 0 <= i < n && events[i].Boot? ==> !Mixes(derive, flash[i], events[i])
    ensures Matching(derive, active[n])
  {
    ActivePairMatchesExactlyIf(derive, events, flash, active, n);
  }

  /** The flash is consistent all the time if and only if no boot mixes two pairs. */
  lemma AlwaysConsistentExactlyIf(derive: Derivation, events: seq<Event>,
      flash: seq<Flash>, active: seq<KeyPair>, n: nat)
    requires History(derive, events, flash, active) && Consistent(derive, flash[0]) && n <= |events|
    ensures (forall m :: 0 <= m <= n ==> Consistent(derive, flash[m]))
            <==> (forall i :: 0 <= i < n && events[i].Boot? ==> !Mixes(derive, flash[i], events[i]))
  {
    forall m | 0 <= m <= n
      ensures !Consistent(derive, flash[m]) <==> Mixed(derive, events, flash, m)
    {
      InconsistentExactlyIf(derive, events, flash, active, m);
    }
    forall i | 0 <= i < n && events[i].Boot? && Mixes(derive, flash[i], events[i])
      ensures !Consistent(derive, flash[i + 1])
    {
      assert MixedSince(derive, events, flash, i, i + 1);
    }
  }

  /** A boot whose stores both succeed, or both fail, never mixes. */
  lemma WorkingStoresNeverMix(derive: Derivation, before: Flash, boot: Event)
    requires boot.Boot? && boot.pubWorks == boot.privWorks
    ensures !Mixes(derive, before, boot)
  {
  }

  /** Once a boot has established a pair in the flash, every later boot uses it, whether or not
    stores would work then, until a half is lost. */
  lemma {:induction false} EstablishedPairStays(derive: Derivation, events: seq<Event>,
      flash: seq<Flash>, active: seq<KeyPair>, m: nat, n: nat)
    requires History(derive, events, flash, active)
    requires m < n <= |events| && events[m].Boot?
    requires BothStored(flash[m]) || (events[m].pubWorks && events[m].privWorks)
    requires forall i :: m < i < n ==> !TakesHalf(events[i])
    ensures BothStored(flash[n]) && StoredPair(flash[n]) == active[m]
    ensures n < |events| && events[n].Boot? ==> active[n] == active[m]
  {
    if n == m + 1 {
      assert events[m].Boot?;
    } else {
      EstablishedPairStays(derive, events, flash, active, m, n - 1);
      assert !TakesHalf(events[n - 1]);
    }
  }

  /** Such a run: only the private half survives, the new public half is stored, the new private
    half is not. The next boot finds both and uses a pair that does not match. */
  lemma LeftoverHalfCanMismatch()
    ensures exists derive: Derivation, events: seq<Event>, flash: seq<Flash>, active: seq<KeyPair> ::
              && History(derive, events, flash, active) && Consistent(derive, flash[0])
              && |events| == 2 && events[1].Boot? && !Matching(derive, active[1])
  {
    var derive: Derivation := priv => priv;
    var first := Boot(['b'], true, false);
    var second := Boot(['c'], true, true);
    var start: Flash := map[SshHostPriv := ['a']];
    var mixed: Flash := start[SshHostPub := ['b']];
    var events, flash := [first, second], [start, mixed, mixed];
    var active := [KeyPair(['b'], ['b']), KeyPair(['b'], ['a'])];
    assert Booted(derive, start, first, active[0], mixed);
    assert Booted(derive, mixed, second, active[1], mixed);
    assert History(derive, events, flash, active);
    assert !Matching(derive, active[1]);
  }
}
