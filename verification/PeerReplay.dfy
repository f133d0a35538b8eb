/** Frame expiry and the replay cache of the peer control listener, over unbounded
    sequences of connections. Instants are real numbers of seconds. */
module PeerReplay {
  import opened Outcomes

  const CLOCK_SKEW: real := 30.0
  const FRAME_LIFETIME: real := 600.0
  const CAPACITY: nat := 1_024

  datatype Frame = Frame(identity: string, nonce: string, issued: real, expires: real)

  /** What the frame constructor demands of the two instants. */
  predicate LifetimeValid(f: Frame) {
    f.issued < f.expires && f.expires - f.issued <= FRAME_LIFETIME
  }

  datatype Refusal = Expired | UnknownIdentity | NotGenuine | Replayed | CacheFull

  type Entries = map<string, map<string, real>>

  /** Entries that have not expired; owners left without entries go as well. */
  function Live(owned: map<string, real>, now: real): map<string, real> {
    map nonce | nonce in owned && owned[nonce] > now :: owned[nonce]
  }

  function Purge(entries: Entries, now: real): Entries {
    map owner | owner in entries && Live(entries[owner], now) != map[] :: Live(entries[owner], now)
  }

  function Owned(entries: Entries, identity: string): map<string, real> {
    if identity in entries then entries[identity] else map[]
  }

  datatype Admission = Admission(entries: Entries, refusal: Option<Refusal>)

  /** `_NonceCache.admit`. A refusal still leaves the purged cache behind. */
  function AdmitNonce(entries: Entries, f: Frame, now: real): Admission {
    var purged := Purge(entries, now);
    var mine := Owned(purged, f.identity);
    if f.nonce in mine then Admission(purged, Some(Replayed))
    else if |mine| >= CAPACITY then Admission(purged, Some(CacheFull))
    else Admission(purged[f.identity := mine[f.nonce := f.expires]], None)
  }

  class NonceCache {
    var entries: Entries

    constructor ()
      ensures entries == map[]
    {
      entries := map[];
    }

    method Admit(f: Frame, now: real) returns (refusal: Option<Refusal>)
      modifies this
      ensures Admission(entries, refusal) == AdmitNonce(old(entries), f, now)
    {
      hide Purge;
      DropOwners(now);
      var mine := if f.identity in entries then entries[f.identity] else map[];
      if f.nonce in mine { return Some(Replayed); }
      if |mine| >= CAPACITY { return Some(CacheFull); }
      entries := entries[f.identity := mine[f.nonce := f.expires]];
      return None;
    }

    method DropOwners(now: real)
      modifies this
      ensures entries == Purge(old(entries), now)
    {
      ghost var before := entries;
      var owners := entries.Keys;
      hide Live;
      while owners != {}
        invariant owners <= before.Keys && owners <= entries.Keys <= before.Keys
        invariant forall owner :: owner in owners ==> entries[owner] == before[owner]
        invariant forall owner :: owner in before && owner !in owners ==>
                    if Live(before[owner], now) == map[] then owner !in entries
                    else owner in entries && entries[owner] == Live(before[owner], now)
        decreases owners
      {
        var owner :| owner in owners;
        owners := owners - {owner};
        var kept := DropExpired(entries[owner], now);
        if kept == map[] {
          entries := entries - {owner};
        } else {
          entries := entries[owner := kept];
        }
      }
    }

    method DropExpired(owned: map<string, real>, now: real) returns (kept: map<string, real>)
      ensures kept == Live(owned, now)
    {
      kept := owned;
      var nonces := owned.Keys;
      while nonces != {}
        invariant nonces <= owned.Keys
        invariant kept == map nonce | nonce in owned && (nonce in nonces || owned[nonce] > now) :: owned[nonce]
        decreases nonces
      {
        var nonce :| nonce in nonces;
        nonces := nonces - {nonce};
        if owned[nonce] <= now {
          kept := kept - {nonce};
        }
      }
    }
  }

  // --- connections ------------------------------------------------------------------------

  /** One connection: its frame, whether token and certificate check out, and the two
      clock readings, one for authentication and a later one for the cache. */
  datatype Connection = Connection(frame: Frame, genuine: bool, checkedAt: real, admittedAt: real)

  /** `_authenticate` for the listener's one configured identity. */
  function Authenticate(identity: string, c: Connection): Option<Refusal> {
    if c.frame.issued > c.checkedAt + CLOCK_SKEW || c.frame.expires <= c.checkedAt then Some(Expired)
    else if c.frame.identity != identity then Some(UnknownIdentity)
    else if !c.genuine then Some(NotGenuine)
    else None
  }

  function Handle(identity: string, entries: Entries, c: Connection): Admission {
    var refusal := Authenticate(identity, c);
    if refusal.Some? then Admission(entries, refusal) else AdmitNonce(entries, c.frame, c.admittedAt)
  }

  function Cache(identity: string, past: seq<Connection>): Entries {
    if past == [] then map[]
    else Handle(identity, Cache(identity, past[..|past| - 1]), past[|past| - 1]).entries
  }

  predicate Accepted(identity: string, past: seq<Connection>, i: nat)
    requires i < |past|
  {
    Handle(identity, Cache(identity, past[..i]), past[i]).refusal.None?
  }

  /** A clock that never goes back: readings are taken in order. */
  predicate ClockOrdered(past: seq<Connection>) {
    && (forall i :: 0 <= i < |past| ==> past[i].checkedAt <= past[i].admittedAt)
    && (forall i, j :: 0 <= i < j < |past| ==> past[i].admittedAt <= past[j].checkedAt)
  }

  /** An earlier acceptance of this nonce that is still unexpired at `now`. */
  ghost predicate AcceptedAndLive(identity: string, past: seq<Connection>, nonce: string, now: real) {
    exists i :: 0 <= i < |past| && Accepted(identity, past, i)
                && past[i].frame.nonce == nonce && past[i].frame.expires > now
  }

  lemma PurgedLive(entries: Entries, identity: string, nonce: string, now: real)
    ensures var mine := Owned(entries, identity);
            nonce in Owned(Purge(entries, now), identity) <==> nonce in mine && mine[nonce] > now
    ensures nonce in Owned(Purge(entries, now), identity) ==>
              Owned(Purge(entries, now), identity)[nonce] == Owned(entries, identity)[nonce]
  {
    var mine := Owned(entries, identity);
    if nonce in mine && mine[nonce] > now {
      assert nonce in Live(mine, now);
    }
  }

  lemma AcceptedPrefix(identity: string, past: seq<Connection>, i: nat, k: nat)
    requires i < k <= |past|
    ensures Accepted(identity, past[..k], i) == Accepted(identity, past, i)
  {
    assert past[..k][..i] == past[..i];
  }

  /** What one connection does to one nonce of the configured identity. */
  lemma HandleEffect(identity: string, entries: Entries, c: Connection, nonce: string)
    ensures var before, handled := Owned(entries, identity), Handle(identity, entries, c);
            var after := Owned(handled.entries, identity);
            if handled.refusal.None? && c.frame.nonce == nonce then
              nonce in after && after[nonce] == c.frame.expires && !(nonce in before && before[nonce] > c.admittedAt)
            else
              && (nonce in after ==> nonce in before && after[nonce] == before[nonce])
              && (nonce in before && before[nonce] > c.admittedAt ==> nonce in after)
  {
    PurgedLive(entries, identity, nonce, c.admittedAt);
    hide Purge;
  }

  /** The cache is exact: from the last reading on, a nonce is held with a future expiry
      exactly when a connection with it was accepted and has not expired. */
  lemma {:induction false} CacheExact(identity: string, past: seq<Connection>, nonce: string, now: real)
    requires ClockOrdered(past)
    requires past != [] ==> past[|past| - 1].admittedAt <= now
    ensures var mine := Owned(Cache(identity, past), identity);
            (nonce in mine && mine[nonce] > now) <==> AcceptedAndLive(identity, past, nonce, now)
  {
    if past != [] {
      var front, last := past[..|past| - 1], past[|past| - 1];
      hide Handle, ClockOrdered, Owned, AcceptedAndLive;
      OrderedFront(past);
      CacheExact(identity, front, nonce, now);
      HandleEffect(identity, Cache(identity, front), last, nonce);
      LiveExtends(identity, past, nonce, now);
    }
  }

  lemma {:induction false} LiveExtends(identity: string, past: seq<Connection>, nonce: string, now: real)
    requires past != []
    ensures var front, last := past[..|past| - 1], past[|past| - 1];
            AcceptedAndLive(identity, past, nonce, now) <==>
              AcceptedAndLive(identity, front, nonce, now)
              || (Handle(identity, Cache(identity, front), last).refusal.None? && last.frame.nonce == nonce && last.frame.expires > now)
  {
    var n := |past| - 1;
    assert Accepted(identity, past, n) == Handle(identity, Cache(identity, past[..n]), past[n]).refusal.None?;
    forall i | 0 <= i < n ensures Accepted(identity, past[..n], i) == Accepted(identity, past, i) {
      AcceptedPrefix(identity, past, i, n);
    }
    hide Accepted, Handle, Cache;
    assert forall i :: 0 <= i < n ==> past[..n][i] == past[i];
  }

  lemma OrderedFront(past: seq<Connection>)
    requires ClockOrdered(past) && past != []
    ensures ClockOrdered(past[..|past| - 1])
    ensures |past| > 1 ==> past[|past| - 2].admittedAt <= past[|past| - 1].admittedAt
  {
    assert |past| > 1 ==> past[|past| - 2].admittedAt <= past[|past| - 1].checkedAt;
  }

  // --- theorems ------------------------------------------------------------------------------

  /** The connection is genuine, for this identity, and its frame is current at the first
      reading: not issued more than half a minute ahead, and not expired. */
  predicate Genuine(identity: string, c: Connection) {
    && c.genuine && c.frame.identity == identity
    && c.frame.issued <= c.checkedAt + 30.0 && c.checkedAt < c.frame.expires
  }

  lemma AuthenticatesExactly(identity: string, c: Connection)
    ensures Authenticate(identity, c).None? <==> Genuine(identity, c)
  {
  }

  /** The nonces of accepted frames that have not expired at `now`. */
  function LiveNonces(identity: string, past: seq<Connection>, now: real): set<string> {
    set i | 0 <= i < |past| && Accepted(identity, past, i) && past[i].frame.expires > now :: past[i].frame.nonce
  }

  /** What the purged cache holds is exactly that. */
  lemma {:induction false} PurgedIsLive(identity: string, past: seq<Connection>, now: real)
    requires ClockOrdered(past)
    requires past != [] ==> past[|past| - 1].admittedAt <= now
    ensures Owned(Purge(Cache(identity, past), now), identity).Keys == LiveNonces(identity, past, now)
  {
    hide Purge, Cache, ClockOrdered, Accepted;
    forall nonce ensures nonce in Owned(Purge(Cache(identity, past), now), identity) <==> nonce in LiveNonces(identity, past, now) {
      PurgedLive(Cache(identity, past), identity, nonce, now);
      CacheExact(identity, past, nonce, now);
    }
  }

  /** When a connection is accepted, in terms of the past alone: it is genuine and current,
      no accepted frame with its nonce is still unexpired at the second reading, and fewer
      than 1024 accepted frames are. */
  lemma {:induction false} AcceptedExactly(identity: string, past: seq<Connection>, c: Connection)
    requires ClockOrdered(past + [c])
    ensures Accepted(identity, past + [c], |past|) <==>
              && Genuine(identity, c) && c.frame.nonce !in LiveNonces(identity, past, c.admittedAt)
              && |LiveNonces(identity, past, c.admittedAt)| < 1_024
  {
    var all := past + [c];
    assert all[..|past|] == past && all[|past|] == c;
    assert ClockOrdered(past) by {
      assert forall i :: 0 <= i < |past| ==> all[i] == past[i];
    }
    if past != [] {
      assert all[|past| - 1].admittedAt <= all[|past|].checkedAt;
    }
    AuthenticatesExactly(identity, c);
    PurgedIsLive(identity, past, c.admittedAt);
    var mine := Owned(Purge(Cache(identity, past), c.admittedAt), identity);
    KeyCount(mine);
    hide Purge, LiveNonces, ClockOrdered, Cache, Genuine;
  }

  lemma KeyCount(m: map<string, real>)
    ensures |m| == |m.Keys|
  {
  }

  /** At most once: if the same frame is accepted twice, the clock passed its expiry
      between the two readings of the second connection. */
  lemma ReplayStraddlesExpiry(identity: string, past: seq<Connection>, i: nat, j: nat)
    requires ClockOrdered(past) && i < j < |past| && past[i].frame == past[j].frame
    requires Accepted(identity, past, i) && Accepted(identity, past, j)
    ensures past[j].checkedAt < past[j].frame.expires <= past[j].admittedAt
  {
    var before, c := past[..j], past[j];
    assert before + [c] == past[..j + 1];
    assert ClockOrdered(before + [c]) by {
      assert forall k :: 0 <= k <= j ==> past[..j + 1][k] == past[k];
    }
    AcceptedExactly(identity, before, c);
    AcceptedPrefix(identity, past, j, j + 1);
    AcceptedPrefix(identity, past, i, j);
    assert c.frame.nonce !in LiveNonces(identity, before, c.admittedAt);
    hide ClockOrdered, Cache, Handle;
    assert before[i] == past[i] && Accepted(identity, before, i);
  }

  /** With one clock reading for each connection, no frame is accepted twice. */
  lemma AtMostOnce(identity: string, past: seq<Connection>, i: nat, j: nat)
    requires ClockOrdered(past) && i < j < |past| && past[i].frame == past[j].frame
    requires past[j].checkedAt == past[j].admittedAt
    ensures !(Accepted(identity, past, i) && Accepted(identity, past, j))
  {
    hide ClockOrdered, Accepted;
    if Accepted(identity, past, i) && Accepted(identity, past, j) {
      ReplayStraddlesExpiry(identity, past, i, j);
    }
  }

  /** The two readings matter: a frame accepted once is accepted again when its expiry
      falls between them. */
  lemma ReplayAcceptedAcrossExpiry(identity: string, f: Frame, first: real, late: real)
    requires LifetimeValid(f) && f.identity == identity && f.issued <= first < f.expires <= late
    ensures var past := [Connection(f, true, first, first), Connection(f, true, first, late)];
            ClockOrdered(past) && Accepted(identity, past, 0) && Accepted(identity, past, 1)
  {
    var once, again := Connection(f, true, first, first), Connection(f, true, first, late);
    var past := [once, again];
    assert past[..0] == [] && past[..1] == [once] && [once][..0] == [];
    assert Cache(identity, []) == map[] && Purge(map[], first) == map[];
    assert Handle(identity, map[], once) == Admission(map[identity := map[f.nonce := f.expires]], None);
    assert Cache(identity, [once]) == map[identity := map[f.nonce := f.expires]];
    assert Live(map[f.nonce := f.expires], late) == map[];
    assert Purge(Cache(identity, [once]), late) == map[];
  }

  /** No identity ever holds more than the capacity. */
  lemma {:induction false} CapacityKept(identity: string, past: seq<Connection>, owner: string)
    ensures |Owned(Cache(identity, past), owner)| <= CAPACITY
  {
    if past != [] {
      var front, last := past[..|past| - 1], past[|past| - 1];
      CapacityKept(identity, front, owner);
      var entries := Cache(identity, front);
      LiveIsSmaller(Owned(entries, owner), last.admittedAt);
      assert |Owned(Purge(entries, last.admittedAt), owner)| <= CAPACITY;
    }
  }

  lemma LiveIsSmaller(owned: map<string, real>, now: real)
    ensures |Live(owned, now)| <= |owned|
  {
    var kept := Live(owned, now);
    assert kept.Keys <= owned.Keys;
    assert owned.Keys == kept.Keys + (owned.Keys - kept.Keys);
  }

  /** Every nonce is gone skew plus lifetime after the last connection was checked, so a
      full cache always has room again by then. */
  lemma {:induction false} HeldBriefly(identity: string, past: seq<Connection>, last: real)
    requires forall i :: 0 <= i < |past| ==> LifetimeValid(past[i].frame) && past[i].checkedAt <= last
    ensures Owned(Purge(Cache(identity, past), last + CLOCK_SKEW + FRAME_LIFETIME), identity) == map[]
  {
    var now, entries := last + CLOCK_SKEW + FRAME_LIFETIME, Cache(identity, past);
    hide Cache, Purge;
    forall nonce ensures nonce !in Owned(Purge(entries, now), identity) {
      NonceHeldBriefly(identity, past, nonce, last);
      PurgedLive(entries, identity, nonce, now);
    }
  }

  lemma {:induction false} NonceHeldBriefly(identity: string, past: seq<Connection>, nonce: string, last: real)
    requires forall i :: 0 <= i < |past| ==> LifetimeValid(past[i].frame) && past[i].checkedAt <= last
    ensures var mine := Owned(Cache(identity, past), identity);
            nonce in mine ==> mine[nonce] <= last + CLOCK_SKEW + FRAME_LIFETIME
  {
    if past != [] {
      var front, c := past[..|past| - 1], past[|past| - 1];
      assert forall i :: 0 <= i < |front| ==> front[i] == past[i];
      NonceHeldBriefly(identity, front, nonce, last);
      HandleEffect(identity, Cache(identity, front), c, nonce);
      assert LifetimeValid(c.frame) && c.checkedAt <= last;
    }
  }
}
