/** The client's replay cache (cmd/client/direct_replay.go): keys of delivered datagrams,
    forgotten when their ticket expires. */
module ReplayCache {
  import opened GoStrings
  import opened GoTime

  type Entries = map<Str, Time>

  /** When an accepted key may be forgotten. */
  function EntryExpiry(expiresAt: Time, now: Time): Time {
    if IsZero(expiresAt) || !(now < expiresAt) then now + 30 * SECOND else expiresAt
  }

  function PruneIn(m: Entries, now: Time): Entries {
    map k | k in m && now < m[k] :: m[k]
  }

  predicate AcceptsIn(m: Entries, key: Str, now: Time) {
    key !in PruneIn(m, now)
  }

  function AfterAccept(m: Entries, key: Str, expiresAt: Time, now: Time): Entries {
    if AcceptsIn(m, key, now) then PruneIn(m, now)[key := EntryExpiry(expiresAt, now)] else PruneIn(m, now)
  }

  class DirectReplayCache {
    var entries: Entries

    constructor ()
      ensures entries == map[]
    {
      entries := map[];
    }

    method AcceptDirectReplayKey(key: Str, expiresAt: Time, now: Time) returns (accepted: bool)
      modifies this
      ensures accepted == AcceptsIn(old(entries), key, now)
      ensures entries == AfterAccept(old(entries), key, expiresAt, now)
    {
      var expiry := if IsZero(expiresAt) || !(now < expiresAt) then now + 30 * SECOND else expiresAt;
      ghost var before := entries;
      var todo := entries.Keys;
      while todo != {}
        invariant todo <= entries.Keys
        invariant entries == map k | k in before && (k in todo || now < before[k]) :: before[k]
        decreases todo
      {
        var replayKey :| replayKey in todo;
        todo := todo - {replayKey};
        if !(now < entries[replayKey]) { entries := entries - {replayKey}; }
      }
      if key in entries { return false; }
      entries := entries[key := expiry];
      accepted := true;
    }
  }

  // ---- whole runs -------------------------------------------------------------------

  /** A datagram presented to the cache, or a moment at which nothing is. */
  datatype Call = Present(key: Str, expiresAt: Time, at: Time) | Idle(at: Time)

  function After(m: Entries, call: Call): Entries {
    match call
    case Present(key, expiresAt, at) => AfterAccept(m, key, expiresAt, at)
    case Idle(at) => m
  }

  predicate Run(calls: seq<Call>, maps: seq<Entries>) {
    && (forall i, j :: 0 <= i < j < |calls| ==> calls[i].at <= calls[j].at)
    && |maps| == |calls| + 1 && maps[0] == map[]
    && forall k :: 0 <= k < |calls| ==> maps[k + 1] == After(maps[k], calls[k])
  }

  predicate Accepted(calls: seq<Call>, maps: seq<Entries>, i: nat)
    requires Run(calls, maps) && i < |calls|
  {
    calls[i].Present? && AcceptsIn(maps[i], calls[i].key, calls[i].at)
  }

  /** Call i accepted the key and the entry it made lasts beyond `now`. */
  predicate Remembers(calls: seq<Call>, maps: seq<Entries>, i: nat, key: Str, now: Time)
    requires Run(calls, maps) && i < |calls|
  {
    Accepted(calls, maps, i) && calls[i].key == key && now < EntryExpiry(calls[i].expiresAt, calls[i].at)
  }

  lemma {:induction false} EntryIffRemembered(calls: seq<Call>, maps: seq<Entries>, k: nat, key: Str, now: Time)
    requires Run(calls, maps) && k <= |calls| && (k > 0 ==> calls[k - 1].at <= now)
    ensures (key in maps[k] && now < maps[k][key]) <==> exists i: nat :: i < k && Remembers(calls, maps, i, key, now)
    decreases k
  {
    if k > 0 {
      var call := calls[k - 1];
      EntryIffRemembered(calls, maps, k - 1, key, now);
      if call.Present? && call.key == key && Accepted(calls, maps, k - 1) {
        EntryIffRemembered(calls, maps, k - 1, key, call.at);
        if now < EntryExpiry(call.expiresAt, call.at) { assert Remembers(calls, maps, k - 1, key, now); }
        forall i: nat | i < k - 1 ensures !Remembers(calls, maps, i, key, now) {
          assert !Remembers(calls, maps, i, key, call.at);
        }
      }
    }
  }

  /** A key is accepted exactly when no earlier acceptance of it is still remembered,
      whatever was pruned in between. */
  lemma AcceptedIffNotRemembered(calls: seq<Call>, maps: seq<Entries>, k: nat)
    requires Run(calls, maps) && k < |calls| && calls[k].Present?
    ensures Accepted(calls, maps, k) <==> !exists i: nat :: i < k && Remembers(calls, maps, i, calls[k].key, calls[k].at)
  {
    EntryIffRemembered(calls, maps, k, calls[k].key, calls[k].at);
  }

  /** A key is accepted a second time only at or after the moment the first acceptance's
      entry expires: the ticket's expiry, or 30 seconds on for a ticket without one. */
  lemma AcceptedTwiceOnlyAfterExpiry(calls: seq<Call>, maps: seq<Entries>, i: nat, j: nat)
    requires Run(calls, maps) && i < j < |calls| && Accepted(calls, maps, i) && Accepted(calls, maps, j)
    requires calls[i].key == calls[j].key
    ensures EntryExpiry(calls[i].expiresAt, calls[i].at) <= calls[j].at
  {
    AcceptedIffNotRemembered(calls, maps, j);
    assert !Remembers(calls, maps, i, calls[j].key, calls[j].at);
  }

  /** After an acceptance the key is refused exactly until the ticket expires; or for 30
      seconds if it has no expiry or the expiry is past. */
  lemma RefusedUntil(m: Entries, key: Str, expiresAt: Time, t: Time, u: Time)
    requires AcceptsIn(m, key, t) && t <= u
    ensures AcceptsIn(AfterAccept(m, key, expiresAt, t), key, u) <==>
            u >= if expiresAt == 0 || expiresAt <= t then t + 30_000_000_000 else expiresAt
    ensures forall k :: k != key ==> (AcceptsIn(AfterAccept(m, key, expiresAt, t), k, u) <==> AcceptsIn(m, k, u))
  {
  }

  /** Every call forgets the entries whose time has come: what it leaves is its own key or
      still to expire. */
  lemma ExpiredAreForgotten(m: Entries, key: Str, expiresAt: Time, now: Time)
    ensures forall k :: k in AfterAccept(m, key, expiresAt, now) <==> (k in m && now < m[k]) || k == key
    ensures forall k :: k in m && now < m[k] ==> AfterAccept(m, key, expiresAt, now)[k] == m[k]
  {
  }

  /** The ticket behind these datagrams is live: it has no expiry, or the expiry is to come. */
  predicate LiveAt(expiresAt: Time, now: Time) {
    IsZero(expiresAt) || now < expiresAt
  }

  /** A live ticket's key can be accepted at t and again while the ticket is live. */
  ghost predicate AcceptsTwice(key: Str, expiresAt: Time, t: Time) {
    exists u, maps :: LiveAt(expiresAt, u) && TwoAccepted(key, expiresAt, t, u, maps)
  }

  predicate TwoAccepted(key: Str, expiresAt: Time, t: Time, u: Time, maps: seq<Entries>) {
    var calls := [Present(key, expiresAt, t), Present(key, expiresAt, u)];
    Run(calls, maps) && Accepted(calls, maps, 0) && Accepted(calls, maps, 1)
  }

  /** A live ticket's key is accepted twice in some run if and only if the ticket has no
      expiry: the guard that puts 30 seconds in its place. */
  lemma AcceptsTwiceIffZeroExpiry(key: Str, expiresAt: Time, t: Time)
    requires LiveAt(expiresAt, t)
    ensures AcceptsTwice(key, expiresAt, t) <==> IsZero(expiresAt)
  {
    if IsZero(expiresAt) {
      var u, m1 := t + 30 * SECOND, AfterAccept(map[], key, 0, t);
      assert TwoAccepted(key, 0, t, u, [map[], m1, AfterAccept(m1, key, 0, u)]);
    }
    forall u, maps | LiveAt(expiresAt, u) && TwoAccepted(key, expiresAt, t, u, maps) ensures IsZero(expiresAt) {
      AcceptedTwiceOnlyAfterExpiry([Present(key, expiresAt, t), Present(key, expiresAt, u)], maps, 0, 1);
    }
  }

  /** A ticket without an expiry lets a key through again after 30 seconds. */
  lemma ZeroExpiryForgets(key: Str, t: Time)
    ensures var calls := [Present(key, 0, t), Present(key, 0, t + 30 * SECOND)];
            exists maps :: Run(calls, maps) && Accepted(calls, maps, 0) && Accepted(calls, maps, 1)
  {
    var calls := [Present(key, 0, t), Present(key, 0, t + 30 * SECOND)];
    var m1 := AfterAccept(map[], key, 0, t);
    var maps := [map[], m1, AfterAccept(m1, key, 0, t + 30 * SECOND)];
    assert Run(calls, maps);
    assert Accepted(calls, maps, 0) && Accepted(calls, maps, 1);
  }
}
