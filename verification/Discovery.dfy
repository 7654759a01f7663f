/** The per-peer guard on discovery traffic (internal/transport/relay.go): a token bucket
    behind a window of recently admitted fingerprints.  Tokens are reals. */
module Discovery {
  import opened FiniteSets
  import opened GoStrings

  /** Seconds. */
  type Instant = real

  datatype Options = Options(rate: real, burst: int, window: real)

  const DEFAULT_RATE := 20.0
  const DEFAULT_BURST := 40
  const DEFAULT_WINDOW := 0.75

  function Normalize(o: Options): Options {
    Options(
      if o.rate <= 0.0 then DEFAULT_RATE else o.rate,
      if o.burst <= 0 then DEFAULT_BURST else o.burst,
      if o.window < 0.0 then DEFAULT_WINDOW else o.window)
  }

  predicate Normal(o: Options) {
    o.rate > 0.0 && o.burst > 0 && o.window >= 0.0
  }

  /** Normalising makes any options usable and leaves usable ones alone. */
  lemma NormalizeIsNormal(o: Options)
    ensures Normal(Normalize(o)) && (Normal(o) ==> Normalize(o) == o)
    ensures Normalize(o).rate == (if o.rate > 0.0 then o.rate else 20.0) && Normalize(o).burst == (if o.burst > 0 then o.burst else 40)
    ensures Normalize(o).window == if o.window >= 0.0 then o.window else 0.75
  {
  }

  datatype PeerState = PeerState(tokens: real, lastRefill: Instant, seen: map<Str, Instant>)

  datatype Verdict = Admitted | Duplicate | RateLimited

  /** What the bucket gains from time s to time t. */
  function Gain(o: Options, s: Instant, t: Instant): real {
    o.rate * t - o.rate * s
  }

  lemma GainIsRateTimesLength(o: Options, s: Instant, t: Instant)
    ensures Gain(o, s, t) == (t - s) * o.rate
    ensures o.rate > 0.0 && s <= t ==> Gain(o, s, t) >= 0.0
  {
  }

  // ---- the guard on values ------------------------------------------------------

  function Fresh(o: Options, now: Instant): PeerState {
    PeerState(o.burst as real, now, map[])
  }

  function PruneSeen(o: Options, s: PeerState, now: Instant): PeerState {
    if o.window > 0.0 then s.(seen := map k | k in s.seen && now - s.seen[k] < o.window :: s.seen[k]) else s
  }

  function Min(x: real, y: real): real {
    if x > y then y else x
  }

  function Refill(o: Options, s: PeerState, now: Instant): PeerState {
    if now - s.lastRefill > 0.0
    then s.(tokens := Min(s.tokens + Gain(o, s.lastRefill, now), o.burst as real), lastRefill := now)
    else s
  }

  function GuardOne(o: Options, s: PeerState, fingerprint: Str, now: Instant): (PeerState, Verdict) {
    var p := PruneSeen(o, s, now);
    if o.window > 0.0 && fingerprint in p.seen then (p, Duplicate)
    else
      var r := Refill(o, p, now);
      if r.tokens < 1.0 then (r, RateLimited)
      else (r.(tokens := r.tokens - 1.0, seen := if o.window > 0.0 then r.seen[fingerprint := now] else r.seen), Admitted)
  }

  type Peers = map<Str, PeerState>

  function StateOf(o: Options, peers: Peers, node: Str, now: Instant): PeerState {
    if node in peers then peers[node] else Fresh(o, now)
  }

  function GuardIn(o: Options, peers: Peers, node: Str, fingerprint: Str, now: Instant): (Peers, Verdict) {
    var (s, v) := GuardOne(o, StateOf(o, peers, node, now), fingerprint, now);
    (peers[node := s], v)
  }

  // ---- the object ---------------------------------------------------------------------

  class DiscoveryPeerState {
    var tokens: real
    var lastRefill: Instant
    var seen: map<Str, Instant>

    constructor (o: Options, now: Instant)
      ensures View() == Fresh(o, now)
    {
      tokens := o.burst as real;
      lastRefill := now;
      seen := map[];
    }

    ghost function View(): PeerState
      reads this
    {
      PeerState(tokens, lastRefill, seen)
    }

    method Judge(o: Options, fingerprint: Str, now: Instant) returns (v: Verdict)
      modifies this
      ensures (View(), v) == GuardOne(o, old(View()), fingerprint, now)
    {
      if o.window > 0.0 {
        PruneOld(o, now);
        if fingerprint in seen { return Duplicate; }
      }
      TopUp(o, now);
      if tokens < 1.0 { return RateLimited; }
      tokens := tokens - 1.0;
      if o.window > 0.0 { seen := seen[fingerprint := now]; }
      v := Admitted;
    }

    method TopUp(o: Options, now: Instant)
      modifies this
      ensures View() == Refill(o, old(View()), now)
    {
      var elapsed := now - lastRefill;
      GainIsRateTimesLength(o, lastRefill, now);
      if elapsed > 0.0 {
        tokens := tokens + elapsed * o.rate;
        if tokens > o.burst as real { tokens := o.burst as real; }
        lastRefill := now;
      }
    }

    method PruneOld(o: Options, now: Instant)
      requires o.window > 0.0
      modifies this
      ensures View() == PruneSeen(o, old(View()), now)
    {
      ghost var before := seen;
      var todo := seen.Keys;
      while todo != {}
        invariant todo <= seen.Keys && tokens == old(tokens) && lastRefill == old(lastRefill)
        invariant seen == map k | k in before && (k in todo || now - before[k] < o.window) :: before[k]
        decreases todo
      {
        var key :| key in todo;
        todo := todo - {key};
        if now - seen[key] >= o.window { seen := seen - {key}; }
      }
    }
  }

  /** The relay's table of peer states. */
  class Guard {
    const options: Options
    var discovery: map<Str, DiscoveryPeerState>

    /** Two peers never share a state. */
    ghost predicate Valid()
      reads this
    {
      forall m, n :: m in discovery && n in discovery && discovery[m] == discovery[n] ==> m == n
    }

    ghost function View(): Peers
      reads this, discovery.Values
    {
      map n | n in discovery :: discovery[n].View()
    }

    constructor (o: Options)
      ensures Valid() && options == Normalize(o) && View() == map[] && discovery == map[]
    {
      options := Normalize(o);
      discovery := map[];
    }

    method GuardDiscovery(node: Str, fingerprint: Str, now: Instant) returns (v: Verdict)
      requires Valid()
      modifies this, discovery.Values
      ensures Valid() && fresh(discovery.Values - old(discovery.Values))
      ensures (View(), v) == GuardIn(options, old(View()), node, fingerprint, now)
    {
      ghost var before := View();
      var state: DiscoveryPeerState;
      if node in discovery {
        state := discovery[node];
      } else {
        state := new DiscoveryPeerState(options, now);
        discovery := discovery[node := state];
      }
      v := state.Judge(options, fingerprint, now);
      assert View() == before[node := state.View()];
    }

    method Forget(node: Str)
      requires Valid()
      modifies this
      ensures Valid() && discovery.Values <= old(discovery.Values) && View() == old(View()) - {node}
    {
      discovery := discovery - {node};
    }
  }

  // ---- the bucket against the history of admissions ---------------------------------------

  /** The tokens there would be at t if the bucket had been full before these admissions. */
  function Level(o: Options, adm: seq<Instant>, t: Instant): real {
    if adm == [] then o.burst as real
    else
      var a := adm[|adm| - 1];
      Min(Level(o, adm[..|adm| - 1], a) - 1.0 + Gain(o, a, t), o.burst as real)
  }

  /** Admissions from time s on. */
  function CountFrom(adm: seq<Instant>, s: Instant): nat {
    if adm == [] then 0
    else CountFrom(adm[..|adm| - 1], s) + (if s <= adm[|adm| - 1] then 1 else 0)
  }

  predicate Ascending(adm: seq<Instant>, t: Instant) {
    && (forall i, j :: 0 <= i < j < |adm| ==> adm[i] <= adm[j])
    && (forall i :: 0 <= i < |adm| ==> adm[i] <= t)
  }

  /** The stretch from s to t has room for c more admissions. */
  predicate Fits(o: Options, adm: seq<Instant>, s: Instant, t: Instant, c: real) {
    CountFrom(adm, s) as real + c <= o.burst as real + Gain(o, s, t)
  }

  /** Every stretch that ends at t has room for c more admissions. */
  ghost predicate Room(o: Options, adm: seq<Instant>, t: Instant, c: real) {
    forall s: Instant :: s <= t ==> Fits(o, adm, s, t, c)
  }

  lemma {:induction false} NoneAfter(adm: seq<Instant>, s: Instant)
    requires forall i :: 0 <= i < |adm| ==> adm[i] < s
    ensures CountFrom(adm, s) == 0
  {
    if adm != [] { NoneAfter(adm[..|adm| - 1], s); }
  }

  lemma RoomWithout(o: Options, t: Instant, c: real)
    requires o.rate > 0.0
    ensures Room(o, [], t, c) <==> c <= o.burst as real
  {
    if c <= o.burst as real {
      forall s: Instant | s <= t ensures Fits(o, [], s, t, c) { GainIsRateTimesLength(o, s, t); }
    }
    assert Fits(o, [], t, t, c) ==> c <= o.burst as real;
  }

  /** One admission at a uses up one token of every stretch that starts by then. */
  lemma RoomWith(o: Options, init: seq<Instant>, a: Instant, t: Instant, c: real)
    requires o.rate > 0.0 && Ascending(init, a) && a <= t
    ensures Room(o, init + [a], t, c) <==> c <= o.burst as real && Room(o, init, a, c + 1.0 - Gain(o, a, t))
  {
    var adm, c' := init + [a], c + 1.0 - Gain(o, a, t);
    assert adm[..|init|] == init;
    forall s: Instant ensures s <= a ==> (Fits(o, adm, s, t, c) <==> Fits(o, init, s, a, c')) {}
    forall s: Instant | a < s <= t ensures c <= o.burst as real ==> Fits(o, adm, s, t, c) {
      NoneAfter(init, s);
      GainIsRateTimesLength(o, s, t);
    }
    assert Fits(o, adm, t, t, c) ==> c <= o.burst as real;
  }

  /** The level is at least c exactly when every stretch has room for c more. */
  lemma {:induction false} LevelIffRoom(o: Options, adm: seq<Instant>, t: Instant, c: real)
    requires o.rate > 0.0 && Ascending(adm, t)
    ensures Level(o, adm, t) >= c <==> Room(o, adm, t, c)
    decreases |adm|
  {
    if adm == [] {
      RoomWithout(o, t, c);
    } else {
      var init, a := adm[..|adm| - 1], adm[|adm| - 1];
      assert adm == init + [a];
      LevelIffRoom(o, init, a, c + 1.0 - Gain(o, a, t));
      RoomWith(o, init, a, t, c);
    }
  }

  // ---- runs of one peer ----------------------------------------------------------------------

  datatype Arrival = Arrival(fingerprint: Str, at: Instant)

  /** A run of one peer's discovery packets since its state was made: states[k] before
      packet k, and the verdicts. */
  predicate Run(o: Options, arrivals: seq<Arrival>, states: seq<PeerState>, verdicts: seq<Verdict>) {
    && Normal(o)
    && (forall i, j :: 0 <= i < j < |arrivals| ==> arrivals[i].at <= arrivals[j].at)
    && |states| == |arrivals| + 1 && |verdicts| == |arrivals|
    && (arrivals != [] ==> states[0] == Fresh(o, arrivals[0].at))
    && forall k :: 0 <= k < |arrivals| ==> Step(o, states[k], arrivals[k], states[k + 1], verdicts[k])
  }

  predicate Step(o: Options, s: PeerState, a: Arrival, s': PeerState, v: Verdict) {
    (s', v) == GuardOne(o, s, a.fingerprint, a.at)
  }

  /** The times of the packets admitted among the first k. */
  function Admissions(arrivals: seq<Arrival>, verdicts: seq<Verdict>, k: nat): seq<Instant>
    requires k <= |arrivals| && |verdicts| == |arrivals|
  {
    if k == 0 then []
    else Admissions(arrivals, verdicts, k - 1) + (if verdicts[k - 1].Admitted? then [arrivals[k - 1].at] else [])
  }

  lemma {:induction false} AdmissionsAscend(
      o: Options, arrivals: seq<Arrival>, states: seq<PeerState>, verdicts: seq<Verdict>, k: nat, t: Instant)
    requires Run(o, arrivals, states, verdicts) && k <= |arrivals| && (k > 0 ==> arrivals[k - 1].at <= t)
    ensures Ascending(Admissions(arrivals, verdicts, k), t)
  {
    if k > 0 { AdmissionsAscend(o, arrivals, states, verdicts, k - 1, arrivals[k - 1].at); }
  }

  lemma LevelCapped(o: Options, adm: seq<Instant>, t: Instant)
    ensures Level(o, adm, t) <= o.burst as real
  {
  }

  lemma GainAdds(o: Options, s: Instant, t: Instant, u: Instant)
    ensures Gain(o, s, u) == Gain(o, s, t) + Gain(o, t, u)
  {
  }

  lemma CappedTwice(x: real, g: real, h: real, cap: real)
    requires h >= 0.0
    ensures Min(Min(x + g, cap) + h, cap) == Min(x + (g + h), cap)
  {
  }

  /** Refilling moves the level forward in time. */
  lemma LevelMoves(o: Options, adm: seq<Instant>, t: Instant, u: Instant)
    requires o.rate > 0.0 && t <= u
    ensures Level(o, adm, u) == Min(Level(o, adm, t) + Gain(o, t, u), o.burst as real)
  {
    GainIsRateTimesLength(o, t, u);
    if adm != [] {
      var a := adm[|adm| - 1];
      GainAdds(o, a, t, u);
      CappedTwice(Level(o, adm[..|adm| - 1], a) - 1.0, Gain(o, a, t), Gain(o, t, u), o.burst as real);
    }
  }

  lemma LevelAfterAdmission(o: Options, adm: seq<Instant>, t: Instant)
    ensures Level(o, adm + [t], t) == Level(o, adm, t) - 1.0
  {
    assert (adm + [t])[..|adm|] == adm;
    LevelCapped(o, adm, t);
  }

  /** The state's tokens are the level of these admissions, and its refill is not ahead. */
  predicate Tracks(o: Options, s: PeerState, adm: seq<Instant>, t: Instant) {
    s.lastRefill <= t && s.tokens == Level(o, adm, s.lastRefill)
  }

  lemma StepTracks(o: Options, s: PeerState, a: Arrival, s': PeerState, v: Verdict, adm: seq<Instant>)
    requires Normal(o) && Step(o, s, a, s', v) && Tracks(o, s, adm, a.at)
    ensures Tracks(o, s', adm + (if v.Admitted? then [a.at] else []), a.at)
    ensures !v.Duplicate? ==> (v.Admitted? <==> Level(o, adm, a.at) >= 1.0)
  {
    LevelMoves(o, adm, s.lastRefill, a.at);
    LevelCapped(o, adm, s.lastRefill);
    LevelAfterAdmission(o, adm, a.at);
    assert adm + [] == adm;
  }

  /** The bucket's tokens are the level of the admissions so far. */
  lemma {:induction false} TokensAreLevel(
      o: Options, arrivals: seq<Arrival>, states: seq<PeerState>, verdicts: seq<Verdict>, k: nat, t: Instant)
    requires Run(o, arrivals, states, verdicts) && k <= |arrivals| && arrivals != []
    requires (if k > 0 then arrivals[k - 1].at else arrivals[0].at) <= t
    ensures Tracks(o, states[k], Admissions(arrivals, verdicts, k), t)
  {
    if k > 0 {
      TokensAreLevel(o, arrivals, states, verdicts, k - 1, arrivals[k - 1].at);
      StepTracks(o, states[k - 1], arrivals[k - 1], states[k], verdicts[k - 1], Admissions(arrivals, verdicts, k - 1));
    }
  }

  /** The bucket is exact: a packet that is not a duplicate is admitted if and only if,
      counting it, every stretch up to now has at most burst + rate * length admissions. */
  lemma {:induction false} AdmittedIffEnvelope(o: Options, arrivals: seq<Arrival>, states: seq<PeerState>, verdicts: seq<Verdict>, k: nat)
    requires Run(o, arrivals, states, verdicts) && k < |arrivals| && !verdicts[k].Duplicate?
    ensures verdicts[k].Admitted? <==> Room(o, Admissions(arrivals, verdicts, k), arrivals[k].at, 1.0)
  {
    var now, adm := arrivals[k].at, Admissions(arrivals, verdicts, k);
    TokensAreLevel(o, arrivals, states, verdicts, k, now);
    AdmissionsAscend(o, arrivals, states, verdicts, k, now);
    StepTracks(o, states[k], arrivals[k], states[k + 1], verdicts[k], adm);
    LevelIffRoom(o, adm, now, 1.0);
  }

  /** The arrival envelope: no stretch has more than burst + rate * length admissions. */
  ghost predicate Envelope(o: Options, adm: seq<Instant>, t: Instant) {
    forall s: Instant :: s <= t ==> Fits(o, adm, s, t, 0.0)
  }

  lemma EnvelopeLater(o: Options, adm: seq<Instant>, t: Instant, u: Instant)
    requires o.rate > 0.0 && o.burst > 0 && Ascending(adm, t) && t <= u && Envelope(o, adm, t)
    ensures Envelope(o, adm, u)
  {
    forall s: Instant | s <= u ensures Fits(o, adm, s, u, 0.0) {
      GainIsRateTimesLength(o, t, u);
      GainIsRateTimesLength(o, s, u);
      if s > t { NoneAfter(adm, s); } else { assert Fits(o, adm, s, t, 0.0); }
    }
  }

  lemma EnvelopeWith(o: Options, adm: seq<Instant>, t: Instant)
    requires Room(o, adm, t, 1.0)
    ensures Envelope(o, adm + [t], t)
  {
    assert (adm + [t])[..|adm|] == adm;
    forall s: Instant | s <= t ensures Fits(o, adm + [t], s, t, 0.0) { assert Fits(o, adm, s, t, 1.0); }
  }

  /** The arrival envelope holds over every stretch of every run. */
  lemma {:induction false} EnvelopeHolds(
      o: Options, arrivals: seq<Arrival>, states: seq<PeerState>, verdicts: seq<Verdict>, k: nat, t: Instant)
    requires Run(o, arrivals, states, verdicts) && k <= |arrivals| && (k > 0 ==> arrivals[k - 1].at <= t)
    ensures Envelope(o, Admissions(arrivals, verdicts, k), t)
    decreases k
  {
    if k == 0 {
      forall s: Instant | s <= t ensures Fits(o, [], s, t, 0.0) { GainIsRateTimesLength(o, s, t); }
    } else {
      var now, adm := arrivals[k - 1].at, Admissions(arrivals, verdicts, k - 1);
      EnvelopeHolds(o, arrivals, states, verdicts, k - 1, now);
      if verdicts[k - 1].Admitted? {
        AdmittedIffEnvelope(o, arrivals, states, verdicts, k - 1);
        EnvelopeWith(o, adm, now);
      } else {
        assert adm + [] == adm;
      }
      AdmissionsAscend(o, arrivals, states, verdicts, k, now);
      EnvelopeLater(o, Admissions(arrivals, verdicts, k), now, t);
    }
  }

  // ---- duplicates ---------------------------------------------------------------------------------

  /** Packet i was admitted with this fingerprint less than a window before `now`. */
  predicate RecentlyAdmitted(o: Options, arrivals: seq<Arrival>, verdicts: seq<Verdict>, i: nat, fingerprint: Str, now: Instant)
    requires i < |arrivals| && |verdicts| == |arrivals|
  {
    verdicts[i].Admitted? && arrivals[i].fingerprint == fingerprint && now - arrivals[i].at < o.window
  }

  lemma {:induction false} SeenIffRecent(
      o: Options, arrivals: seq<Arrival>, states: seq<PeerState>, verdicts: seq<Verdict>, k: nat, fingerprint: Str, now: Instant)
    requires Run(o, arrivals, states, verdicts) && k <= |arrivals| && arrivals != [] && o.window > 0.0
    requires k > 0 ==> arrivals[k - 1].at <= now
    ensures (fingerprint in states[k].seen && now - states[k].seen[fingerprint] < o.window) <==>
            exists i: nat :: i < k && RecentlyAdmitted(o, arrivals, verdicts, i, fingerprint, now)
    decreases k
  {
    if k > 0 {
      SeenIffRecent(o, arrivals, states, verdicts, k - 1, fingerprint, now);
      var a := arrivals[k - 1];
      assert Step(o, states[k - 1], a, states[k], verdicts[k - 1]);
      if verdicts[k - 1].Admitted? && a.fingerprint == fingerprint && now - a.at < o.window {
        assert RecentlyAdmitted(o, arrivals, verdicts, k - 1, fingerprint, now);
      }
    }
  }

  /** A packet is called a duplicate exactly when the same fingerprint was admitted less
      than a window ago. */
  lemma DuplicateIffRecent(o: Options, arrivals: seq<Arrival>, states: seq<PeerState>, verdicts: seq<Verdict>, k: nat)
    requires Run(o, arrivals, states, verdicts) && k < |arrivals|
    ensures verdicts[k].Duplicate? <==>
            o.window > 0.0 && exists i: nat :: i < k && RecentlyAdmitted(o, arrivals, verdicts, i, arrivals[k].fingerprint, arrivals[k].at)
  {
    assert Step(o, states[k], arrivals[k], states[k + 1], verdicts[k]);
    if o.window > 0.0 { SeenIffRecent(o, arrivals, states, verdicts, k, arrivals[k].fingerprint, arrivals[k].at); }
  }

  // ---- the size of the dedup cache ------------------------------------------------------------------

  /** Every cached fingerprint was admitted at the time kept with it. */
  ghost predicate SeenAdmitted(arrivals: seq<Arrival>, verdicts: seq<Verdict>, k: nat, s: PeerState)
    requires k <= |arrivals| && |verdicts| == |arrivals|
  {
    forall p :: p in s.seen ==> AdmittedAs(arrivals, verdicts, k, p, s.seen[p])
  }

  ghost predicate AdmittedAs(arrivals: seq<Arrival>, verdicts: seq<Verdict>, k: nat, p: Str, at: Instant)
    requires k <= |arrivals| && |verdicts| == |arrivals|
  {
    exists i: nat :: i < k && verdicts[i].Admitted? && arrivals[i] == Arrival(p, at)
  }

  lemma {:induction false} SeenAreAdmitted(
      o: Options, arrivals: seq<Arrival>, states: seq<PeerState>, verdicts: seq<Verdict>, k: nat)
    requires Run(o, arrivals, states, verdicts) && k <= |arrivals| && arrivals != []
    ensures SeenAdmitted(arrivals, verdicts, k, states[k])
  {
    if k > 0 {
      SeenAreAdmitted(o, arrivals, states, verdicts, k - 1);
      var a := arrivals[k - 1];
      assert Step(o, states[k - 1], a, states[k], verdicts[k - 1]);
      forall p | p in states[k].seen ensures AdmittedAs(arrivals, verdicts, k, p, states[k].seen[p]) {
        if p in states[k - 1].seen && states[k].seen[p] == states[k - 1].seen[p] {
          assert AdmittedAs(arrivals, verdicts, k - 1, p, states[k].seen[p]);
          var i: nat :| i < k - 1 && verdicts[i].Admitted? && arrivals[i] == Arrival(p, states[k].seen[p]);
        } else {
          assert arrivals[k - 1] == Arrival(p, states[k].seen[p]);
        }
      }
    }
  }

  /** The fingerprints admitted from time s on. */
  function PrintsFrom(arrivals: seq<Arrival>, verdicts: seq<Verdict>, k: nat, s: Instant): set<Str>
    requires k <= |arrivals| && |verdicts| == |arrivals|
  {
    set i | 0 <= i < k && verdicts[i].Admitted? && s <= arrivals[i].at :: arrivals[i].fingerprint
  }

  lemma {:induction false} PrintsCounted(arrivals: seq<Arrival>, verdicts: seq<Verdict>, k: nat, s: Instant)
    requires k <= |arrivals| && |verdicts| == |arrivals|
    ensures |PrintsFrom(arrivals, verdicts, k, s)| <= CountFrom(Admissions(arrivals, verdicts, k), s)
  {
    if k > 0 {
      PrintsCounted(arrivals, verdicts, k - 1, s);
      var before, now := PrintsFrom(arrivals, verdicts, k - 1, s), PrintsFrom(arrivals, verdicts, k, s);
      var adm := Admissions(arrivals, verdicts, k - 1);
      if verdicts[k - 1].Admitted? {
        assert (adm + [arrivals[k - 1].at])[..|adm|] == adm;
        assert now == if s <= arrivals[k - 1].at then before + {arrivals[k - 1].fingerprint} else before;
      } else {
        assert now == before;
        assert adm + [] == adm;
      }
    }
  }

  /** A lower bound of the times in the cache that is itself inside the window. */
  lemma {:induction false} Oldest(seen: map<Str, Instant>, now: Instant, window: real) returns (s: Instant)
    requires window > 0.0 && forall p :: p in seen ==> now - seen[p] < window
    ensures s <= now && now - s < window && forall p :: p in seen ==> s <= seen[p]
    decreases |seen|
  {
    if seen == map[] {
      s := now;
    } else {
      var p :| p in seen;
      var rest := seen - {p};
      assert rest.Keys == seen.Keys - {p};
      s := Oldest(rest, now, window);
      if seen[p] < s { s := seen[p]; }
      assert forall q :: q in seen ==> q == p || (q in rest && rest[q] == seen[q]);
    }
  }

  lemma WindowGain(o: Options, s: Instant, t: Instant)
    requires o.rate > 0.0 && t - s < o.window
    ensures Gain(o, s, t) < o.rate * o.window
  {
    assert o.rate * (t - s) < o.rate * o.window;
    GainIsRateTimesLength(o, s, t);
  }

  /** After every packet the dedup cache holds fewer than burst + rate * window fingerprints. */
  lemma CacheBounded(o: Options, arrivals: seq<Arrival>, states: seq<PeerState>, verdicts: seq<Verdict>, k: nat)
    requires Run(o, arrivals, states, verdicts) && 0 < k <= |arrivals| && o.window > 0.0
    ensures |states[k].seen| as real < o.burst as real + o.rate * o.window
  {
    var now, seen := arrivals[k - 1].at, states[k].seen;
    assert Step(o, states[k - 1], arrivals[k - 1], states[k], verdicts[k - 1]);
    var s := Oldest(seen, now, o.window);
    SeenAreAdmitted(o, arrivals, states, verdicts, k);
    var prints := PrintsFrom(arrivals, verdicts, k, s);
    forall p | p in seen ensures p in prints {
      assert AdmittedAs(arrivals, verdicts, k, p, seen[p]);
      var i: nat :| i < k && verdicts[i].Admitted? && arrivals[i] == Arrival(p, seen[p]);
    }
    SubsetSize(seen.Keys, prints);
    PrintsCounted(arrivals, verdicts, k, s);
    EnvelopeHolds(o, arrivals, states, verdicts, k, now);
    assert Fits(o, Admissions(arrivals, verdicts, k), s, now, 0.0);
    WindowGain(o, s, now);
  }

  // ---- peers do not affect each other -----------------------------------------------------------------

  datatype Event = Packet(node: Str, fingerprint: Str, at: Instant) | Forget(node: Str)

  function PeersAfter(o: Options, peers: Peers, e: Event): Peers {
    match e
    case Packet(n, p, at) => GuardIn(o, peers, n, p, at).0
    case Forget(n) => peers - {n}
  }

  /** A run of the whole guard: many peers, and peers forgotten when their lease ends. */
  predicate GuardRun(o: Options, events: seq<Event>, maps: seq<Peers>) {
    && |maps| == |events| + 1
    && forall k: nat | k < |events| :: GuardFollows(o, events, maps, k)
  }

  predicate GuardFollows(o: Options, events: seq<Event>, maps: seq<Peers>, k: nat)
    requires k < |events| && |maps| == |events| + 1
  {
    maps[k + 1] == PeersAfter(o, maps[k], events[k])
  }

  /** The node's own packets among events i to j. */
  function Own(events: seq<Event>, node: Str, i: nat, j: nat): seq<Arrival>
    requires i <= j <= |events|
    decreases j
  {
    if i == j then []
    else Own(events, node, i, j - 1) +
         (if events[j - 1].Packet? && events[j - 1].node == node
          then [Arrival(events[j - 1].fingerprint, events[j - 1].at)] else [])
  }

  /** The packet is one of events i to j, and the guard's verdict on it there is v. */
  ghost predicate JudgedThere(o: Options, events: seq<Event>, maps: seq<Peers>, node: Str, i: nat, j: nat, a: Arrival, v: Verdict)
    requires i <= j <= |events| && |maps| == |events| + 1
  {
    exists l :: i <= l < j && events[l] == Packet(node, a.fingerprint, a.at) && v == GuardIn(o, maps[l], node, a.fingerprint, a.at).1
  }

  lemma JudgedLater(o: Options, events: seq<Event>, maps: seq<Peers>, node: Str, i: nat, j: nat, a: Arrival, v: Verdict)
    requires i < j <= |events| && |maps| == |events| + 1
    requires JudgedThere(o, events, maps, node, i, j - 1, a, v)
    ensures JudgedThere(o, events, maps, node, i, j, a, v)
    ensures exists l :: i <= l < j - 1 && events[l].Packet? && events[l].at == a.at
  {
    var l :| i <= l < j - 1 && events[l] == Packet(node, a.fingerprint, a.at) && v == GuardIn(o, maps[l], node, a.fingerprint, a.at).1;
  }

  /** The node's packets among events i to j, run on their own, give these states and verdicts. */
  ghost predicate Alone(
      o: Options, events: seq<Event>, maps: seq<Peers>, node: Str, i: nat, j: nat, states: seq<PeerState>, verdicts: seq<Verdict>)
    requires i <= j <= |events| && |maps| == |events| + 1
  {
    var own := Own(events, node, i, j);
    && Run(o, own, states, verdicts)
    && (if own == [] then node !in maps[j] else node in maps[j] && maps[j][node] == states[|own|])
    && AllJudged(o, events, maps, node, i, j, own, verdicts)
  }

  lemma AloneOther(
      o: Options, events: seq<Event>, maps: seq<Peers>, node: Str, i: nat, j: nat, states: seq<PeerState>, verdicts: seq<Verdict>)
    requires i < j <= |events| && GuardRun(o, events, maps) && Alone(o, events, maps, node, i, j - 1, states, verdicts)
    requires events[j - 1] != Forget(node) && !(events[j - 1].Packet? && events[j - 1].node == node)
    ensures Alone(o, events, maps, node, i, j, states, verdicts)
  {
    var own := Own(events, node, i, j - 1);
    assert Own(events, node, i, j) == own;
    OthersLeaveNode(o, events, maps, node, j - 1);
    AllJudgedLater(o, events, maps, node, i, j, own, verdicts);
  }

  ghost predicate AllJudged(o: Options, events: seq<Event>, maps: seq<Peers>, node: Str, i: nat, j: nat, own: seq<Arrival>, verdicts: seq<Verdict>)
    requires i <= j <= |events| && |maps| == |events| + 1 && |own| == |verdicts|
  {
    forall k :: 0 <= k < |own| ==> JudgedThere(o, events, maps, node, i, j, own[k], verdicts[k])
  }

  lemma AllJudgedLater(
      o: Options, events: seq<Event>, maps: seq<Peers>, node: Str, i: nat, j: nat, own: seq<Arrival>, verdicts: seq<Verdict>)
    requires i < j <= |events| && |maps| == |events| + 1 && |own| == |verdicts|
    requires AllJudged(o, events, maps, node, i, j - 1, own, verdicts)
    ensures AllJudged(o, events, maps, node, i, j, own, verdicts)
  {
    forall k | 0 <= k < |own| ensures JudgedThere(o, events, maps, node, i, j, own[k], verdicts[k]) {
      JudgedLater(o, events, maps, node, i, j, own[k], verdicts[k]);
    }
  }

  /** What happens to other nodes leaves this node's state alone. */
  lemma OthersLeaveNode(o: Options, events: seq<Event>, maps: seq<Peers>, node: Str, k: nat)
    requires GuardRun(o, events, maps) && k < |events|
    requires events[k] != Forget(node) && !(events[k].Packet? && events[k].node == node)
    ensures node in maps[k + 1] <==> node in maps[k]
    ensures node in maps[k] ==> maps[k + 1][node] == maps[k][node]
  {
    assert GuardFollows(o, events, maps, k);
  }

  lemma AloneOwn(
      o: Options, events: seq<Event>, maps: seq<Peers>, node: Str, i: nat, j: nat, states: seq<PeerState>, verdicts: seq<Verdict>)
      returns (states': seq<PeerState>, verdicts': seq<Verdict>)
    requires i < j <= |events| && GuardRun(o, events, maps) && Alone(o, events, maps, node, i, j - 1, states, verdicts)
    requires Normal(o) && events[j - 1].Packet? && events[j - 1].node == node
    requires forall k :: i <= k < j && events[k].Packet? ==> events[k].at <= events[j - 1].at
    ensures Alone(o, events, maps, node, i, j, states', verdicts')
  {
    var e, own := events[j - 1], Own(events, node, i, j - 1);
    var a, s := Arrival(e.fingerprint, e.at), StateOf(o, maps[j - 1], node, e.at);
    var (s', v) := GuardOne(o, s, e.fingerprint, e.at);
    assert GuardFollows(o, events, maps, j - 1);
    forall k | 0 <= k < |own|
      ensures JudgedThere(o, events, maps, node, i, j, own[k], verdicts[k]) && own[k].at <= e.at
    {
      JudgedLater(o, events, maps, node, i, j, own[k], verdicts[k]);
    }
    assert JudgedThere(o, events, maps, node, i, j, a, v);
    var base := if own == [] then [s] else states;
    ExtendRun(o, own, base, verdicts, a, s', v);
    states', verdicts' := base + [s'], verdicts + [v];
  }

  /** A node's state and the verdicts on its packets are what they would be if its packets
      since its state was made were the only ones the guard ever saw. */
  lemma {:induction false} NodeRunsAlone(o: Options, events: seq<Event>, maps: seq<Peers>, node: Str, i: nat, j: nat)
      returns (states: seq<PeerState>, verdicts: seq<Verdict>)
    requires Normal(o) && GuardRun(o, events, maps) && i <= j <= |events| && node !in maps[i]
    requires forall k :: i <= k < j ==> events[k] != Forget(node)
    requires forall k, l :: i <= k <= l < j && events[k].Packet? && events[l].Packet? ==> events[k].at <= events[l].at
    ensures Alone(o, events, maps, node, i, j, states, verdicts)
    decreases j
  {
    if i == j {
      states, verdicts := [Fresh(o, 0.0)], [];
    } else {
      states, verdicts := NodeRunsAlone(o, events, maps, node, i, j - 1);
      if events[j - 1].Packet? && events[j - 1].node == node {
        states, verdicts := AloneOwn(o, events, maps, node, i, j, states, verdicts);
      } else {
        AloneOther(o, events, maps, node, i, j, states, verdicts);
      }
    }
  }

  lemma ExtendRun(o: Options, own: seq<Arrival>, states: seq<PeerState>, verdicts: seq<Verdict>, a: Arrival, s': PeerState, v: Verdict)
    requires Normal(o) && |states| == |own| + 1 && Step(o, states[|own|], a, s', v)
    requires if own == [] then states == [Fresh(o, a.at)] && verdicts == [] else Run(o, own, states, verdicts)
    requires forall k :: 0 <= k < |own| ==> own[k].at <= a.at
    ensures Run(o, own + [a], states + [s'], verdicts + [v])
  {
    var arrivals, states', verdicts' := own + [a], states + [s'], verdicts + [v];
    forall k | 0 <= k < |arrivals| ensures Step(o, states'[k], arrivals[k], states'[k + 1], verdicts'[k]) {
      if k < |own| { assert Step(o, states[k], own[k], states[k + 1], verdicts[k]); }
    }
  }
}
