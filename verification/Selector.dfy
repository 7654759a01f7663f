/** The path selector (internal/p2p/selector.go): direct paths expire lazily. */
module PathSelector {
  import opened GoStrings
  import opened GoTime

  datatype DirectState = DirectState(endpoint: Str, healthyUntil: Time)

  datatype Selection = Relay | Direct(endpoint: Str)

  type Paths = map<Str, DirectState>

  /** `netip.ParseAddrPort` is a library call; whether it accepts the endpoint is `parses`. */
  function HealthyIn(m: Paths, ttl: int, nodeID: Str, endpoint: Str, parses: bool, at: Time): Paths {
    var node := TrimSpace(nodeID);
    if node == [] || !parses then m else m[node := DirectState(TrimSpace(endpoint), at + ttl)]
  }

  function FailedIn(m: Paths, nodeID: Str): Paths {
    m - {TrimSpace(nodeID)}
  }

  function SelectIn(m: Paths, nodeID: Str, now: Time): Selection {
    var node := TrimSpace(nodeID);
    if node in m && now < m[node].healthyUntil then Direct(m[node].endpoint) else Relay
  }

  /** What `Select` leaves behind: an expired entry it met is dropped. */
  function SelectedIn(m: Paths, nodeID: Str, now: Time): Paths {
    var node := TrimSpace(nodeID);
    if node in m && !(now < m[node].healthyUntil) then m - {node} else m
  }

  class Selector {
    const directTTL: int
    var direct: Paths

    /** `NewSelector`: a non-positive TTL means 30 seconds. */
    constructor (ttl: int)
      ensures direct == map[] && directTTL == (if ttl <= 0 then 30 * SECOND else ttl) > 0
    {
      directTTL := if ttl <= 0 then 30 * SECOND else ttl;
      direct := map[];
    }

    method MarkDirectHealthy(nodeID: Str, endpoint: Str, parses: bool, observedAt: Time, now: Time) returns (ok: bool)
      modifies this
      ensures ok <==> TrimSpace(nodeID) != [] && parses
      ensures direct == HealthyIn(old(direct), directTTL, nodeID, endpoint, parses, if IsZero(observedAt) then now else observedAt)
    {
      var node := TrimSpace(nodeID);
      if node == [] || !parses { return false; }
      var at := if IsZero(observedAt) then now else observedAt;
      direct := direct[node := DirectState(TrimSpace(endpoint), at + directTTL)];
      ok := true;
    }

    method MarkDirectFailed(nodeID: Str)
      modifies this
      ensures direct == FailedIn(old(direct), nodeID)
    {
      direct := direct - {TrimSpace(nodeID)};
    }

    method Select(nodeID: Str, now: Time) returns (s: Selection)
      modifies this
      ensures s == SelectIn(old(direct), nodeID, now) && direct == SelectedIn(old(direct), nodeID, now)
    {
      var node := TrimSpace(nodeID);
      if node !in direct { return Relay; }
      var state := direct[node];
      if !(now < state.healthyUntil) {
        direct := direct - {node};
        return Relay;
      }
      s := Direct(state.endpoint);
    }
  }

  /** `Select` leaves the node an entry exactly if it lasts, and touches no other. */
  lemma SelectDropsExpired(m: Paths, nodeID: Str, now: Time)
    ensures var m', n := SelectedIn(m, nodeID, now), TrimSpace(nodeID);
            && (n in m' <==> n in m && now < m[n].healthyUntil)
            && forall k :: k != n || k in m' ==> (k in m' <==> k in m) && (k in m ==> m'[k] == m[k])
  {
  }

  // ---- whole runs: selection against the history of marks ---------------------------

  /** A call on the selector, or a moment at which nothing calls it. */
  datatype Call =
    | Idle(at: Time)
    | Healthy(node: Str, endpoint: Str, at: Time)
    | Failed(node: Str, at: Time)
    | Select(node: Str, at: Time)

  function After(ttl: int, m: Paths, call: Call): Paths {
    match call
    case Healthy(n, e, at) => HealthyIn(m, ttl, n, e, true, at)
    case Failed(n, at) => FailedIn(m, n)
    case Select(n, at) => SelectedIn(m, n, at)
    case Idle(at) => m
  }

  predicate Run(ttl: int, calls: seq<Call>, maps: seq<Paths>) {
    && (forall i, j :: 0 <= i < j < |calls| ==> calls[i].at <= calls[j].at)
    && |maps| == |calls| + 1 && maps[0] == map[]
    && forall k :: 0 <= k < |calls| ==> maps[k + 1] == After(ttl, maps[k], calls[k])
  }

  predicate Marks(call: Call, node: Str) {
    (call.Healthy? || call.Failed?) && TrimSpace(call.node) == node
  }

  /** Call i is the last mark of the node before call k, and it says healthy. */
  predicate LastMarkHealthy(calls: seq<Call>, i: nat, k: nat, node: Str) {
    && i < k <= |calls| && calls[i].Healthy? && Marks(calls[i], node)
    && forall j :: i < j < k ==> !Marks(calls[j], node)
  }

  predicate Fits(ttl: int, calls: seq<Call>, i: nat, s: DirectState)
    requires i < |calls| && calls[i].Healthy?
  {
    s.endpoint == TrimSpace(calls[i].endpoint) && s.healthyUntil == calls[i].at + ttl
  }

  lemma {:induction false} EntryIsLastMark(ttl: int, calls: seq<Call>, maps: seq<Paths>, k: nat, node: Str)
    requires Run(ttl, calls, maps) && k <= |calls| && node != []
    ensures node in maps[k] ==> exists i: nat :: LastMarkHealthy(calls, i, k, node) && Fits(ttl, calls, i, maps[k][node])
    ensures forall i: nat :: LastMarkHealthy(calls, i, k, node) && calls[k - 1].at < calls[i].at + ttl ==>
              node in maps[k] && Fits(ttl, calls, i, maps[k][node])
  {
    if k > 0 {
      EntryIsLastMark(ttl, calls, maps, k - 1, node);
      var call := calls[k - 1];
      assert maps[k] == After(ttl, maps[k - 1], call);
      if Marks(call, node) {
        if call.Healthy? { assert LastMarkHealthy(calls, k - 1, k, node); }
      } else {
        if node in maps[k] {
          var i: nat :| LastMarkHealthy(calls, i, k - 1, node) && Fits(ttl, calls, i, maps[k - 1][node]);
          assert LastMarkHealthy(calls, i, k, node);
        }
        forall i: nat | LastMarkHealthy(calls, i, k, node) && call.at < calls[i].at + ttl
          ensures node in maps[k] && Fits(ttl, calls, i, maps[k][node])
        {
          assert LastMarkHealthy(calls, i, k - 1, node) && calls[k - 2].at <= call.at;
        }
      }
    }
  }

  /** `Select` says direct exactly when the last mark of the node is a healthy one from
      that endpoint less than the TTL ago. */
  lemma DirectIffFreshMark(ttl: int, calls: seq<Call>, maps: seq<Paths>, k: nat, nodeID: Str, now: Time, endpoint: Str)
    requires Run(ttl, calls, maps) && k <= |calls| && (k > 0 ==> calls[k - 1].at <= now) && TrimSpace(nodeID) != []
    ensures SelectIn(maps[k], nodeID, now) == Direct(endpoint) <==>
            exists i: nat :: LastMarkHealthy(calls, i, k, TrimSpace(nodeID))
                             && TrimSpace(calls[i].endpoint) == endpoint && now - calls[i].at < ttl
  {
    EntryIsLastMark(ttl, calls, maps, k, TrimSpace(nodeID));
  }
}
