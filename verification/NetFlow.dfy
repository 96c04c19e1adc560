/**
 Greedy traffic allocation over tunnels that deliver only a part of what they are given. Bandwidths
 are exact reals.
 */
module NetFlow {
  datatype TunnelMode = WireGuard | Onion | Hybrid

  /** What the allocation reads and changes of a tunnel. */
  datatype Tunnel = Tunnel(mode: TunnelMode, bandwidth: real, active: bool)

  function Min(x: real, y: real): real {
    if y < x then y else x
  }

  function Max(x: real, y: real): real {
    if x < y then y else x
  }

  /** What is left of `x` after the overhead of a mode. */
  function Portion(mode: TunnelMode, x: real): real {
    match mode
    case WireGuard => x
    case Onion => x * 0.85
    case Hybrid => x * 0.95
  }

  /** What a tunnel delivers of a request. */
  function Allocated(t: Tunnel, requested: real): real {
    if !t.active || t.bandwidth <= 0.0 then 0.0 else Portion(t.mode, Min(requested, t.bandwidth))
  }

  function Relayed(t: Tunnel, requested: real): Tunnel {
    if !t.active || t.bandwidth <= 0.0 then t
    else t.(bandwidth := Max(0.0, t.bandwidth - Allocated(t, requested)))
  }

  class NetFlowTunnel {
    const mode: TunnelMode
    var bandwidth: real
    var active: bool

    constructor (mode: TunnelMode, bandwidth: real, active: bool)
      ensures View() == Tunnel(mode, bandwidth, active)
    {
      this.mode, this.bandwidth, this.active := mode, bandwidth, active;
    }

    function View(): Tunnel
      reads this
    {
      Tunnel(mode, bandwidth, active)
    }

    method RelayBandwidth(requested: real) returns (relayed: real)
      modifies this
      ensures View() == Relayed(old(View()), requested)
      ensures relayed == Allocated(old(View()), requested)
    {
      if !active || bandwidth <= 0.0 {
        return 0.0;
      }
      relayed := Min(requested, bandwidth);
      if mode == Onion {
        relayed := relayed * 0.85;
      } else if mode == Hybrid {
        relayed := relayed * 0.95;
      }
      bandwidth := Max(0.0, bandwidth - relayed);
    }
  }

  // ---------- the greedy loop ----------

  /** What is left of a request after one tunnel; the loop passes over an inactive one, which relays nothing. */
  function Left(t: Tunnel, requested: real): real {
    requested - Allocated(t, requested)
  }

  /** The loop stops at an active tunnel after which nothing is left. */
  predicate StopsAt(t: Tunnel, requested: real) {
    t.active && Left(t, requested) <= 0.0
  }

  /** What reaches a tunnel: the part of the request that is left, or nothing because the loop has stopped. */
  datatype Arrival = Arriving(left: real) | Stopped(left: real)

  /** What reaches tunnel `n`, or the end of the list. */
  function ArrivalAt(ts: seq<Tunnel>, requested: real, n: nat): Arrival
    requires n <= |ts|
  {
    if n == 0 then Arriving(requested)
    else
      match ArrivalAt(ts, requested, n - 1)
      case Stopped(left) => Stopped(left)
      case Arriving(r) =>
        if StopsAt(ts[n - 1], r) then Stopped(Left(ts[n - 1], r)) else Arriving(Left(ts[n - 1], r))
  }

  /** Tunnel `k` after the loop. */
  function After(ts: seq<Tunnel>, requested: real, k: nat): Tunnel
    requires k < |ts|
  {
    match ArrivalAt(ts, requested, k)
    case Arriving(r) => Relayed(ts[k], r)
    case Stopped(_) => ts[k]
  }

  function Delivered(ts: seq<Tunnel>, requested: real): real {
    requested - ArrivalAt(ts, requested, |ts|).left
  }

  lemma {:induction false} StoppedStaysStopped(ts: seq<Tunnel>, requested: real, m: nat, n: nat)
    requires m <= n <= |ts| && ArrivalAt(ts, requested, m).Stopped?
    ensures ArrivalAt(ts, requested, n) == ArrivalAt(ts, requested, m)
  {
    if m < n {
      StoppedStaysStopped(ts, requested, m, n - 1);
    }
  }

  lemma OneTunnelOn(ts: seq<Tunnel>, requested: real, k: nat, r: real)
    requires k < |ts| && ArrivalAt(ts, requested, k) == Arriving(r)
    ensures After(ts, requested, k) == Relayed(ts[k], r)
    ensures ArrivalAt(ts, requested, k + 1) ==
            if StopsAt(ts[k], r) then Stopped(Left(ts[k], r)) else Arriving(Left(ts[k], r))
  {}

  lemma NothingArrivesFrom(ts: seq<Tunnel>, requested: real, n: nat)
    requires n <= |ts| && ArrivalAt(ts, requested, n).Stopped?
    ensures Delivered(ts, requested) == requested - ArrivalAt(ts, requested, n).left
    ensures forall k {:trigger After(ts, requested, k)} | n <= k < |ts| :: After(ts, requested, k) == ts[k]
  {
    StoppedStaysStopped(ts, requested, n, |ts|);
    forall k | n <= k < |ts|
      ensures After(ts, requested, k) == ts[k]
    {
      StoppedStaysStopped(ts, requested, n, k);
    }
  }

  function Views(tunnels: seq<NetFlowTunnel>): (r: seq<Tunnel>)
    reads tunnels
    ensures |r| == |tunnels| && forall i | 0 <= i < |r| :: r[i] == tunnels[i].View()
  {
    seq(|tunnels|, i requires 0 <= i < |tunnels| reads tunnels => tunnels[i].View())
  }

  class HybridNetFlow {
    var tunnels: seq<NetFlowTunnel>

    /** The vector holds its tunnels by value: no two of them are the same object. */
    ghost predicate Valid()
      reads this
    {
      forall i, j | 0 <= i < j < |tunnels| :: tunnels[i] != tunnels[j]
    }

    constructor ()
      ensures Valid() && tunnels == []
    {
      tunnels := [];
    }

    method AddTunnel(tunnel: NetFlowTunnel)
      requires Valid()
      modifies this
      ensures Valid() && |tunnels| == |old(tunnels)| + 1
      ensures tunnels[..|old(tunnels)|] == old(tunnels) && fresh(tunnels[|old(tunnels)|])
      ensures tunnels[|old(tunnels)|].View() == tunnel.View()
    {
      var copy := new NetFlowTunnel(tunnel.mode, tunnel.bandwidth, tunnel.active);
      tunnels := tunnels + [copy];
    }

    /** The body of the loop; `stop` is its `break`. */
    static method PushThrough(t: NetFlowTunnel, requested: real) returns (remaining: real, stop: bool)
      modifies t
      ensures t.View() == Relayed(old(t.View()), requested)
      ensures remaining == Left(old(t.View()), requested) && stop == StopsAt(old(t.View()), requested)
    {
      if !t.active {
        return requested, false;
      }
      var relayed := t.RelayBandwidth(requested);
      remaining := requested - relayed;
      stop := remaining <= 0.0;
    }

    /** The loop of `pushTraffic`; `initial` is what the tunnels held before it. */
    method PushAll(requested: real, ghost initial: seq<Tunnel>) returns (remaining: real)
      requires Valid() && |initial| == |tunnels|
      requires forall k {:trigger tunnels[k]} | 0 <= k < |tunnels| :: tunnels[k].View() == initial[k]
      modifies tunnels
      ensures remaining == ArrivalAt(initial, requested, |initial|).left
      ensures forall k | 0 <= k < |tunnels| :: tunnels[k].View() == After(initial, requested, k)
    {
      remaining := requested;
      var i := 0;
      while i < |tunnels|
        invariant 0 <= i <= |tunnels|
        invariant ArrivalAt(initial, requested, i) == Arriving(remaining)
        invariant forall k {:trigger After(initial, requested, k)} | 0 <= k < i ::
            tunnels[k].View() == After(initial, requested, k)
        invariant forall k {:trigger tunnels[k]} | i <= k < |tunnels| :: tunnels[k].View() == initial[k]
      {
        OneTunnelOn(initial, requested, i, remaining);
        var stop;
        remaining, stop := PushThrough(tunnels[i], remaining);
        assert tunnels[i].View() == After(initial, requested, i);
        if stop {
          NothingArrivesFrom(initial, requested, i + 1);
          break;
        }
        i := i + 1;
      }
    }

    method PushTraffic(requested: real) returns (delivered: real)
      requires Valid()
      modifies tunnels
      ensures delivered == Delivered(old(Views(tunnels)), requested)
      ensures forall k | 0 <= k < |tunnels| :: tunnels[k].View() == After(old(Views(tunnels)), requested, k)
    {
      var remaining := PushAll(requested, Views(tunnels));
      delivered := requested - remaining;
    }
  }

  // ---------- what the allocation delivers ----------

  /** The advertised bandwidth of the first `n` tunnels, before and after. */
  function Bandwidth(ts: seq<Tunnel>, n: nat): real
    requires n <= |ts|
  {
    if n == 0 then 0.0 else Bandwidth(ts, n - 1) + ts[n - 1].bandwidth
  }

  function BandwidthAfter(ts: seq<Tunnel>, requested: real, n: nat): real
    requires n <= |ts|
  {
    if n == 0 then 0.0 else BandwidthAfter(ts, requested, n - 1) + After(ts, requested, n - 1).bandwidth
  }

  /** What a tunnel has to give. */
  function Offer(t: Tunnel): real {
    if t.active then Max(0.0, t.bandwidth) else 0.0
  }

  /** And the first `n` together. */
  function Capacity(ts: seq<Tunnel>, n: nat): real
    requires n <= |ts|
  {
    if n == 0 then 0.0 else Capacity(ts, n - 1) + Offer(ts[n - 1])
  }

  /** One tunnel gives up exactly what it relays. */
  lemma RelayConserves(t: Tunnel, r: real)
    ensures t.bandwidth - Relayed(t, r).bandwidth == Allocated(t, r)
    ensures r >= 0.0 ==> 0.0 <= Allocated(t, r) <= r
    ensures r >= 0.0 ==> Allocated(t, r) <= Offer(t)
  {}

  lemma {:induction false} ConservedUpTo(ts: seq<Tunnel>, requested: real, n: nat)
    requires n <= |ts|
    ensures Bandwidth(ts, n) - BandwidthAfter(ts, requested, n) == requested - ArrivalAt(ts, requested, n).left
  {
    if n > 0 {
      ConservedUpTo(ts, requested, n - 1);
      var a := ArrivalAt(ts, requested, n - 1);
      if a.Arriving? {
        RelayConserves(ts[n - 1], a.left);
      }
    }
  }

  /** Whatever the request, what is delivered is what the tunnels have lost. */
  lemma DeliveredIsTheDropInBandwidth(ts: seq<Tunnel>, requested: real)
    ensures Delivered(ts, requested) == Bandwidth(ts, |ts|) - BandwidthAfter(ts, requested, |ts|)
  {
    ConservedUpTo(ts, requested, |ts|);
  }

  lemma {:induction false} BoundedUpTo(ts: seq<Tunnel>, requested: real, n: nat)
    requires n <= |ts| && requested >= 0.0
    ensures 0.0 <= ArrivalAt(ts, requested, n).left <= requested
    ensures requested - ArrivalAt(ts, requested, n).left <= Capacity(ts, n)
    ensures ArrivalAt(ts, requested, n).Stopped? ==> ArrivalAt(ts, requested, n).left == 0.0
  {
    if n > 0 {
      BoundedUpTo(ts, requested, n - 1);
      var a := ArrivalAt(ts, requested, n - 1);
      if a.Arriving? {
        RelayConserves(ts[n - 1], a.left);
      }
    }
  }

  /** A request that is not negative is never exceeded, and neither is the capacity. */
  lemma DeliveredIsBounded(ts: seq<Tunnel>, requested: real)
    requires requested >= 0.0
    ensures 0.0 <= Delivered(ts, requested) <= Min(requested, Capacity(ts, |ts|))
  {
    BoundedUpTo(ts, requested, |ts|);
  }

  /** Modes and activity never change, inactive tunnels not at all, and no bandwidth goes up or below zero. */
  lemma TunnelsAfterwards(ts: seq<Tunnel>, requested: real, k: nat)
    requires k < |ts|
    ensures After(ts, requested, k).mode == ts[k].mode && After(ts, requested, k).active == ts[k].active
    ensures !ts[k].active ==> After(ts, requested, k) == ts[k]
    ensures requested >= 0.0 ==> After(ts, requested, k).bandwidth <= ts[k].bandwidth
    ensures ts[k].bandwidth >= 0.0 ==> After(ts, requested, k).bandwidth >= 0.0
  {
    if requested >= 0.0 {
      BoundedUpTo(ts, requested, k);
      RelayConserves(ts[k], ArrivalAt(ts, requested, k).left);
    }
  }

  /** A mode loses no more than another. */
  predicate IsNoWorse(mode: TunnelMode, worst: TunnelMode) {
    match worst
    case WireGuard => mode == WireGuard
    case Onion => true
    case Hybrid => mode != Onion
  }

  predicate AllNoWorse(ts: seq<Tunnel>, worst: TunnelMode) {
    forall t | t in ts && t.active :: IsNoWorse(t.mode, worst)
  }

  lemma TunnelPassesOn(t: Tunnel, r: real, worst: TunnelMode)
    requires r >= 0.0 && (t.active ==> IsNoWorse(t.mode, worst))
    ensures Allocated(t, r) >= Portion(worst, Min(r, Offer(t)))
  {}

  /** If `done` of a request was delivered by tunnels of capacity `c` and `more` of the rest by one of capacity `d`. */
  lemma GreedyStep(requested: real, done: real, more: real, c: real, d: real, worst: TunnelMode)
    requires 0.0 <= done <= requested && d >= 0.0
    requires done >= Portion(worst, Min(requested, c)) && more >= Portion(worst, Min(requested - done, d))
    ensures done + more >= Portion(worst, Min(requested, c + d))
  {}

  lemma {:induction false} LowerBoundUpTo(ts: seq<Tunnel>, requested: real, worst: TunnelMode, n: nat)
    requires n <= |ts| && requested >= 0.0 && AllNoWorse(ts, worst)
    ensures requested - ArrivalAt(ts, requested, n).left >= Portion(worst, Min(requested, Capacity(ts, n)))
  {
    BoundedUpTo(ts, requested, n);
    if ArrivalAt(ts, requested, n).Arriving? && n > 0 {
      var left := ArrivalAt(ts, requested, n - 1).left;
      var t := ts[n - 1];
      LowerBoundUpTo(ts, requested, worst, n - 1);
      BoundedUpTo(ts, requested, n - 1);
      TunnelPassesOn(t, left, worst);
      GreedyStep(requested, requested - left, Allocated(t, left), Capacity(ts, n - 1), Offer(t), worst);
    }
  }

  /** Greedy allocation over lossy tunnels delivers the worst active mode's portion of the best that is possible. */
  lemma DeliveredIsAtLeastThePortion(ts: seq<Tunnel>, requested: real, worst: TunnelMode)
    requires requested >= 0.0 && AllNoWorse(ts, worst)
    ensures Delivered(ts, requested) >= Portion(worst, Min(requested, Capacity(ts, |ts|)))
  {
    LowerBoundUpTo(ts, requested, worst, |ts|);
  }

  /** For any mix of modes that is 85 percent. */
  lemma AnyMixDelivers85Percent(ts: seq<Tunnel>, requested: real)
    requires requested >= 0.0
    ensures Delivered(ts, requested) >= 0.85 * Min(requested, Capacity(ts, |ts|))
  {
    DeliveredIsAtLeastThePortion(ts, requested, Onion);
  }

  /** Without onion tunnels it is 95 percent. */
  lemma WithoutOnion95Percent(ts: seq<Tunnel>, requested: real)
    requires requested >= 0.0 && forall t | t in ts && t.active :: t.mode != Onion
    ensures Delivered(ts, requested) >= 0.95 * Min(requested, Capacity(ts, |ts|))
  {
    DeliveredIsAtLeastThePortion(ts, requested, Hybrid);
  }

  /** One tunnel delivers no more than its portion, so the bound is the best one. */
  lemma OneTunnelDeliversItsPortion(mode: TunnelMode, bandwidth: real, requested: real)
    requires requested >= 0.0 && bandwidth >= 0.0
    ensures var ts := [Tunnel(mode, bandwidth, true)];
            Delivered(ts, requested) ==
              (if requested < bandwidth then requested else bandwidth) *
              (match mode case WireGuard => 1.0 case Onion => 0.85 case Hybrid => 0.95)
  {
    var ts := [Tunnel(mode, bandwidth, true)];
    assert ArrivalAt(ts, requested, 0) == Arriving(requested);
  }

  /** WireGuard tunnels deliver all that is possible. */
  lemma WireGuardDeliversEverything(ts: seq<Tunnel>, requested: real)
    requires requested >= 0.0 && forall t | t in ts && t.active :: t.mode == WireGuard
    ensures Delivered(ts, requested) == Min(requested, Capacity(ts, |ts|))
  {
    DeliveredIsBounded(ts, requested);
    DeliveredIsAtLeastThePortion(ts, requested, WireGuard);
  }

  lemma {:induction false} WireGuardLeaves(ts: seq<Tunnel>, requested: real, n: nat)
    requires n <= |ts| && requested >= 0.0 && forall t | t in ts && t.active :: t.mode == WireGuard
    ensures ArrivalAt(ts, requested, n).left == Max(0.0, requested - Capacity(ts, n))
    ensures ArrivalAt(ts, requested, n).Stopped? ==> requested <= Capacity(ts, n)
  {
    if n > 0 {
      WireGuardLeaves(ts, requested, n - 1);
      assert ts[n - 1] in ts;
    }
  }

  /** And they are drained in their order: each gives what the ones before it could not, as far as it can. */
  lemma WireGuardDrainsInOrder(ts: seq<Tunnel>, requested: real, k: nat)
    requires k < |ts| && requested >= 0.0 && forall t | t in ts && t.active :: t.mode == WireGuard
    requires ts[k].active && ts[k].bandwidth >= 0.0
    ensures After(ts, requested, k).bandwidth ==
            ts[k].bandwidth - Max(0.0, Min(ts[k].bandwidth, requested - Capacity(ts, k)))
  {
    WireGuardLeaves(ts, requested, k);
    assert ts[k] in ts;
  }

  predicate NoneRises(ts: seq<Tunnel>, requested: real) {
    forall k | 0 <= k < |ts| :: After(ts, requested, k).bandwidth <= ts[k].bandwidth
  }

  lemma NegativeRequestRaises(requested: real)
    requires requested < 0.0
    ensures !NoneRises([Tunnel(WireGuard, 1.0, true)], requested)
  {
    var ts := [Tunnel(WireGuard, 1.0, true)];
    assert ArrivalAt(ts, requested, 0) == Arriving(requested);
    assert After(ts, requested, 0).bandwidth > ts[0].bandwidth;
  }

  lemma {:induction false} NothingPassesFirstActive(ts: seq<Tunnel>, requested: real, first: nat, n: nat)
    requires first < |ts| && n <= |ts| && requested <= 0.0
    requires ts[first].active && forall j | 0 <= j < first :: !ts[j].active
    ensures n <= first ==> ArrivalAt(ts, requested, n) == Arriving(requested)
    ensures n > first ==> ArrivalAt(ts, requested, n).Stopped?
  {
    if n > 0 {
      NothingPassesFirstActive(ts, requested, first, n - 1);
    }
  }

  /** A request of nothing or less stops the loop at the first active tunnel: no other one changes. */
  lemma NegativeRequestReachesOneTunnel(ts: seq<Tunnel>, requested: real, first: nat, k: nat)
    requires first < |ts| && k < |ts| && k != first && requested <= 0.0
    requires ts[first].active && forall j | 0 <= j < first :: !ts[j].active
    ensures After(ts, requested, k) == ts[k]
  {
    NothingPassesFirstActive(ts, requested, first, k);
  }

  /** The source takes any request; exactly the negative ones can raise the bandwidth of a tunnel. */
  lemma NoneRisesExactlyUnlessNegative(requested: real)
    ensures requested >= 0.0 <==> forall ts: seq<Tunnel> :: NoneRises(ts, requested)
  {
    if requested >= 0.0 {
      forall ts: seq<Tunnel>, k | 0 <= k < |ts|
        ensures After(ts, requested, k).bandwidth <= ts[k].bandwidth
      {
        TunnelsAfterwards(ts, requested, k);
      }
    } else {
      NegativeRequestRaises(requested);
    }
  }
}
