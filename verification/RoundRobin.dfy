/** Round robin over a host list, by a 64-bit counter that only ever moves on. */
module RoundRobin {
  import opened Arith
  import opened Weights
  import opened Sorting
  import opened Srv

  const TWO64: nat := 0x1_0000_0000_0000_0000

  newtype uint64 = x: int | 0 <= x < 0x1_0000_0000_0000_0000

  /** What a subscriber gives its balancer. */
  datatype HostsResult = HostList(hosts: seq<string>) | SubscriberError

  datatype HostResult = Host(host: string) | NoHosts | HostsError

  /** The position served by the `k`-th call from a counter value on; the counter wraps around. */
  function Position(counter: nat, k: nat, n: nat): (p: nat)
    requires n > 0
    ensures p < n
  {
    (counter + k) % TWO64 % n
  }

  /** The hosts that `m` consecutive calls get from a list that does not change meanwhile. */
  function Served(hosts: seq<string>, counter: nat, m: nat): (r: seq<string>)
    requires hosts != []
    ensures |r| == m
  {
    seq(m, k requires 0 <= k < m => hosts[Position(counter, k, |hosts|)])
  }

  class RoundRobinLB {
    var counter: uint64

    constructor (start: uint64)
      ensures counter == start
    {
      counter := start;
    }

    /** An error or an empty list leaves the counter alone; otherwise it moves on by one. */
    method Host(answer: HostsResult) returns (r: HostResult)
      modifies this
      ensures match answer
              case SubscriberError => r == HostsError && counter == old(counter)
              case HostList(hosts) =>
                if hosts == [] then r == NoHosts && counter == old(counter)
                else r == HostResult.Host(hosts[old(counter) as nat % |hosts|])
                     && counter as nat == (old(counter) as nat + 1) % 0x1_0000_0000_0000_0000
    {
      match answer
      case SubscriberError => return HostsError;
      case HostList(hosts) =>
        if |hosts| <= 0 {
          return NoHosts;
        }
        var before := counter;
        counter := if before == 0xFFFF_FFFF_FFFF_FFFF then 0 else before + 1;
        var offset := before as nat % |hosts|;
        return HostResult.Host(hosts[offset]);
    }

    /** A run of calls, with no refresh of the list in between. */
    method HostTimes(hosts: seq<string>, m: nat) returns (served: seq<string>)
      requires hosts != []
      modifies this
      ensures served == Served(hosts, old(counter) as nat, m)
      ensures |served| == m && forall k | 0 <= k < m :: served[k] == hosts[(old(counter) as nat + k) % TWO64 % |hosts|]
      ensures counter as nat == (old(counter) as nat + m) % TWO64
    {
      served := [];
      for k := 0 to m
        invariant served == Served(hosts, old(counter) as nat, k)
        invariant counter as nat == (old(counter) as nat + k) % TWO64
      {
        ModStep(old(counter) as nat + k);
        var r := Host(HostList(hosts));
        served := served + [r.host];
      }
    }
  }

  /** A subscriber that never changes its list is recognised as such. */
  datatype Subscription = Fixed(hosts: seq<string>) | Refreshed

  datatype Balancer = Constant(host: string) | Rotating(lb: RoundRobinLB)

  /** `fastrand.Uint32n`: some number below the bound. */
  method Uint32n(maxN: nat) returns (r: uint64)
    requires maxN < 0x1_0000_0000
    ensures r as nat < maxN || r == 0
  {
    if maxN > 0 {
      var k :| 0 <= k < maxN;
      r := k as uint64;
    } else {
      r := 0;
    }
  }

  /** A fixed list of one host needs no counter; a longer one starts at a random position, any other at zero. */
  method NewRoundRobinLB(subscriber: Subscription) returns (b: Balancer)
    ensures b.Constant? <==> subscriber.Fixed? && |subscriber.hosts| == 1
    ensures b.Constant? ==> b.host == subscriber.hosts[0]
    ensures b.Rotating? ==>
      && fresh(b.lb)
      && if subscriber.Fixed? && |subscriber.hosts| > 1 then b.lb.counter as nat < |subscriber.hosts| else b.lb.counter == 0
  {
    var start: uint64 := 0;
    if subscriber.Fixed? {
      var l := |subscriber.hosts|;
      if l == 1 {
        return Constant(subscriber.hosts[0]);
      } else if l > 1 {
        start := Uint32n(l % 0x1_0000_0000);
      }
    }
    var lb := new RoundRobinLB(start);
    b := Rotating(lb);
  }

  /** The constant balancer gives what round robin would: the only host, at every counter value. */
  lemma {:induction false} ConstantRefines(host: string, counter: nat, m: nat)
    ensures multiset(Served([host], counter, m)) == multiset{}[host := m]
  {
    if m > 0 {
      ConstantRefines(host, counter, m - 1);
      assert Served([host], counter, m) == Served([host], counter, m - 1) + [host];
    }
  }

  lemma ModStep(x: nat)
    ensures (x % TWO64 + 1) % TWO64 == (x + 1) % TWO64
    ensures (x % TWO64 + 0) % TWO64 == x % TWO64
  {
  }

  // ---- Balance by position

  /** How many of the first `m` calls serve position `p`. */
  function Hits(counter: nat, m: nat, n: nat, p: nat): nat
    requires n > 0
  {
    if m == 0 then 0 else Hits(counter, m - 1, n, p) + if Position(counter, m - 1, n) == p then 1 else 0
  }

  /** The counter's wrap-around does not show in these calls. */
  ghost predicate Steady(counter: nat, m: nat, n: nat)
    requires n > 0
  {
    forall k | 0 <= k < m :: Position(counter, k, n) == (counter + k) % n
  }

  lemma NoWrapSteady(counter: nat, m: nat, n: nat)
    requires n > 0 && counter + m <= TWO64
    ensures Steady(counter, m, n)
  {
    forall k | 0 <= k < m
      ensures Position(counter, k, n) == (counter + k) % n
    {
      DivModUnique(counter + k, TWO64, 0, counter + k);
    }
  }

  /** Two calls less than `n` apart do not serve the same position. */
  lemma NearbyDiffer(counter: nat, j: nat, k: nat, m: nat, n: nat)
    requires n > 0 && j < k < m <= n && Steady(counter, m, n)
    ensures Position(counter, j, n) != Position(counter, k, n)
  {
    var x, y := counter + j, counter + k;
    if x % n == y % n {
      DivMod(x, n);
      DivMod(y, n);
      Distribute(n, y / n, x / n);
      SmallMultiple(n, y / n - x / n);
    }
  }

  /** At most `n` calls serve a position at most once. */
  lemma {:induction false} ShortWindow(counter: nat, m: nat, n: nat, p: nat)
    requires n > 0 && m <= n && Steady(counter, m, n)
    ensures Hits(counter, m, n, p) <= 1
    ensures Hits(counter, m, n, p) == 1 <==> exists k | 0 <= k < m :: Position(counter, k, n) == p
  {
    hide Position;
    if m > 0 {
      ShortWindow(counter, m - 1, n, p);
      if Hits(counter, m - 1, n, p) == 1 {
        var k :| 0 <= k < m - 1 && Position(counter, k, n) == p;
        NearbyDiffer(counter, k, m - 1, m, n);
      }
    }
  }

  /** Some call of a full window serves position `p`. */
  lemma FullWindowHits(counter: nat, n: nat, p: nat) returns (k: nat)
    requires n > 0 && p < n && Steady(counter, n, n)
    ensures k < n && Position(counter, k, n) == p
  {
    var r := counter % n;
    k := if r <= p then p - r else p + n - r;
    DivMod(counter, n);
    if r <= p {
      DivModUnique(counter + k, n, counter / n, p);
    } else {
      Distribute(n, counter / n, 1);
      DivModUnique(counter + k, n, counter / n + 1, p);
    }
  }

  lemma FullWindow(counter: nat, n: nat, p: nat)
    requires n > 0 && p < n && Steady(counter, n, n)
    ensures Hits(counter, n, n, p) == 1
  {
    hide Position;
    ShortWindow(counter, n, n, p);
    var k := FullWindowHits(counter, n, p);
  }

  lemma {:induction false} HitsConcat(counter: nat, m: nat, m': nat, n: nat, p: nat)
    requires n > 0
    ensures Hits(counter, m + m', n, p) == Hits(counter, m, n, p) + Hits(counter + m, m', n, p)
    decreases m'
  {
    if m' > 0 { HitsConcat(counter, m, m' - 1, n, p); }
  }

  lemma SteadyTail(counter: nat, m: nat, m': nat, n: nat)
    requires n > 0 && Steady(counter, m + m', n)
    ensures Steady(counter + m, m', n)
  {
    var later := counter + m;
    forall k | 0 <= k < m' ensures Position(later, k, n) == (later + k) % n {
      assert Position(counter, m + k, n) == (counter + (m + k)) % n;
    }
  }

  /** Any window, of any length, serves each position `m / n` times, and some once more. */
  lemma {:induction false} AnyWindow(counter: nat, m: nat, n: nat, p: nat)
    requires n > 0 && p < n && Steady(counter, m, n)
    ensures m / n <= Hits(counter, m, n, p) <= m / n + 1
    ensures m % n == 0 ==> Hits(counter, m, n, p) == m / n
    decreases m
  {
    hide Position;
    if m < n {
      DivModUnique(m, n, 0, m);
      ShortWindow(counter, m, n, p);
    } else {
      FullWindow(counter, n, p);
      SteadyTail(counter, n, m - n, n);
      AnyWindow(counter + n, m - n, n, p);
      HitsConcat(counter, n, m - n, n, p);
      DivMod(m - n, n);
      Distribute(n, (m - n) / n, 1);
      DivModUnique(m, n, (m - n) / n + 1, (m - n) % n);
    }
  }

  /** With no wrap-around, two positions of the list never differ by more than one call. */
  lemma Balanced(counter: nat, m: nat, n: nat, p: nat, q: nat)
    requires n > 0 && p < n && q < n && counter + m <= TWO64
    ensures -1 <= Hits(counter, m, n, p) - Hits(counter, m, n, q) <= 1
  {
    NoWrapSteady(counter, m, n);
    AnyWindow(counter, m, n, p);
    AnyWindow(counter, m, n, q);
  }

  // ---- The wrap-around

  ghost predicate FairWindows(n: nat)
    requires n > 0
  {
    forall counter, p | 0 <= counter < TWO64 && 0 <= p < n :: Hits(counter, n, n, p) == 1
  }

  lemma ModMod(x: nat, n: nat)
    requires n > 0 && TWO64 % n == 0
    ensures x % TWO64 % n == x % n
  {
    DivMod(x, TWO64);
    DivMod(TWO64, n);
    var q := x / TWO64 * (TWO64 / n);
    assert x == n * q + x % TWO64;
    DivMod(x % TWO64, n);
    Distribute(n, q, x % TWO64 / n);
    DivModUnique(x, n, q + x % TWO64 / n, x % TWO64 % n);
  }

  lemma WrapsLow(k: nat, n: nat)
    requires k < n - 1
    ensures (TWO64 - 1 + (k + 1)) % TWO64 % n != n - 1
  {
    DivMod(k, TWO64);
    DivModUnique(TWO64 + k, TWO64, 1 + k / TWO64, k % TWO64);
    DivModUnique(k % TWO64, n, 0, k % TWO64);
  }

  /** From the counter's last value on, the last position is not served before its turn comes late. */
  lemma {:induction false} LastStarves(m: nat, n: nat)
    requires n > 0 && m <= n && (TWO64 - 1) % n != n - 1
    ensures Hits(TWO64 - 1, m, n, n - 1) == 0
  {
    if m > 0 {
      LastStarves(m - 1, n);
      var k := m - 1;
      if k > 0 { WrapsLow(k - 1, n); }
    }
  }

  /** Every full window is fair, across the wrap-around too, exactly when the length divides 2^64. */
  lemma WrapFairIff(n: nat)
    requires n > 0
    ensures FairWindows(n) <==> TWO64 % n == 0
  {
    if TWO64 % n == 0 {
      forall counter, p | 0 <= counter < TWO64 && 0 <= p < n ensures Hits(counter, n, n, p) == 1 {
        DividingSteady(counter, n, n);
        FullWindow(counter, n, p);
      }
    } else {
      DivMod(TWO64 - 1, n);
      Distribute(n, (TWO64 - 1) / n, 1);
      if (TWO64 - 1) % n == n - 1 { DivModUnique(TWO64, n, (TWO64 - 1) / n + 1, 0); }
      LastStarves(n, n);
      assert Hits(TWO64 - 1, n, n, n - 1) == 0;
    }
  }

  /** This full window serves every position once. */
  ghost predicate FairWindow(counter: nat, n: nat)
    requires n > 0
  {
    forall p | 0 <= p < n :: Hits(counter, n, n, p) == 1
  }

  lemma {:induction false} Unserved(counter: nat, m: nat, n: nat, p: nat)
    requires n > 0 && forall k | 0 <= k < m :: Position(counter, k, n) != p
    ensures Hits(counter, m, n, p) == 0
  {
    hide Position;
    if m > 0 { Unserved(counter, m - 1, n, p); }
  }

  lemma {:induction false} ServedOnce(counter: nat, m: nat, n: nat, p: nat, k: nat)
    requires n > 0 && k < m && Position(counter, k, n) == p
    ensures Hits(counter, m, n, p) >= 1
  {
    hide Position;
    if k < m - 1 { ServedOnce(counter, m - 1, n, p, k); }
  }

  lemma {:induction false} ServedTwice(counter: nat, m: nat, n: nat, p: nat, j: nat, k: nat)
    requires n > 0 && j < k < m && Position(counter, j, n) == p && Position(counter, k, n) == p
    ensures Hits(counter, m, n, p) >= 2
  {
    hide Position;
    if k < m - 1 { ServedTwice(counter, m - 1, n, p, j, k); } else { ServedOnce(counter, m - 1, n, p, j); }
  }

  /** Before the counter wraps, and after it has. */
  lemma PositionBefore(counter: nat, k: nat, n: nat)
    requires n > 0 && counter + k < TWO64
    ensures Position(counter, k, n) == (counter + k) % n
  {
    DivModUnique(counter + k, TWO64, 0, counter + k);
  }

  lemma PositionAfter(counter: nat, k: nat, n: nat)
    requires n > 0 && TWO64 <= counter + k < 2 * TWO64
    ensures Position(counter, k, n) == (counter + k - TWO64) % n
  {
    DivModUnique(counter + k, TWO64, 1, counter + k - TWO64);
  }

  /** The counter wraps inside the window, and its range is no multiple of the length: some position is missed or doubled. */
  lemma CrossingUnfair(counter: nat, n: nat)
    requires n > 0 && counter < TWO64 && n <= TWO64 && TWO64 < counter + n && TWO64 % n != 0
    ensures !FairWindow(counter, n)
  {
    var j, e := TWO64 - counter, TWO64 % n;
    DivMod(TWO64, n);
    var q := TWO64 / n;
    if e < j {
      // the calls e before the wrap and right after it serve position 0
      PositionBefore(counter, j - e, n);
      DivModUnique(counter + (j - e), n, q, 0);
      PositionAfter(counter, j, n);
      DivModUnique(0, n, 0, 0);
      ServedTwice(counter, n, n, 0, j - e, j);
    } else {
      // the last position lies before the residues served before the wrap and after those served after it
      forall k | 0 <= k < n
        ensures Position(counter, k, n) != n - 1
      {
        if k < j {
          PositionBefore(counter, k, n);
          DivModUnique(counter + k, n, q, e - (j - k));
        } else {
          PositionAfter(counter, k, n);
          DivModUnique(k - j, n, 0, k - j);
        }
      }
      Unserved(counter, n, n, n - 1);
    }
  }

  lemma DividingSteady(counter: nat, m: nat, n: nat)
    requires n > 0 && TWO64 % n == 0
    ensures Steady(counter, m, n)
  {
    forall k | 0 <= k < m
      ensures Position(counter, k, n) == (counter + k) % n
    {
      ModMod(counter + k, n);
    }
  }

  /** A window as long as the list is fair exactly when the counter does not wrap inside it or the length divides 2^64. */
  lemma FullWindowIff(counter: nat, n: nat)
    requires 0 < n <= TWO64 && counter < TWO64
    ensures FairWindow(counter, n) <==> counter + n <= TWO64 || TWO64 % n == 0
  {
    if counter + n <= TWO64 || TWO64 % n == 0 {
      if counter + n <= TWO64 { NoWrapSteady(counter, n, n); } else { DividingSteady(counter, n, n); }
      forall p | 0 <= p < n
        ensures Hits(counter, n, n, p) == 1
      {
        FullWindow(counter, n, p);
      }
    } else {
      CrossingUnfair(counter, n);
    }
  }

  /** Starting over after the wrap. */
  lemma {:induction false} HitsAfterWrap(m: nat, n: nat, p: nat)
    requires n > 0
    ensures Hits(TWO64, m, n, p) == Hits(0, m, n, p)
  {
    if m > 0 {
      HitsAfterWrap(m - 1, n, p);
      var k := m - 1;
      DivMod(k, TWO64);
      DivModUnique(TWO64 + k, TWO64, 1 + k / TWO64, k % TWO64);
    }
  }

  /** Across one wrap, two positions never differ by more than two calls. */
  lemma BalancedAcrossWrap(counter: nat, m: nat, n: nat, p: nat, q: nat)
    requires n > 0 && p < n && q < n && counter < TWO64 && m <= TWO64
    ensures -2 <= Hits(counter, m, n, p) - Hits(counter, m, n, q) <= 2
  {
    hide Hits;
    if counter + m <= TWO64 {
      Balanced(counter, m, n, p, q);
    } else {
      var j := TWO64 - counter;
      HitsConcat(counter, j, m - j, n, p);
      HitsConcat(counter, j, m - j, n, q);
      HitsAfterWrap(m - j, n, p);
      HitsAfterWrap(m - j, n, q);
      Balanced(counter, j, n, p, q);
      Balanced(0, m - j, n, p, q);
    }
  }

  // ---- Weighted fairness

  /** Calls served by the first `q` positions that hold `h`. */
  function HostHits(hosts: seq<string>, counter: nat, m: nat, h: string, q: nat): nat
    requires q <= |hosts|
  {
    if q == 0 then 0
    else HostHits(hosts, counter, m, h, q - 1) + if hosts[q - 1] == h then Hits(counter, m, |hosts|, q - 1) else 0
  }

  lemma {:induction false} HostHitsStep(hosts: seq<string>, counter: nat, m: nat, h: string, q: nat)
    requires q <= |hosts| && hosts != []
    ensures var p := Position(counter, m, |hosts|);
            HostHits(hosts, counter, m + 1, h, q)
            == HostHits(hosts, counter, m, h, q) + if p < q && hosts[p] == h then 1 else 0
  {
    hide Position;
    if q > 0 { HostHitsStep(hosts, counter, m, h, q - 1); }
  }

  lemma {:induction false} NoHostHits(hosts: seq<string>, counter: nat, h: string, q: nat)
    requires q <= |hosts|
    ensures HostHits(hosts, counter, 0, h, q) == 0
  {
    if q > 0 { NoHostHits(hosts, counter, h, q - 1); }
  }

  lemma {:induction false} ServedCount(hosts: seq<string>, counter: nat, m: nat, h: string)
    requires hosts != []
    ensures multiset(Served(hosts, counter, m))[h] == HostHits(hosts, counter, m, h, |hosts|)
  {
    hide Position;
    if m == 0 {
      NoHostHits(hosts, counter, h, |hosts|);
    } else {
      ServedCount(hosts, counter, m - 1, h);
      HostHitsStep(hosts, counter, m - 1, h, |hosts|);
      assert Served(hosts, counter, m)
          == Served(hosts, counter, m - 1) + [hosts[Position(counter, m - 1, |hosts|)]];
    }
  }

  lemma {:induction false} FullHostHits(hosts: seq<string>, counter: nat, h: string, q: nat)
    requires hosts != [] && q <= |hosts| && Steady(counter, |hosts|, |hosts|)
    ensures HostHits(hosts, counter, |hosts|, h, q) == multiset(hosts[..q])[h]
  {
    if q > 0 {
      FullHostHits(hosts, counter, h, q - 1);
      FullWindow(counter, |hosts|, q - 1);
      assert hosts[..q] == hosts[..q - 1] + [hosts[q - 1]];
    }
  }

  /** A window as long as the list serves every host as often as the list holds it. */
  lemma WindowServesList(hosts: seq<string>, counter: nat)
    requires hosts != [] && (counter + |hosts| <= TWO64 || TWO64 % |hosts| == 0)
    ensures multiset(Served(hosts, counter, |hosts|)) == multiset(hosts)
  {
    if counter + |hosts| <= TWO64 {
      NoWrapSteady(counter, |hosts|, |hosts|);
    } else {
      DividingSteady(counter, |hosts|, |hosts|);
    }
    forall h ensures multiset(Served(hosts, counter, |hosts|))[h] == multiset(hosts)[h] {
      ServedCount(hosts, counter, |hosts|, h);
      FullHostHits(hosts, counter, h, |hosts|);
      assert hosts[..|hosts|] == hosts;
    }
  }

  /**
    End to end: with no refresh and no wrap-around, a window as long as the cached list serves each record
    of the lowest priority exactly its compacted weight, whether or not the list was shuffled.
   */
  lemma WeightedFairness(scheme: string, answer: seq<Record>, cache: seq<string>, counter: nat, i: nat)
    requires multiset(cache) == multiset(Instances(scheme, answer))
    requires cache != [] && (counter + |cache| <= TWO64 || TWO64 % |cache| == 0)
    requires i < |Top(Sort(Before, answer))|
    requires var top := Top(Sort(Before, answer));
             forall j, k | 0 <= j < k < |top| :: top[j].target != top[k].target || top[j].port != top[k].port
    ensures var top := Top(Sort(Before, answer));
            multiset(Served(cache, counter, |cache|))[HostOf(scheme, top[i])] == Compacted(RawWeights(top))[i]
  {
    var top := Top(Sort(Before, answer));
    var counts := Compacted(RawWeights(top));
    WindowServesList(cache, counter);
    ExpandShares(Hosts(scheme, top), counts, HostOf(scheme, top[i]));
    OwnShare(scheme, top, counts, i);
  }

  /** The same without telling records of one host name apart: the host gets what they are due together. */
  lemma SharedFairness(scheme: string, answer: seq<Record>, cache: seq<string>, counter: nat, h: string)
    requires multiset(cache) == multiset(Instances(scheme, answer))
    requires cache != [] && (counter + |cache| <= TWO64 || TWO64 % |cache| == 0)
    ensures var top := Top(Sort(Before, answer));
            multiset(Served(cache, counter, |cache|))[h]
            == Share(Hosts(scheme, top), Compacted(RawWeights(top)), h)
  {
    var top := Top(Sort(Before, answer));
    WindowServesList(cache, counter);
    ExpandShares(Hosts(scheme, top), Compacted(RawWeights(top)), h);
  }
}
