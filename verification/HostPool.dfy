/** The weighted host pool (framework/client/host_pool.cpp): running totals of the weights, and
    a binary search for a draw. The draw itself is a parameter. */
module HostPool {
  import opened Basics

  datatype HostEntry = HostEntry(url: string, weight: int)

  const INT_MAX: int := 0x7fff_ffff

  /** A weight below 1 counts as 1. */
  function Weight(h: HostEntry): (w: int)
    ensures w == if h.weight < 1 then 1 else h.weight
  {
    Max(1, h.weight)
  }

  /** The weight of the first `n` hosts. */
  function Total(hosts: seq<HostEntry>, n: nat): (t: nat)
    requires n <= |hosts|
    ensures t >= n
  {
    if n == 0 then 0 else Total(hosts, n - 1) + Weight(hosts[n - 1])
  }

  lemma {:induction false} TotalAscends(hosts: seq<HostEntry>, i: nat, j: nat)
    requires i < j <= |hosts|
    ensures Total(hosts, i) < Total(hosts, j)
    decreases j
  {
    if i < j - 1 {
      TotalAscends(hosts, i, j - 1);
    }
  }

  /** The draws that belong to host `i`. */
  predicate Owns(hosts: seq<HostEntry>, i: nat, r: int)
    requires i < |hosts|
  {
    Total(hosts, i) < r <= Total(hosts, i + 1)
  }

  /** The host of a draw. */
  function Owner(hosts: seq<HostEntry>, n: nat, r: int): (i: nat)
    requires n <= |hosts| && 1 <= r <= Total(hosts, n)
    ensures i < n && Owns(hosts, i, r)
  {
    if r > Total(hosts, n - 1) then n - 1 else Owner(hosts, n - 1, r)
  }

  /** The draws from 1 to the total are divided among the hosts: each has exactly one owner. */
  lemma {:induction false} DrawsPartition(hosts: seq<HostEntry>, r: int, i: nat, j: nat)
    requires 1 <= r <= Total(hosts, |hosts|) && i < |hosts| && j < |hosts|
    requires Owns(hosts, i, r) && Owns(hosts, j, r)
    ensures i == j == Owner(hosts, |hosts|, r)
  {
    var k := Owner(hosts, |hosts|, r);
    OneOwner(hosts, i, k, r);
    OneOwner(hosts, j, k, r);
  }

  lemma {:induction false} OneOwner(hosts: seq<HostEntry>, i: nat, j: nat, r: int)
    requires i < |hosts| && j < |hosts| && Owns(hosts, i, r) && Owns(hosts, j, r)
    ensures i == j
  {
    if i < j {
      if i + 1 < j {
        TotalAscends(hosts, i + 1, j);
      }
    } else if j < i {
      if j + 1 < i {
        TotalAscends(hosts, j + 1, i);
      }
    }
  }

  function Interval(a: int, n: nat): (s: set<int>)
    ensures forall r :: r in s <==> a < r <= a + n
    ensures |s| == n
  {
    if n == 0 then {} else Interval(a, n - 1) + {a + n}
  }

  /** Exactly as many of the possible draws as its weight pick a host. */
  lemma {:induction false} ExactShare(hosts: seq<HostEntry>, i: nat, draws: set<int>)
    requires i < |hosts|
    requires forall r :: r in draws <==> 1 <= r <= Total(hosts, |hosts|) && Owner(hosts, |hosts|, r) == i
    ensures |draws| == Weight(hosts[i])
  {
    if i + 1 < |hosts| {
      TotalAscends(hosts, i + 1, |hosts|);
    }
    forall r ensures r in draws <==> Owns(hosts, i, r) {
      if Owns(hosts, i, r) {
        OneOwner(hosts, i, Owner(hosts, |hosts|, r), r);
      }
    }
    assert draws == Interval(Total(hosts, i), Weight(hosts[i]));
  }

  /** `std::lower_bound` on an ascending list: the first element that is not below `r`. */
  method LowerBound(a: seq<int>, r: int) returns (k: nat)
    requires forall i, j | 0 <= i < j < |a| :: a[i] < a[j]
    ensures k <= |a|
    ensures forall i | 0 <= i < k :: a[i] < r
    ensures forall i | k <= i < |a| :: a[i] >= r
  {
    k := 0;
    var count := |a|;
    while count > 0
      invariant 0 <= k && 0 <= count && k + count <= |a|
      invariant forall i | 0 <= i < k :: a[i] < r
      invariant forall i | k + count <= i < |a| :: a[i] >= r
    {
      var step := count / 2;
      if a[k + step] < r {
        k := k + step + 1;
        count := count - step - 1;
      } else {
        count := step;
      }
    }
  }

  class Pool {
    var hosts: seq<HostEntry>
    var urls: seq<string>
    var cumulative: seq<int>
    var total: int

    ghost predicate Valid()
      reads this
    {
      && |urls| == |cumulative| == |hosts| && total == Total(hosts, |hosts|) <= INT_MAX
      && (forall i | 0 <= i < |hosts| :: urls[i] == hosts[i].url && cumulative[i] == Total(hosts, i + 1))
    }

    /** The first `k` hosts have been added. */
    ghost predicate Added(k: nat)
      reads this
    {
      && k <= |hosts| && |urls| == |cumulative| == k && total == Total(hosts, k)
      && (forall i | 0 <= i < k :: urls[i] == hosts[i].url && cumulative[i] == Total(hosts, i + 1))
    }

    constructor (hosts: seq<HostEntry>)
      requires Total(hosts, |hosts|) <= INT_MAX
      ensures Valid() && this.hosts == hosts
    {
      this.hosts := hosts;
      urls, cumulative, total := [], [], 0;
      new;
      AddAll();
    }

    method AddAll()
      requires Added(0)
      modifies this`urls, this`cumulative, this`total
      ensures Added(|hosts|)
    {
      for k := 0 to |hosts|
        invariant Added(k)
      {
        Add(hosts[k]);
      }
    }

    /** The loop body of the constructor. */
    method Add(h: HostEntry)
      modifies this`urls, this`cumulative, this`total
      ensures urls == old(urls) + [h.url] && total == old(total) + Weight(h)
      ensures cumulative == old(cumulative) + [total]
    {
      urls := urls + [h.url];
      total := total + Max(1, h.weight);
      cumulative := cumulative + [total];
    }

    lemma Ascending()
      requires Valid()
      ensures forall i, j | 0 <= i < j < |cumulative| :: cumulative[i] < cumulative[j]
    {
      forall i, j | 0 <= i < j < |cumulative| ensures cumulative[i] < cumulative[j] {
        TotalAscends(hosts, i + 1, j + 1);
      }
    }

    /** The host of the draw `r`; the only host if there is one, "" if there is none. */
    method Pick(r: int) returns (url: string)
      requires Valid() && (|hosts| > 1 ==> 1 <= r <= total)
      ensures |hosts| == 0 ==> url == ""
      ensures |hosts| == 1 ==> url == hosts[0].url
      ensures |hosts| > 1 ==> url == hosts[Owner(hosts, |hosts|, r)].url
    {
      if cumulative == [] {
        return "";
      }
      if |cumulative| == 1 {
        return urls[0];
      }
      Ascending();
      var k := LowerBound(cumulative, r);
      OneOwner(hosts, k, Owner(hosts, |hosts|, r), r);
      url := urls[k];
    }
  }
}
