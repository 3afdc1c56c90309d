/** Choosing the address of a new device inside the network of its server. */
module Allocation {

  import opened Basics

  /** An IPv4 network: its first address and the number of its addresses. */
  datatype Network = Network(base: nat, size: nat) {
    predicate Contains(ip: int) {
      base <= ip < base + size
    }

    /** The usable hosts are the half-open interval [HostsFrom(), HostsTo()): a network of one
        or two addresses uses them all, a larger one not its first and last. */
    function HostsFrom(): nat {
      if size <= 2 then base else base + 1
    }

    function HostsTo(): nat {
      if size <= 2 then base + size else base + size - 1
    }

    predicate IsHost(ip: int) {
      HostsFrom() <= ip < HostsTo()
    }
  }

  /** The usable hosts: all addresses of a network of one or two, otherwise all but the first and the last. */
  lemma {:induction false} HostsExactly(net: Network, ip: int)
    ensures net.IsHost(ip) <==> && net.base <= ip < net.base + net.size
                                && (net.size > 2 ==> ip != net.base && ip != net.base + net.size - 1)
  {
  }

  /** The addresses a new device must not take. */
  function Reserved(net: Network, server: Option<int>, local: set<int>, remote: seq<int>): set<int> {
    (set ip | ip in local && net.Contains(ip)) + (set ip | ip in remote && net.Contains(ip))
    + (if server.Some? then {server.value} else {})
  }

  function Highest(net: Network, remote: seq<int>): (r: Option<int>)
    ensures r.None? <==> forall ip :: ip in remote ==> !net.Contains(ip)
    ensures r.Some? ==> r.value in remote && net.Contains(r.value)
                        && forall ip :: ip in remote && net.Contains(ip) ==> ip <= r.value
  {
    if remote == [] then None
    else
      var rest := Highest(net, remote[..|remote| - 1]);
      var ip := remote[|remote| - 1];
      if net.Contains(ip) && (rest.None? || rest.value < ip) then Some(ip) else rest
  }

  /** Where the search starts: above the highest remote address when that is a host. */
  function SearchFrom(net: Network, remote: seq<int>): nat {
    match Highest(net, remote)
    case Some(top) => if net.IsHost(top) then top + 1 else net.HostsFrom()
    case None => net.HostsFrom()
  }

  function FirstFree(lo: int, hi: int, reserved: set<int>): Option<int>
    decreases hi - lo
  {
    if lo >= hi then None
    else if lo !in reserved then Some(lo)
    else FirstFree(lo + 1, hi, reserved)
  }

  function Allocate(net: Network, server: Option<int>, local: set<int>, remote: seq<int>): Option<int> {
    FirstFree(SearchFrom(net, remote), net.HostsTo(), Reserved(net, server, local, remote))
  }

  method HighestRemote(net: Network, remote: seq<int>) returns (top: Option<int>)
    ensures top == Highest(net, remote)
  {
    top := None;
    for i := 0 to |remote|
      invariant top == Highest(net, remote[..i])
    {
      assert remote[..i + 1][..i] == remote[..i];
      if net.Contains(remote[i]) && (top.None? || top.value < remote[i]) {
        top := Some(remote[i]);
      }
    }
    assert remote[..|remote|] == remote;
  }

  /** None stands for the error that no address is available. */
  method AllocateVpnIp(net: Network, server: Option<int>, local: set<int>, remote: seq<int>)
    returns (r: Option<int>)
    ensures r == Allocate(net, server, local, remote)
  {
    var reserved := (set ip | ip in local && net.Contains(ip)) + (set ip | ip in remote && net.Contains(ip));
    if server.Some? {
      reserved := reserved + {server.value};
    }
    assert reserved == Reserved(net, server, local, remote);
    var top := HighestRemote(net, remote);
    var ip := if top.Some? && net.IsHost(top.value) then top.value + 1 else net.HostsFrom();
    while ip < net.HostsTo()
      invariant Allocate(net, server, local, remote) == FirstFree(ip, net.HostsTo(), reserved)
    {
      if ip !in reserved {
        return Some(ip);
      }
      ip := ip + 1;
    }
    return None;
  }

  lemma {:induction false} FirstFreeIsLeast(lo: int, hi: int, reserved: set<int>)
    ensures match FirstFree(lo, hi, reserved)
            case Some(x) => lo <= x < hi && x !in reserved && forall y :: lo <= y < x ==> y in reserved
            case None => forall y :: lo <= y < hi ==> y in reserved
    decreases hi - lo
  {
    if lo < hi && lo in reserved {
      FirstFreeIsLeast(lo + 1, hi, reserved);
    }
  }

  /** An address is chosen exactly when it is the least unreserved host from the start of the search on. */
  lemma {:induction false} AllocationIsExact(
      net: Network, server: Option<int>, local: set<int>, remote: seq<int>, x: int)
    ensures Allocate(net, server, local, remote) == Some(x)
            <==> && net.IsHost(x) && SearchFrom(net, remote) <= x && Some(x) != server
                 && x !in local && x !in remote
                 && forall y :: SearchFrom(net, remote) <= y < x
                                ==> y in local || y in remote || Some(y) == server
  {
    FirstFreeIsLeast(SearchFrom(net, remote), net.HostsTo(), Reserved(net, server, local, remote));
    var from := SearchFrom(net, remote);
    assert from >= net.HostsFrom();
    forall y | from <= y < net.HostsTo()
      ensures y in Reserved(net, server, local, remote) <==> y in local || y in remote || Some(y) == server
    {
      assert net.Contains(y);
    }
  }

  /** It fails exactly when every host from the start of the search on is taken. */
  lemma {:induction false} FailureIsExact(net: Network, server: Option<int>, local: set<int>, remote: seq<int>)
    ensures Allocate(net, server, local, remote) == None
            <==> forall y :: net.IsHost(y) && SearchFrom(net, remote) <= y
                             ==> y in local || y in remote || Some(y) == server
  {
    FirstFreeIsLeast(SearchFrom(net, remote), net.HostsTo(), Reserved(net, server, local, remote));
    forall y | net.IsHost(y)
      ensures y in Reserved(net, server, local, remote) <==> y in local || y in remote || Some(y) == server
    {
      assert net.Contains(y);
    }
  }

  predicate IsFree(net: Network, server: Option<int>, local: set<int>, remote: seq<int>, y: int) {
    net.IsHost(y) && y !in local && y !in remote && Some(y) != server
  }

  /** It fails although a host is free exactly when the highest remote address is a host and every free host is
      below it: those hosts are never used again. */
  lemma {:induction false} FailsDespiteRoomExactly(net: Network, server: Option<int>, local: set<int>, remote: seq<int>)
    requires exists y :: IsFree(net, server, local, remote, y)
    ensures Allocate(net, server, local, remote) == None
            <==> && Highest(net, remote).Some? && net.IsHost(Highest(net, remote).value)
                 && forall y :: IsFree(net, server, local, remote, y) ==> y < Highest(net, remote).value
  {
    hide Allocate, Reserved;
    FailureIsExact(net, server, local, remote);
    var some :| IsFree(net, server, local, remote, some);
    var from, top := SearchFrom(net, remote), Highest(net, remote);
    if Allocate(net, server, local, remote) == None {
      forall y | IsFree(net, server, local, remote, y) ensures y < from {
      }
    } else {
      var y :| net.IsHost(y) && from <= y && !(y in local || y in remote || Some(y) == server);
      assert IsFree(net, server, local, remote, y);
    }
  }

  /** It happens: in a network of two hosts whose upper one is taken remotely, the lower one is free and never tried. */
  lemma {:induction false} LowHostIsNeverTried()
    ensures var net := Network(8, 4);
            IsFree(net, None, {}, [10], 9) && Allocate(net, None, {}, [10]) == None
  {
    var net := Network(8, 4);
    assert [10][..0] == [];
    assert Highest(net, [10]) == Some(10);
    FailureIsExact(net, None, {}, [10]);
  }

  function Interval(lo: int, hi: int): (r: set<int>)
    ensures forall x :: x in r <==> lo <= x < hi
    decreases hi - lo
  {
    if lo >= hi then {} else {lo} + Interval(lo + 1, hi)
  }

  lemma {:induction false} IntervalSize(lo: int, hi: int)
    requires lo <= hi
    ensures |Interval(lo, hi)| == hi - lo
    decreases hi - lo
  {
    if lo < hi {
      IntervalSize(lo + 1, hi);
    }
  }

  /** Pigeonhole: without a remote list, fewer reserved hosts than hosts means success. */
  lemma {:induction false} RoomMeansSuccess(net: Network, server: Option<int>, local: set<int>)
    requires |set ip | ip in Reserved(net, server, local, []) && net.IsHost(ip)| < net.HostsTo() - net.HostsFrom()
    ensures Allocate(net, server, local, []).Some?
  {
    var taken := set ip | ip in Reserved(net, server, local, []) && net.IsHost(ip);
    var hosts := Interval(net.HostsFrom(), net.HostsTo());
    IntervalSize(net.HostsFrom(), net.HostsTo());
    FirstFreeIsLeast(net.HostsFrom(), net.HostsTo(), Reserved(net, server, local, []));
    if hosts <= taken {
      SizeOfSubset(hosts, taken);
      assert false;
    }
  }
}
