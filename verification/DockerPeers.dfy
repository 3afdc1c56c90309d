/** Allocating addresses against the peers of a docker configuration text, and editing that text: over any run the
    addresses in it stay different, and the check of the interface's network keeps its answer. */
module DockerPeers {
  import opened Basics
  import opened InterfaceNetwork
  import opened PeerConfig
  import Allocation
  import Text

  /** How addresses and networks are read and written. The formats themselves are parameters. */
  datatype Notation = Notation(
    parse: string -> Option<int>, show: int -> string, network: string -> Option<Allocation.Network>)

  /** Reading undoes writing for every IPv4 address, and a written one is a plain token. */
  ghost predicate Faithful(n: Notation) {
    forall ip :: 0 <= ip < 0x1_0000_0000 ==>
                 n.parse(n.show(ip) + "/32") == Some(ip)
                 && Text.BreakFree(n.show(ip)) && ',' !in n.show(ip)
                 && Text.Unpadded(n.show(ip) + "/32")
  }

  ghost predicate CleanKeys(publicKey: string, presharedKey: string) {
    Text.BreakFree(publicKey) && Text.Unpadded(publicKey) && Text.BreakFree(presharedKey)
  }

  function AddressesOf(es: seq<Entry>): seq<string> {
    if es == [] then []
    else AddressesOf(es[..|es| - 1]) + (if es[|es| - 1].allowedIp.Some? then [es[|es| - 1].allowedIp.value] else [])
  }

  /** The first address of every peer in the text. */
  function Addresses(text: string): seq<string> {
    AddressesOf(Entries(text))
  }

  /** All addresses can be read, and no two are the same. */
  ghost predicate Distinct(ips: seq<string>, parse: string -> Option<int>) {
    && (forall i :: 0 <= i < |ips| ==> parse(ips[i]).Some?)
    && (forall i, j :: 0 <= i < j < |ips| ==> parse(ips[i]) != parse(ips[j]))
  }

  lemma {:induction false} AddressesOfBlocks(bs: seq<Block>)
    ensures AddressesOf(EntriesOf(bs)) == AllowedIps(bs)
  {
    hide IsPeerBlock, FirstAllowedIp, PublicKey, Chunk;
    if bs != [] {
      var init, last := bs[..|bs| - 1], bs[|bs| - 1];
      AddressesOfBlocks(init);
      if IsPeerBlock(last) {
        AddressesAppend(EntriesOf(init), EntryOf(last));
      } else {
        assert EntriesOf(init) + [] == EntriesOf(init) && AllowedIps(init) + [] == AllowedIps(init);
      }
    }
  }

  lemma AddressesAppend(es: seq<Entry>, e: Entry)
    ensures AddressesOf(es + [e]) == AddressesOf(es) + (if e.allowedIp.Some? then [e.allowedIp.value] else [])
  {
    assert (es + [e])[..|es|] == es;
  }

  lemma {:induction false} WithoutKeepsDistinct(es: seq<Entry>, key: string, parse: string -> Option<int>)
    requires Distinct(AddressesOf(es), parse)
    ensures Distinct(AddressesOf(Without(es, key)), parse)
    ensures forall ip :: ip in AddressesOf(Without(es, key)) ==> ip in AddressesOf(es)
  {
    if es != [] {
      var init, last := es[..|es| - 1], es[|es| - 1];
      var all := AddressesOf(es);
      assert AddressesOf(init) == all[..|AddressesOf(init)|];
      WithoutKeepsDistinct(init, key, parse);
      if last.key == Some(key) {
        assert Without(es, key) == Without(init, key);
      } else {
        AddressesAppend(Without(init, key), last);
        if last.allowedIp.Some? {
          assert all == AddressesOf(init) + [last.allowedIp.value];
          LastIsNew(AddressesOf(init), last.allowedIp.value, parse);
          AppendDistinct(AddressesOf(Without(init, key)), last.allowedIp.value, parse);
        }
      }
    }
  }

  lemma LastIsNew(ips: seq<string>, ip: string, parse: string -> Option<int>)
    requires Distinct(ips + [ip], parse)
    ensures parse(ip).Some? && forall x :: x in ips ==> parse(x) != parse(ip)
  {
    var all := ips + [ip];
    assert all[|ips|] == ip;
    forall x | x in ips ensures parse(x) != parse(ip) {
      var i :| 0 <= i < |ips| && ips[i] == x;
      assert all[i] == x;
    }
  }

  lemma AppendDistinct(ips: seq<string>, ip: string, parse: string -> Option<int>)
    requires Distinct(ips, parse) && parse(ip).Some? && forall x :: x in ips ==> parse(x) != parse(ip)
    ensures Distinct(ips + [ip], parse)
  {
  }

  // ----- Editing -----

  datatype Edit =
    | Add(publicKey: string, presharedKey: string, net: Allocation.Network, server: Option<int>, local: set<int>)
    | Drop(key: string)

  /** _parse_allocated_ip on each; the addresses were checked when they were listed. */
  function ParseAll(ips: seq<string>, parse: string -> Option<int>): (r: seq<int>)
    requires forall ip :: ip in ips ==> parse(ip).Some?
    ensures |r| == |ips| && forall i :: 0 <= i < |ips| ==> parse(ips[i]) == Some(r[i])
  {
    seq(|ips|, i requires 0 <= i < |ips| => parse(ips[i]).value)
  }

  /** An edit that fails leaves the text as it is. */
  function Edited(text: string, e: Edit, n: Notation): string {
    match e
    case Drop(key) => Removed(text, key)
    case Add(publicKey, presharedKey, net, server, local) =>
      var ips := AllowedIps(Split(text));
      if exists ip :: ip in ips && n.parse(ip).None? then text
      else
        match Allocation.Allocate(net, server, local, ParseAll(ips, n.parse))
        case None => text
        case Some(ip) =>
          if NetworkMatches(text, net, n) then Upserted(text, PeerInput(publicKey, presharedKey, n.show(ip))) else text
  }

  /** The first check before an apply; the second one, that the address is in the network, cannot fail after an
      allocation from that network. */
  predicate NetworkMatches(text: string, net: Allocation.Network, n: Notation) {
    InterfaceAddress(text).Some? && n.network(InterfaceAddress(text).value) == Some(net)
  }

  method ParseEach(ips: seq<string>, parse: string -> Option<int>) returns (remote: seq<int>)
    requires forall ip :: ip in ips ==> parse(ip).Some?
    ensures remote == ParseAll(ips, parse)
  {
    remote := [];
    for i := 0 to |ips|
      invariant |remote| == i && forall j :: 0 <= j < i ==> parse(ips[j]) == Some(remote[j])
    {
      remote := remote + [parse(ips[i]).value];
    }
  }

  method ApplyEdit(text: string, e: Edit, n: Notation) returns (next: string)
    ensures next == Edited(text, e, n)
  {
    hide Removed, Upserted, Split, AllowedIps, Allocation.Allocate, ParseAll, InterfaceAddress;
    match e
    case Drop(key) =>
      var removed;
      next, removed := RemovePeerBlock(text, key);
    case Add(publicKey, presharedKey, net, server, local) =>
      var isInterface := s => n.parse(s).Some?;
      var ips := DockerConfigPeerAllowedIps(text, isInterface);
      if ips.None? {
        assert exists ip :: ip in AllowedIps(Split(text)) && !isInterface(ip);
        return text;
      }
      assert forall ip :: ip in ips.value ==> isInterface(ip);
      var remote := ParseEach(ips.value, n.parse);
      var ip := Allocation.AllocateVpnIp(net, server, local, remote);
      if ip.None? {
        return text;
      }
      var address := DockerConfigInterfaceAddress(text);
      if address.None? || n.network(address.value) != Some(net) {
        return text;
      }
      Allocation.AllocationIsExact(net, server, local, remote, ip.value);
      assert net.Contains(ip.value);
      next := UpsertPeerBlock(text, PeerInput(publicKey, presharedKey, n.show(ip.value)));
  }

  /** Keys without line breaks, and an IPv4 network. */
  ghost predicate CleanEdit(e: Edit) {
    e.Add? ==> CleanKeys(e.publicKey, e.presharedKey) && e.net.base + e.net.size <= 0x1_0000_0000
  }

  lemma {:induction false} EditKeepsDistinct(text: string, e: Edit, n: Notation)
    requires Faithful(n) && CleanEdit(e) && Distinct(Addresses(text), n.parse)
    ensures Distinct(Addresses(Edited(text, e, n)), n.parse)
  {
    hide Removed, Upserted, Split, AllowedIps, Entries, EntriesOf, Without, Allocation.Allocate, Distinct,
      InterfaceAddress;
    match e
    case Drop(key) =>
      RemoveRefinesMap(text, key);
      WithoutKeepsDistinct(Entries(text), key, n.parse);
    case Add(publicKey, presharedKey, net, server, local) =>
      if Edited(text, e, n) != text {
        AddedIsNew(text, e, n);
      }
  }

  lemma AddedIsNew(text: string, e: Edit, n: Notation)
    requires e.Add? && Faithful(n) && CleanEdit(e) && Distinct(Addresses(text), n.parse)
    requires Edited(text, e, n) != text
    ensures Distinct(Addresses(Edited(text, e, n)), n.parse)
  {
    hide Removed, Upserted, Split, AllowedIps, EntriesOf, Without, Allocation.Allocate, Distinct, Text.Unpadded,
      Text.BreakFree, InterfaceAddress;
    var ips := AllowedIps(Split(text));
    AddressesOfBlocks(Split(text));
    var remote := ParseAll(ips, n.parse);
    var ip := Allocation.Allocate(e.net, e.server, e.local, remote).value;
    Allocation.AllocationIsExact(e.net, e.server, e.local, remote, ip);
    var shown := n.show(ip) + "/32";
    var peer := PeerInput(e.publicKey, e.presharedKey, n.show(ip));
    UpsertRefinesMap(text, peer);
    WithoutKeepsDistinct(Entries(text), e.publicKey, n.parse);
    var kept := Without(Entries(text), e.publicKey);
    AddressesAppend(kept, Entries(Upserted(text, peer))[|kept|]);
    forall x | x in AddressesOf(kept) ensures n.parse(x) != n.parse(shown) {
      var i :| 0 <= i < |ips| && ips[i] == x;
      assert remote[i] in remote;
    }
    AppendDistinct(AddressesOf(kept), shown, n.parse);
  }

  function EditedAll(text: string, es: seq<Edit>, n: Notation): string
    decreases |es|
  {
    if es == [] then text else EditedAll(Edited(text, es[0], n), es[1..], n)
  }

  /** Over any run of allocations and removals, failing or not, no two peers come to share an address. */
  lemma {:induction false} RunKeepsDistinct(text: string, es: seq<Edit>, n: Notation)
    requires Faithful(n) && (forall e :: e in es ==> CleanEdit(e)) && Distinct(Addresses(text), n.parse)
    ensures Distinct(Addresses(EditedAll(text, es, n)), n.parse)
    decreases |es|
  {
    hide Edited, Addresses, Distinct, Faithful;
    if es != [] {
      EditKeepsDistinct(text, es[0], n);
      RunKeepsDistinct(Edited(text, es[0], n), es[1..], n);
    }
  }

  lemma {:induction false} EditKeepsNetwork(text: string, e: Edit, n: Notation)
    requires Faithful(n) && CleanEdit(e) && InterfaceFirst(text)
    ensures InterfaceFirst(Edited(text, e, n)) && InterfaceAddress(Edited(text, e, n)) == InterfaceAddress(text)
  {
    hide Removed, Upserted, Split, AllowedIps, Allocation.Allocate, InterfaceFirst, InterfaceAddress, Text.Unpadded,
      Text.BreakFree;
    match e
    case Drop(key) => RemovalKeepsInterface(text, key);
    case Add(publicKey, presharedKey, net, server, local) =>
      if Edited(text, e, n) != text {
        var remote := ParseAll(AllowedIps(Split(text)), n.parse);
        var ip := Allocation.Allocate(net, server, local, remote).value;
        Allocation.AllocationIsExact(net, server, local, remote, ip);
        UpsertKeepsInterface(text, PeerInput(publicKey, presharedKey, n.show(ip)));
      }
  }

  /** With the interface before the first peer, the check of the network gives the same answer all along a run. */
  lemma {:induction false} RunKeepsNetwork(text: string, es: seq<Edit>, n: Notation, net: Allocation.Network)
    requires Faithful(n) && (forall e :: e in es ==> CleanEdit(e)) && InterfaceFirst(text)
    ensures InterfaceFirst(EditedAll(text, es, n))
    ensures NetworkMatches(EditedAll(text, es, n), net, n) <==> NetworkMatches(text, net, n)
    decreases |es|
  {
    hide Edited, InterfaceFirst, InterfaceAddress, Faithful;
    if es != [] {
      EditKeepsNetwork(text, es[0], n);
      RunKeepsNetwork(Edited(text, es[0], n), es[1..], n, net);
    }
  }

  // ----- What one apply does to the peers -----

  /** An apply whose peers cannot all be read, for which no address is left, or whose interface is in another network
      is refused; a good one takes the place of the key's peer, if there is one, and puts the new one last, with an
      address of the network that no peer and no local device has. */
  lemma {:induction false} ApplyExactly(text: string, e: Edit, n: Notation)
    requires e.Add? && Faithful(n) && CleanEdit(e)
    ensures (exists ip :: ip in Addresses(text) && n.parse(ip).None?) ==> Edited(text, e, n) == text
    ensures InterfaceAddress(text).None? || n.network(InterfaceAddress(text).value) != Some(e.net)
            ==> Edited(text, e, n) == text
    ensures Edited(text, e, n) != text ==>
      exists ip: int, peer: Entry ::
        && Entries(Edited(text, e, n)) == Without(Entries(text), e.publicKey) + [peer]
        && peer.key == Some(e.publicKey) && peer.allowedIp == Some(n.show(ip) + "/32")
        && e.net.IsHost(ip) && Some(ip) != e.server && ip !in e.local
        && forall x :: x in Addresses(text) ==> n.parse(x) != Some(ip)
    ensures (forall ip :: ip in Addresses(text) ==> n.parse(ip).Some?)
            && InterfaceAddress(text).Some? && n.network(InterfaceAddress(text).value) == Some(e.net)
            && (exists ip :: IsLeft(text, e, n, ip))
            ==> exists peer :: peer in Entries(Edited(text, e, n)) && peer.key == Some(e.publicKey)
  {
    hide Removed, Upserted, Split, AllowedIps, EntriesOf, Entries, Without, Allocation.Allocate, Text.Unpadded,
      Text.BreakFree, InterfaceAddress, Allocation.SearchFrom;
    var ips := AllowedIps(Split(text));
    SameAddresses(text);
    if forall ip :: ip in ips ==> n.parse(ip).Some? {
      var remote := ParseAll(ips, n.parse);
      var chosen := Allocation.Allocate(e.net, e.server, e.local, remote);
      if chosen.Some? {
        var ip := chosen.value;
        Allocation.AllocationIsExact(e.net, e.server, e.local, remote, ip);
        UpsertRefinesMap(text, PeerInput(e.publicKey, e.presharedKey, n.show(ip)));
        forall x | x in ips ensures n.parse(x) != Some(ip) {
          var i :| 0 <= i < |ips| && ips[i] == x;
          assert remote[i] in remote;
        }
      } else {
        Allocation.FailureIsExact(e.net, e.server, e.local, remote);
        if ip :| IsLeft(text, e, n, ip) {
          forall r | r in remote && e.net.Contains(r) ensures r < ip {
            var i :| 0 <= i < |remote| && remote[i] == r;
            assert ips[i] in Addresses(text);
          }
          SearchIsBelow(e.net, remote, ip);
          forall r | r in remote && r == ip ensures false {
          }
        }
      }
    }
  }

  lemma SearchIsBelow(net: Allocation.Network, remote: seq<int>, ip: int)
    requires net.IsHost(ip) && forall r :: r in remote && net.Contains(r) ==> r < ip
    ensures Allocation.SearchFrom(net, remote) <= ip && net.Contains(ip)
  {
  }

  lemma SameAddresses(text: string)
    ensures Addresses(text) == AllowedIps(Split(text))
  {
    AddressesOfBlocks(Split(text));
  }

  /** A host above every host among the peers' addresses that nothing has taken. */
  ghost predicate IsLeft(text: string, e: Edit, n: Notation, ip: int)
    requires e.Add?
  {
    && e.net.IsHost(ip) && Some(ip) != e.server && ip !in e.local
    && forall x :: x in Addresses(text) && n.parse(x).Some? && e.net.Contains(n.parse(x).value)
                   ==> n.parse(x).value < ip
  }
}
