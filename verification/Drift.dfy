/** Comparing the active devices of a server with the peers that were observed on it: the drift report and the
    simpler inventory comparison. */
module Drift {
  import opened Basics
  import Text

  datatype Row = Row(id: nat, key: string, ip: string)
  datatype RemotePeer = RemotePeer(key: string, allowedIps: string)

  /** Two tuples of addresses are equal once sorted exactly when they have the same elements equally often. */
  type Addresses = multiset<string>

  datatype Desired = Desired(expected: Option<bool>, key: Option<string>, allowedIps: Addresses)
  datatype Observed = Observed(present: Option<bool>, key: Option<string>, allowedIps: Addresses, succeeded: bool)
  datatype State = Aligned | MissingRemote | UnexpectedRemote | StaleObservation | ObservationFailed | Unknown
  datatype Subject = Device(id: nat) | Remote(key: string)
  datatype Snapshot = Snapshot(subject: Subject, desired: Desired, observed: Observed, state: State)

  /** When the observation was made, when it is judged, and how old it may be, in microseconds. */
  datatype Clock = Clock(observedAt: int, now: int, staleAfter: int)

  predicate Fresh(c: Clock) {
    c.now - c.observedAt <= c.staleAfter
  }

  // ----- Reading an address list -----

  /** value.split(","), stripped, without the empty ones */
  function Tokens(value: string): Addresses
    decreases |value|
  {
    var first := Text.Strip(Text.Before(value, ','));
    var token: Addresses := if first == "" then multiset{} else multiset{first};
    if ',' in value then token + Tokens(Text.After(value, ',')) else token
  }

  function NormalizeAllowedIps(value: string): Addresses {
    if value == "(none)" then multiset{} else Tokens(value)
  }

  // ----- Classification -----

  function DesiredFromRow(row: Row): Desired {
    Desired(Some(true), Some(row.key), multiset{row.ip + "/32"})
  }

  function ObservedFromRemote(remote: Option<RemotePeer>): Observed {
    match remote
    case None => Observed(Some(false), None, multiset{}, true)
    case Some(p) => Observed(Some(true), Some(p.key), NormalizeAllowedIps(p.allowedIps), true)
  }

  function Classify(subject: Subject, desired: Desired, observed: Observed, c: Clock): Snapshot {
    Snapshot(subject, desired, observed,
             if !observed.succeeded then ObservationFailed
             else if c.now - c.observedAt > c.staleAfter then StaleObservation
             else if desired.expected.None? || observed.present.None? then Unknown
             else if desired.expected.value && !observed.present.value then MissingRemote
             else if !desired.expected.value && observed.present.value then UnexpectedRemote
             else if desired.expected.value && observed.present.value
                     && !(desired.key == observed.key && desired.allowedIps == observed.allowedIps)
                then UnexpectedRemote
             else Aligned)
  }

  /** {peer.peer_public_key: peer for peer in peers}: the last peer of a key wins. */
  function ByKey(peers: seq<RemotePeer>): (m: map<string, RemotePeer>)
    ensures forall k :: k in m ==> m[k] in peers && m[k].key == k
    ensures forall p :: p in peers ==> p.key in m
  {
    if peers == [] then map[] else ByKey(peers[..|peers| - 1])[peers[|peers| - 1].key := peers[|peers| - 1]]
  }

  function Keys(rows: seq<Row>): set<string> {
    set r | r in rows :: r.key
  }

  function Find(remote: map<string, RemotePeer>, key: string): Option<RemotePeer> {
    if key in remote then Some(remote[key]) else None
  }

  function RowSnapshot(row: Row, remote: map<string, RemotePeer>, c: Clock): Snapshot {
    Classify(Device(row.id), DesiredFromRow(row), ObservedFromRemote(Find(remote, row.key)), c)
  }

  function StraySnapshot(peer: RemotePeer, c: Clock): Snapshot {
    Classify(Remote(peer.key), Desired(Some(false), None, multiset{}), ObservedFromRemote(Some(peer)), c)
  }

  /** The peers without a local row, in order. */
  function Strays(peers: seq<RemotePeer>, keys: set<string>): (r: seq<RemotePeer>)
    ensures forall p :: p in r <==> p in peers && p.key !in keys
  {
    if peers == [] then []
    else
      var last := peers[|peers| - 1];
      Strays(peers[..|peers| - 1], keys) + (if last.key in keys then [] else [last])
  }

  /** The report row by row. */
  function RowReport(rows: seq<Row>, remote: map<string, RemotePeer>, c: Clock): seq<Snapshot> {
    if rows == [] then []
    else RowReport(rows[..|rows| - 1], remote, c) + [RowSnapshot(rows[|rows| - 1], remote, c)]
  }

  function StrayReport(strays: seq<RemotePeer>, c: Clock): seq<Snapshot> {
    if strays == [] then []
    else StrayReport(strays[..|strays| - 1], c) + [StraySnapshot(strays[|strays| - 1], c)]
  }

  function Report(rows: seq<Row>, peers: seq<RemotePeer>, c: Clock): seq<Snapshot> {
    RowReport(rows, ByKey(peers), c) + StrayReport(Strays(peers, Keys(rows)), c)
  }

  // ----- The drift report -----

  lemma ByKeyStep(peers: seq<RemotePeer>, i: nat)
    requires i < |peers|
    ensures ByKey(peers[..i + 1]) == ByKey(peers[..i])[peers[i].key := peers[i]]
  {
    assert peers[..i + 1][..i] == peers[..i];
  }

  lemma RowStep(rows: seq<Row>, i: nat, remote: map<string, RemotePeer>, c: Clock)
    requires i < |rows|
    ensures RowReport(rows[..i + 1], remote, c) == RowReport(rows[..i], remote, c) + [RowSnapshot(rows[i], remote, c)]
  {
    hide RowSnapshot;
    assert rows[..i + 1][..i] == rows[..i];
  }

  lemma StrayStep(peers: seq<RemotePeer>, i: nat, keys: set<string>, c: Clock)
    requires i < |peers|
    ensures StrayReport(Strays(peers[..i + 1], keys), c)
         == StrayReport(Strays(peers[..i], keys), c)
            + (if peers[i].key in keys then [] else [StraySnapshot(peers[i], c)])
  {
    hide StraySnapshot;
    assert peers[..i + 1][..i] == peers[..i];
    var strays := Strays(peers[..i], keys);
    assert (strays + [peers[i]])[..|strays|] == strays && strays + [] == strays;
  }

  method DiagnoseInventory(rows: seq<Row>, peers: seq<RemotePeer>, c: Clock) returns (snapshots: seq<Snapshot>)
    ensures snapshots == Report(rows, peers, c)
  {
    hide RowReport, StrayReport, ByKey, Strays;
    var remote := IndexByKey(peers);
    var keys := set r | r in rows :: r.key;
    snapshots := RowSnapshots(rows, remote, c);
    var strays := StraySnapshots(peers, keys, c);
    snapshots := snapshots + strays;
  }

  method IndexByKey(peers: seq<RemotePeer>) returns (remote: map<string, RemotePeer>)
    ensures remote == ByKey(peers)
  {
    remote := map[];
    for i := 0 to |peers|
      invariant remote == ByKey(peers[..i])
    {
      ByKeyStep(peers, i);
      remote := remote[peers[i].key := peers[i]];
    }
    assert peers[..|peers|] == peers;
  }

  method StraySnapshots(peers: seq<RemotePeer>, keys: set<string>, c: Clock) returns (snapshots: seq<Snapshot>)
    ensures snapshots == StrayReport(Strays(peers, keys), c)
  {
    hide StraySnapshot;
    snapshots := [];
    for i := 0 to |peers|
      invariant snapshots == StrayReport(Strays(peers[..i], keys), c)
    {
      StrayStep(peers, i, keys, c);
      if peers[i].key in keys {
        continue;
      }
      snapshots := snapshots + [StraySnapshot(peers[i], c)];
    }
    assert peers[..|peers|] == peers;
  }

  method RowSnapshots(rows: seq<Row>, remote: map<string, RemotePeer>, c: Clock) returns (snapshots: seq<Snapshot>)
    ensures snapshots == RowReport(rows, remote, c)
  {
    hide RowSnapshot;
    snapshots := [];
    for i := 0 to |rows|
      invariant snapshots == RowReport(rows[..i], remote, c)
    {
      RowStep(rows, i, remote, c);
      snapshots := snapshots + [RowSnapshot(rows[i], remote, c)];
    }
    assert rows[..|rows|] == rows;
  }

  /** The report of a server. A failed collection says so for every device, and nothing else. */
  method DiagnoseServer(rows: seq<Row>, collected: Option<seq<RemotePeer>>, c: Clock) returns (snapshots: seq<Snapshot>)
    ensures collected.Some? ==> snapshots == Report(rows, collected.value, c)
    ensures collected.None? ==>
      && |snapshots| == |rows|
      && forall i :: 0 <= i < |rows| ==>
           snapshots[i].subject == Device(rows[i].id) && snapshots[i].state == ObservationFailed
  {
    if collected.Some? {
      snapshots := DiagnoseInventory(rows, collected.value, c);
      return;
    }
    snapshots := [];
    for i := 0 to |rows|
      invariant |snapshots| == i
      invariant forall j :: 0 <= j < i ==>
        snapshots[j].subject == Device(rows[j].id) && snapshots[j].state == ObservationFailed
    {
      snapshots := snapshots + [Classify(Device(rows[i].id), DesiredFromRow(rows[i]),
                                         Observed(None, None, multiset{}, false), c)];
    }
  }

  // ----- The inventory comparison -----

  datatype Inventory = Inventory(known: seq<RemotePeer>, unknown: seq<RemotePeer>, missing: seq<Row>)

  function KnownPeers(peers: seq<RemotePeer>, keys: set<string>): seq<RemotePeer> {
    if peers == [] then []
    else
      var last := peers[|peers| - 1];
      KnownPeers(peers[..|peers| - 1], keys) + (if last.key in keys then [last] else [])
  }

  function MissingRows(rows: seq<Row>, remote: map<string, RemotePeer>): (r: seq<Row>)
    ensures forall row :: row in r <==> row in rows && row.key !in remote
  {
    if rows == [] then []
    else
      var last := rows[|rows| - 1];
      MissingRows(rows[..|rows| - 1], remote) + (if last.key in remote then [] else [last])
  }

  /** Compares by key alone. Rows of a server have different keys. */
  function Compare(rows: seq<Row>, peers: seq<RemotePeer>): Inventory
    requires DistinctKeys(rows)
  {
    Inventory(KnownPeers(peers, Keys(rows)), Strays(peers, Keys(rows)), MissingRows(rows, ByKey(peers)))
  }

  ghost predicate DistinctKeys(rows: seq<Row>) {
    forall i, j :: 0 <= i < j < |rows| ==> rows[i].key != rows[j].key
  }

  lemma OneMorePeer(peers: seq<RemotePeer>, last: RemotePeer, keys: set<string>)
    ensures KnownPeers(peers + [last], keys) == KnownPeers(peers, keys) + (if last.key in keys then [last] else [])
    ensures Strays(peers + [last], keys) == Strays(peers, keys) + (if last.key in keys then [] else [last])
  {
    assert (peers + [last])[..|peers|] == peers;
  }

  /** The comparison forgets no peer and counts none twice. */
  lemma {:induction false} ComparePartitions(peers: seq<RemotePeer>, keys: set<string>)
    ensures multiset(KnownPeers(peers, keys)) + multiset(Strays(peers, keys)) == multiset(peers)
  {
    if peers != [] {
      var init, last := peers[..|peers| - 1], peers[|peers| - 1];
      ComparePartitions(init, keys);
      assert peers == init + [last];
      OneMorePeer(init, last, keys);
      CountOneMore(KnownPeers(init, keys), Strays(init, keys), init, last, last.key in keys);
    }
  }

  lemma CountOneMore<T>(a: seq<T>, b: seq<T>, all: seq<T>, last: T, first: bool)
    requires multiset(a) + multiset(b) == multiset(all)
    ensures multiset(a + (if first then [last] else [])) + multiset(b + (if first then [] else [last]))
            == multiset(all + [last])
  {
  }

  // ----- Completeness -----

  function DesiredMap(rows: seq<Row>): map<string, Addresses>
    requires DistinctKeys(rows)
  {
    map r | r in rows :: r.key := multiset{r.ip + "/32"}
  }

  function ObservedMap(peers: seq<RemotePeer>): map<string, Addresses> {
    map k | k in ByKey(peers) :: NormalizeAllowedIps(ByKey(peers)[k].allowedIps)
  }

  predicate AllAligned(snapshots: seq<Snapshot>) {
    forall s :: s in snapshots ==> s.state == Aligned
  }

  lemma {:induction false} InRowReport(rows: seq<Row>, remote: map<string, RemotePeer>, c: Clock)
    ensures forall s :: s in RowReport(rows, remote, c) <==> exists r :: r in rows && s == RowSnapshot(r, remote, c)
  {
    hide RowSnapshot;
    if rows != [] {
      var init, last := rows[..|rows| - 1], rows[|rows| - 1];
      InRowReport(init, remote, c);
      assert rows == init + [last];
      forall s ensures s in RowReport(rows, remote, c) <==> exists r :: r in rows && s == RowSnapshot(r, remote, c) {
        assert s in RowReport(rows, remote, c)
               <==> s in RowReport(init, remote, c) || s == RowSnapshot(last, remote, c);
      }
    }
  }

  lemma {:induction false} InStrayReport(strays: seq<RemotePeer>, c: Clock)
    ensures forall s :: s in StrayReport(strays, c) <==> exists p :: p in strays && s == StraySnapshot(p, c)
  {
    hide StraySnapshot;
    if strays != [] {
      var init, last := strays[..|strays| - 1], strays[|strays| - 1];
      InStrayReport(init, c);
      assert strays == init + [last];
      forall s ensures s in StrayReport(strays, c) <==> exists p :: p in strays && s == StraySnapshot(p, c) {
        assert s in StrayReport(strays, c) <==> s in StrayReport(init, c) || s == StraySnapshot(last, c);
      }
    }
  }

  lemma InReport(rows: seq<Row>, peers: seq<RemotePeer>, c: Clock)
    ensures forall s :: s in Report(rows, peers, c)
              <==> (exists r :: r in rows && s == RowSnapshot(r, ByKey(peers), c))
                   || exists p :: p in peers && p.key !in Keys(rows) && s == StraySnapshot(p, c)
  {
    hide RowSnapshot, StraySnapshot, RowReport, StrayReport;
    InRowReport(rows, ByKey(peers), c);
    InStrayReport(Strays(peers, Keys(rows)), c);
  }

  predicate Matches(row: Row, peers: seq<RemotePeer>) {
    row.key in ByKey(peers) && NormalizeAllowedIps(ByKey(peers)[row.key].allowedIps) == multiset{row.ip + "/32"}
  }

  lemma RowState(row: Row, peers: seq<RemotePeer>, c: Clock)
    ensures var s := RowSnapshot(row, ByKey(peers), c);
      && s.subject == Device(row.id) && s.desired == DesiredFromRow(row)
      && (s.state == Aligned <==> Fresh(c) && Matches(row, peers))
      && (s.state == MissingRemote <==> Fresh(c) && row.key !in ByKey(peers))
  {
    hide ByKey, NormalizeAllowedIps;
  }

  lemma StrayState(peer: RemotePeer, c: Clock)
    ensures StraySnapshot(peer, c).subject == Remote(peer.key)
    ensures StraySnapshot(peer, c).state == if Fresh(c) then UnexpectedRemote else StaleObservation
  {
    hide NormalizeAllowedIps;
  }

  lemma AllAlignedRows(rows: seq<Row>, peers: seq<RemotePeer>, c: Clock)
    ensures AllAligned(Report(rows, peers, c))
            <==> && (forall r :: r in rows ==> Fresh(c) && Matches(r, peers))
                 && forall p :: p in peers ==> p.key in Keys(rows)
  {
    hide Report, RowSnapshot, StraySnapshot, Matches, Fresh, Keys;
    InReport(rows, peers, c);
    forall r | r in rows ensures RowSnapshot(r, ByKey(peers), c) in Report(rows, peers, c)
                                 && (RowSnapshot(r, ByKey(peers), c).state == Aligned
                                     <==> Fresh(c) && Matches(r, peers))
    {
      RowState(r, peers, c);
    }
    forall p | p in peers ensures StraySnapshot(p, c).state != Aligned {
      StrayState(p, c);
    }
    forall p | p in peers && p.key !in Keys(rows) ensures StraySnapshot(p, c) in Report(rows, peers, c) {
    }
  }

  lemma DesiredIs(rows: seq<Row>)
    requires DistinctKeys(rows)
    ensures DesiredMap(rows).Keys == Keys(rows)
    ensures forall r :: r in rows ==> DesiredMap(rows)[r.key] == multiset{r.ip + "/32"}
  {
    assert forall k :: k in DesiredMap(rows) <==> k in Keys(rows);
  }

  lemma AgreementByRows(rows: seq<Row>, peers: seq<RemotePeer>)
    requires DistinctKeys(rows)
    ensures DesiredMap(rows) == ObservedMap(peers)
            <==> (forall r :: r in rows ==> Matches(r, peers)) && forall p :: p in peers ==> p.key in Keys(rows)
  {
    hide ByKey, NormalizeAllowedIps, DesiredMap;
    DesiredIs(rows);
    var d, o := DesiredMap(rows), ObservedMap(peers);
    assert o.Keys == ByKey(peers).Keys;
    if d == o {
      forall r | r in rows ensures Matches(r, peers) {
        assert r.key in Keys(rows);
      }
    }
    if (forall r :: r in rows ==> Matches(r, peers)) && forall p :: p in peers ==> p.key in Keys(rows) {
      RowsCover(rows, peers);
    }
  }

  lemma RowsCover(rows: seq<Row>, peers: seq<RemotePeer>)
    requires DistinctKeys(rows) && (forall r :: r in rows ==> Matches(r, peers))
    requires forall p :: p in peers ==> p.key in Keys(rows)
    ensures DesiredMap(rows) == ObservedMap(peers)
  {
    hide ByKey, NormalizeAllowedIps, DesiredMap;
    DesiredIs(rows);
    var d, o := DesiredMap(rows), ObservedMap(peers);
    assert o.Keys == ByKey(peers).Keys;
    forall k ensures k in d <==> k in o {
    }
    forall k | k in d ensures d[k] == o[k] {
      var r :| r in rows && r.key == k;
      assert Matches(r, peers);
    }
  }

  /** Everything is aligned exactly when the desired peers and the observed ones are the same, with the same addresses;
      an observation that is too old aligns nothing. */
  lemma {:induction false} AlignedIsAgreement(rows: seq<Row>, peers: seq<RemotePeer>, c: Clock)
    requires DistinctKeys(rows)
    ensures AllAligned(Report(rows, peers, c))
            <==> DesiredMap(rows) == ObservedMap(peers) && (Fresh(c) || rows == [])
  {
    hide Report, AllAligned, Matches, Fresh, Keys, DesiredMap, ObservedMap;
    AllAlignedRows(rows, peers, c);
    AgreementByRows(rows, peers);
    assert rows != [] ==> rows[0] in rows;
  }

  /** With a fresh observation, the drift report and the inventory comparison name the same missing devices and the
      same unknown peers. */
  lemma {:induction false} ReportAgreesWithCompare(rows: seq<Row>, peers: seq<RemotePeer>, c: Clock)
    requires DistinctKeys(rows) && Fresh(c)
    ensures forall r :: r in Compare(rows, peers).missing
              <==> r in rows && RowSnapshot(r, ByKey(peers), c) in Report(rows, peers, c)
                   && RowSnapshot(r, ByKey(peers), c).state == MissingRemote
    ensures forall k :: (exists p :: p in Compare(rows, peers).unknown && p.key == k)
              <==> exists s :: s in Report(rows, peers, c) && s.subject == Remote(k)
    ensures forall s :: s in Report(rows, peers, c) && s.subject.Remote? ==> s.state == UnexpectedRemote
  {
    hide Report, RowSnapshot, StraySnapshot, Keys, ByKey, Strays, MissingRows, KnownPeers;
    InReport(rows, peers, c);
    forall r ensures RowSnapshot(r, ByKey(peers), c).subject == Device(r.id)
                     && (RowSnapshot(r, ByKey(peers), c).state == MissingRemote <==> r.key !in ByKey(peers)) {
      RowState(r, peers, c);
    }
    forall p ensures StraySnapshot(p, c).subject == Remote(p.key) && StraySnapshot(p, c).state == UnexpectedRemote {
      StrayState(p, c);
    }
    forall k ensures (exists p :: p in Compare(rows, peers).unknown && p.key == k)
                     <==> exists s :: s in Report(rows, peers, c) && s.subject == Remote(k)
    {
      forall p | p in Compare(rows, peers).unknown && p.key == k
        ensures StraySnapshot(p, c) in Report(rows, peers, c) && StraySnapshot(p, c).subject == Remote(k)
      {
      }
    }
  }

  // ----- Reading a printed list -----

  predicate IsToken(s: string) {
    s != "" && ',' !in s && Text.Unpadded(s)
  }

  /** ", ".join(xs) */
  function Listed(xs: seq<string>): string {
    if |xs| == 0 then "" else if |xs| == 1 then xs[0] else xs[0] + [','] + (" " + Listed(xs[1..]))
  }

  lemma PaddedToken(x: string)
    requires IsToken(x)
    ensures Text.Strip(x) == x && Text.Strip(" " + x) == x
  {
    hide Text.IsSpace;
    Text.StripOfUnpadded(x);
    BlankIsSpace();
    assert (" " + x)[1..] == x;
    assert Text.LStrip(" " + x) == Text.LStrip(x);
  }

  lemma BlankIsSpace()
    ensures Text.IsSpace(' ')
  {
  }

  lemma LastToken(first: string, pad: string)
    requires IsToken(first) && pad in {"", " "}
    ensures Tokens(pad + first) == multiset{first}
  {
    hide IsToken, Text.Strip;
    TokenIsPlain(first, pad);
    PaddedToken(first);
    assert "" + first == first;
  }

  lemma NextToken(first: string, pad: string, rest: string)
    requires IsToken(first) && pad in {"", " "}
    ensures Tokens(pad + first + [','] + rest) == multiset{first} + Tokens(rest)
  {
    hide IsToken, Text.Strip;
    TokenIsPlain(first, pad);
    PaddedToken(first);
    assert "" + first == first;
    var value := pad + first + [','] + rest;
    Text.BeforeIs(pad + first, ',', rest);
    assert value[|pad + first|] == ',';
  }

  lemma {:induction false} TokensOfListed(xs: seq<string>, pad: string)
    requires xs != [] && (forall x :: x in xs ==> IsToken(x)) && pad in {"", " "}
    ensures Tokens(pad + Listed(xs)) == multiset(xs)
  {
    hide IsToken, Tokens;
    var first, rest := xs[0], xs[1..];
    assert first in xs && xs == [first] + rest;
    if rest == [] {
      LastToken(first, pad);
      assert multiset(xs) == multiset{first};
    } else {
      TokensOfListed(rest, " ");
      NextToken(first, pad, " " + Listed(rest));
      assert pad + Listed(xs) == pad + first + [','] + (" " + Listed(rest));
    }
  }

  lemma TokenIsPlain(x: string, pad: string)
    requires IsToken(x) && pad in {"", " "}
    ensures x != "" && ',' !in pad + x
  {
  }

  /** A printed list is read back, with the same addresses equally often; the text "(none)" is the empty list. */
  lemma {:induction false} ListedIsReadBack(xs: seq<string>)
    requires (forall x :: x in xs ==> IsToken(x)) && Listed(xs) != "(none)"
    ensures NormalizeAllowedIps(Listed(xs)) == multiset(xs) && NormalizeAllowedIps("(none)") == multiset{}
  {
    if xs == [] {
      Text.StripOfUnpadded("");
      assert Text.Before("", ',') == "";
    } else {
      TokensOfListed(xs, "");
      assert "" + Listed(xs) == Listed(xs);
    }
  }

  // ----- The classification, case by case -----

  /** Which state a snapshot gets: the first of these that holds. */
  lemma {:induction false} ClassifiedExactly(subject: Subject, d: Desired, o: Observed, c: Clock)
    ensures var s := Classify(subject, d, o, c);
      && (s.state == ObservationFailed <==> !o.succeeded)
      && (s.state == StaleObservation <==> o.succeeded && c.now - c.observedAt > c.staleAfter)
      && (s.state == Unknown
          <==> o.succeeded && c.now - c.observedAt <= c.staleAfter && (d.expected == None || o.present == None))
      && (s.state == MissingRemote
          <==> && o.succeeded && c.now - c.observedAt <= c.staleAfter
               && d.expected == Some(true) && o.present == Some(false))
      && (s.state == UnexpectedRemote
          <==> && o.succeeded && c.now - c.observedAt <= c.staleAfter && o.present == Some(true)
               && (d.expected == Some(false)
                   || (d.expected == Some(true) && (d.key != o.key || d.allowedIps != o.allowedIps))))
      && s.subject == subject && s.desired == d && s.observed == o
  {
  }

  /** Of several peers with one key the last one counts. */
  lemma {:induction false} LastOfKeyCounts(peers: seq<RemotePeer>, i: nat)
    requires i < |peers| && forall j :: i < j < |peers| ==> peers[j].key != peers[i].key
    ensures peers[i].key in ByKey(peers) && ByKey(peers)[peers[i].key] == peers[i]
  {
    hide ByKey;
    var n := |peers| - 1;
    ByKeyNext(peers[..n], peers[n]);
    assert peers == peers[..n] + [peers[n]];
    if i < n {
      LastOfKeyCounts(peers[..n], i);
    }
  }

  lemma ByKeyNext(peers: seq<RemotePeer>, last: RemotePeer)
    ensures ByKey(peers + [last]) == ByKey(peers)[last.key := last]
  {
    assert (peers + [last])[..|peers|] == peers;
  }
}
