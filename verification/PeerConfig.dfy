/** The editor of a WireGuard-style configuration text: it cuts the text into
    blocks at every [Peer] header, removes or upserts one peer, and rejoins. */
module PeerConfig {
  import opened Basics
  import opened Text

  type Block = seq<string>

  datatype PeerInput = PeerInput(publicKey: string, presharedKey: string, vpnIp: string)

  // ----- Blocks -----

  predicate IsHeader(line: string) {
    Lower(Strip(line)) == "[peer]"
  }

  predicate IsPeerBlock(b: Block) {
    b != [] && IsHeader(b[0])
  }

  /** What one more line does to the blocks read so far. */
  function AddLine(bs: seq<Block>, line: string): seq<Block> {
    if bs == [] || IsHeader(line) then bs + [[line]]
    else bs[..|bs| - 1] + [bs[|bs| - 1] + [line]]
  }

  function Blocks(lines: seq<string>): (bs: seq<Block>)
    ensures bs == [] <==> lines == []
  {
    if lines == [] then [] else AddLine(Blocks(lines[..|lines| - 1]), lines[|lines| - 1])
  }

  function Split(text: string): seq<Block> {
    Blocks(SplitLines(text))
  }

  method SplitConfigBlocks(text: string) returns (blocks: seq<Block>)
    ensures blocks == Split(text)
  {
    hide IsHeader;
    var lines := SplitLines(text);
    blocks := [];
    var current: Block := [];
    for i := 0 to |lines|
      invariant Blocks(lines[..i]) == blocks + (if current == [] then [] else [current])
      invariant current == [] ==> blocks == []
    {
      assert lines[..i + 1][..i] == lines[..i];
      ghost var before := blocks + (if current == [] then [] else [current]);
      if IsHeader(lines[i]) && current != [] {
        blocks := blocks + [current];
        current := [lines[i]];
        assert AddLine(before, lines[i]) == blocks + [current];
      } else if current == [] {
        current := current + [lines[i]];
        assert before == [] && current == [lines[i]];
      } else {
        assert before[..|before| - 1] == blocks;
        current := current + [lines[i]];
        assert AddLine(before, lines[i]) == blocks + [current];
      }
    }
    assert lines[..|lines|] == lines;
    if current != [] {
      blocks := blocks + [current];
    }
  }

  function Chunk(b: Block): string {
    RStrip(JoinLines(b))
  }

  function Chunks(bs: seq<Block>): seq<string> {
    if bs == [] then [] else (if bs[0] == [] then [] else [Chunk(bs[0])]) + Chunks(bs[1..])
  }

  function Join(bs: seq<Block>): string {
    RStrip(JoinLines(Chunks(bs))) + "\n"
  }

  // ----- The settings of a block -----

  /** The raw value a line gives to a setting; comments and lines without '=' give none. */
  function LineValue(line: string, name: string): Option<string> {
    var s := Strip(line);
    if s == "" || s[0] == '#' || '=' !in s then None
    else if Lower(Strip(Before(s, '='))) == name then Some(After(s, '='))
    else None
  }

  function FirstValue(b: Block, name: string): Option<string> {
    if b == [] then None
    else if LineValue(b[0], name).Some? then LineValue(b[0], name)
    else FirstValue(b[1..], name)
  }

  function PublicKey(b: Block): Option<string> {
    match FirstValue(b, "publickey")
    case None => None
    case Some(v) => Some(Strip(v))
  }

  function FirstAllowedIp(b: Block): Option<string> {
    match FirstValue(b, "allowedips")
    case None => None
    case Some(v) => Some(Strip(Before(v, ',')))
  }

  /** The addresses of all peer blocks, in order; a peer without AllowedIPs adds none. */
  function AllowedIps(bs: seq<Block>): seq<string> {
    if bs == [] then []
    else AllowedIps(bs[..|bs| - 1]) + AddressOf(bs[|bs| - 1])
  }

  function AddressOf(b: Block): seq<string> {
    if !IsPeerBlock(b) then []
    else match FirstAllowedIp(b) { case None => [] case Some(ip) => [ip] }
  }

  method ScanAllowedIp(block: Block) returns (ip: Option<string>)
    ensures ip == FirstAllowedIp(block)
  {
    hide LineValue, Before, Strip;
    ip := None;
    for j := 0 to |block|
      invariant FirstValue(block, "allowedips") == FirstValue(block[j..], "allowedips")
    {
      assert block[j..][1..] == block[j + 1..];
      var value := LineValue(block[j], "allowedips");
      if value.Some? {
        ip := Some(Strip(Before(value.value, ',')));
        return;
      }
    }
  }

  /** Fails on the first address that the given parser rejects. */
  method DockerConfigPeerAllowedIps(text: string, isInterface: string -> bool)
    returns (r: Option<seq<string>>)
    ensures r == if forall ip :: ip in AllowedIps(Split(text)) ==> isInterface(ip)
                 then Some(AllowedIps(Split(text))) else None
  {
    hide Split, IsHeader, FirstAllowedIp;
    var blocks := SplitConfigBlocks(text);
    var ips: seq<string> := [];
    for i := 0 to |blocks|
      invariant ips == AllowedIps(blocks[..i])
      invariant forall ip :: ip in ips ==> isInterface(ip)
    {
      var block := blocks[i];
      assert blocks[..i + 1][..i] == blocks[..i];
      assert AllowedIps(blocks[..i + 1]) == ips + AddressOf(block);
      if IsPeerBlock(block) {
        var ip := ScanAllowedIp(block);
        if ip.Some? {
          if !isInterface(ip.value) {
            AllowedIpsPrefix(blocks, i + 1);
            assert ip.value in AddressOf(block);
            assert ip.value in AllowedIps(blocks[..i + 1]);
            return None;
          }
          ips := ips + [ip.value];
        }
      }
    }
    assert blocks[..|blocks|] == blocks;
    r := Some(ips);
  }

  lemma {:induction false} AllowedIpsPrefix(bs: seq<Block>, n: nat)
    requires n <= |bs|
    ensures AllowedIps(bs[..n]) <= AllowedIps(bs)
  {
    if n < |bs| {
      AllowedIpsPrefix(bs[..|bs| - 1], n);
      assert bs[..|bs| - 1][..n] == bs[..n];
    } else {
      assert bs[..n] == bs;
    }
  }

  // ----- Removing and upserting -----

  predicate Matches(b: Block, key: string) {
    IsPeerBlock(b) && PublicKey(b) == Some(key)
  }

  function Keep(bs: seq<Block>, key: string): seq<Block> {
    if bs == [] then []
    else Keep(bs[..|bs| - 1], key) + (if Matches(bs[|bs| - 1], key) then [] else [bs[|bs| - 1]])
  }

  function Removed(text: string, key: string): string {
    Join(Keep(Split(text), key))
  }

  method RemovePeerBlock(text: string, key: string) returns (next: string, removed: bool)
    ensures next == Removed(text, key)
    ensures removed <==> exists b :: b in Split(text) && Matches(b, key)
  {
    hide Matches, Join;
    var blocks := SplitConfigBlocks(text);
    var kept: seq<Block> := [];
    removed := false;
    for i := 0 to |blocks|
      invariant kept == Keep(blocks[..i], key)
      invariant removed <==> exists b :: b in blocks[..i] && Matches(b, key)
    {
      assert blocks[..i + 1][..i] == blocks[..i];
      assert blocks[..i + 1] == blocks[..i] + [blocks[i]];
      if Matches(blocks[i], key) {
        assert blocks[i] in blocks[..i + 1];
        removed := true;
      } else {
        kept := kept + [blocks[i]];
      }
    }
    assert blocks[..|blocks|] == blocks;
    next := Join(kept);
  }

  function PeerLines(p: PeerInput): Block {
    ["[Peer]",
     "PublicKey = " + p.publicKey,
     "PresharedKey = " + p.presharedKey,
     "AllowedIPs = " + p.vpnIp + "/32"]
  }

  function WithPeer(withoutPeer: string, p: PeerInput): string {
    var prefix := RStrip(withoutPeer);
    (if prefix != "" then prefix + "\n\n" else "")
    + "[Peer]\n"
    + "PublicKey = " + p.publicKey + "\n"
    + "PresharedKey = " + p.presharedKey + "\n"
    + "AllowedIPs = " + p.vpnIp + "/32\n"
  }

  function Upserted(text: string, p: PeerInput): string {
    WithPeer(Removed(text, p.publicKey), p)
  }

  method UpsertPeerBlock(text: string, peer: PeerInput) returns (next: string)
    ensures next == Upserted(text, peer)
  {
    var without, removed := RemovePeerBlock(text, peer.publicKey);
    next := WithPeer(without, peer);
  }

  /** What a peer must look like to be written as single-line settings. */
  predicate CleanPeer(p: PeerInput) {
    && BreakFree(p.publicKey) && Unpadded(p.publicKey)
    && BreakFree(p.presharedKey)
    && BreakFree(p.vpnIp) && Unpadded(p.vpnIp + "/32") && ',' !in p.vpnIp
  }

  // ----- Block structure of a split text -----

  predicate BlockWf(b: Block) {
    && b != []
    && (forall j :: 0 <= j < |b| ==> BreakFree(b[j]))
    && (forall j :: 1 <= j < |b| ==> !IsHeader(b[j]))
  }

  predicate Wf(bs: seq<Block>) {
    && (forall i :: 0 <= i < |bs| ==> BlockWf(bs[i]))
    && (forall i :: 1 <= i < |bs| ==> IsPeerBlock(bs[i]))
  }

  lemma AddLineWf(bs: seq<Block>, line: string)
    requires Wf(bs) && BreakFree(line)
    ensures Wf(AddLine(bs, line))
  {
    hide IsHeader, BreakFree;
    var r := AddLine(bs, line);
    if bs != [] && !IsHeader(line) {
      var last := bs[|bs| - 1];
      assert BlockWf(last);
      assert BlockWf(last + [line]);
    } else {
      assert BlockWf([line]);
    }
  }

  lemma {:induction false} BlocksWf(lines: seq<string>)
    requires forall l :: l in lines ==> BreakFree(l)
    ensures Wf(Blocks(lines))
  {
    hide Wf, AddLine, BreakFree;
    if lines != [] {
      assert forall l :: l in lines[..|lines| - 1] ==> l in lines;
      BlocksWf(lines[..|lines| - 1]);
      AddLineWf(Blocks(lines[..|lines| - 1]), lines[|lines| - 1]);
    } else {
      NoBlocksWf();
    }
  }

  lemma NoBlocksWf()
    ensures Wf([])
  {
  }

  lemma SplitWf(text: string)
    ensures Wf(Split(text))
  {
    BlocksWf(SplitLines(text));
  }

  lemma BlocksSnoc(lines: seq<string>, line: string)
    ensures Blocks(lines + [line]) == AddLine(Blocks(lines), line)
  {
    hide AddLine;
    assert (lines + [line])[..|lines|] == lines;
  }

  lemma {:induction false} BlocksAppend(lines: seq<string>, b: Block)
    requires BlockWf(b) && (lines == [] || IsHeader(b[0]))
    ensures Blocks(lines + b) == Blocks(lines) + [b]
  {
    hide IsHeader, Blocks, BreakFree;
    var n := |b| - 1;
    BlocksSnoc(lines + b[..n], b[n]);
    assert lines + b == (lines + b[..n]) + [b[n]];
    if n == 0 {
      assert lines + b[..0] == lines && b == [b[0]];
    } else {
      BlocksAppend(lines, b[..n]);
      assert b == b[..n] + [b[n]];
    }
  }

  lemma {:induction false} FlattenAppend(bs: seq<Block>, b: Block)
    ensures Flatten(bs + [b]) == Flatten(bs) + b
  {
    if bs != [] {
      assert (bs + [b])[1..] == bs[1..] + [b];
      FlattenAppend(bs[1..], b);
    }
  }

  lemma {:induction false} BlocksOfFlatten(bs: seq<Block>)
    requires Wf(bs)
    ensures Blocks(Flatten(bs)) == bs
  {
    hide IsHeader, BreakFree, AddLine;
    if bs != [] {
      var init, last := bs[..|bs| - 1], bs[|bs| - 1];
      assert bs == init + [last];
      BlocksOfFlatten(init);
      FlattenAppend(init, last);
      BlocksAppend(Flatten(init), last);
    }
  }

  // ----- Trimming: what a chunk keeps of its block -----

  function Trim(b: Block): (r: Block)
    requires b != []
    ensures 1 <= |r| <= |b| && r == b[..|r| - 1] + [RStrip(b[|r| - 1])]
    ensures r[|r| - 1] != "" || |r| == 1
  {
    var n := |b| - 1;
    if RStrip(b[n]) != "" || n == 0 then b[..n] + [RStrip(b[n])] else Trim(b[..n])
  }

  function TrimAll(bs: seq<Block>): (r: seq<Block>)
    requires Wf(bs)
    ensures |r| == |bs| && forall i :: 0 <= i < |bs| ==> r[i] == Trim(bs[i])
  {
    seq(|bs|, i requires 0 <= i < |bs| => Trim(bs[i]))
  }

  lemma NewlineIsStripped()
    ensures RStrip("\n") == ""
  {
    assert RStrip("\n") == RStrip("");
  }

  lemma {:induction false} ChunkIsTrimmed(b: Block)
    requires b != []
    ensures Chunk(b) == JoinLines(Trim(b))
  {
    hide IsSpace;
    var n := |b| - 1;
    if n > 0 {
      JoinAppend(b[..n], [b[n]]);
      assert b == b[..n] + [b[n]];
      RStripAppend(JoinLines(b[..n]) + "\n", b[n]);
      if RStrip(b[n]) == "" {
        RStripAppend(JoinLines(b[..n]), "\n");
        NewlineIsStripped();
        ChunkIsTrimmed(b[..n]);
      } else {
        JoinAppend(b[..n], [RStrip(b[n])]);
      }
    }
  }

  lemma TrimIdempotent(b: Block)
    requires b != []
    ensures Trim(Trim(b)) == Trim(b)
    ensures RStrip(JoinLines(Trim(b))) == JoinLines(Trim(b))
  {
    var r := Trim(b);
    RStripIs(RStrip(b[|r| - 1]), RStrip(b[|r| - 1]));
    ChunkIsTrimmed(r);
  }

  lemma HeaderOfRStrip(line: string)
    ensures IsHeader(RStrip(line)) <==> IsHeader(line)
  {
    StripOfRStrip(line);
  }

  lemma TrimWf(b: Block)
    requires BlockWf(b)
    ensures BlockWf(Trim(b)) && (IsPeerBlock(Trim(b)) <==> IsPeerBlock(b))
  {
    hide IsHeader;
    var r := Trim(b);
    HeaderOfRStrip(b[|r| - 1]);
  }

  lemma TrimAllWf(bs: seq<Block>)
    requires Wf(bs)
    ensures Wf(TrimAll(bs))
  {
    forall i | 0 <= i < |bs| ensures BlockWf(TrimAll(bs)[i]) && (i > 0 ==> IsPeerBlock(TrimAll(bs)[i])) {
      TrimWf(bs[i]);
    }
  }

  lemma {:induction false} ChunksAreJoined(bs: seq<Block>)
    requires Wf(bs)
    ensures Chunks(bs) == Joined(TrimAll(bs))
  {
    hide IsHeader;
    if bs != [] {
      ChunkIsTrimmed(bs[0]);
      assert TrimAll(bs)[1..] == TrimAll(bs[1..]);
      ChunksAreJoined(bs[1..]);
    }
  }

  /** The text that join writes is the trimmed lines, one final newline added. */
  lemma JoinIs(bs: seq<Block>)
    requires Wf(bs) && bs != []
    ensures var lines := Flatten(TrimAll(bs));
            && lines != [] && Join(bs) == JoinLines(lines) + "\n"
            && RStrip(JoinLines(lines)) == JoinLines(lines)
  {
    hide IsHeader, BreakFree, Lower, Strip, Trim, Chunks, TrimAll, Joined;
    var ts := TrimAll(bs);
    var lines := Flatten(ts);
    TrimAllWf(bs);
    ChunksAreJoined(bs);
    JoinOfJoined(ts);
    var init, last := ts[..|ts| - 1], ts[|ts| - 1];
    assert ts == init + [last];
    FlattenAppend(init, last);
    TrimIdempotent(bs[|bs| - 1]);
    if init != [] {
      TrimNonBlank(bs[|bs| - 1]);
      assert Flatten(init) != [] by { JoinOfJoined(init); }
      JoinAppend(Flatten(init), last);
      RStripAppend(JoinLines(Flatten(init)) + "\n", JoinLines(last));
    } else {
      assert Flatten(init) + last == last;
    }
  }

  /** A peer block never trims to nothing. */
  lemma TrimNonBlank(b: Block)
    requires BlockWf(b) && IsPeerBlock(b)
    ensures JoinLines(Trim(b)) != ""
  {
    var r := Trim(b);
    TrimWf(b);
    if |r| == 1 {
      StripOfRStrip(b[0]);
      assert |Lower(Strip(r[0]))| == 6;
    } else {
      JoinAppend(r[..|r| - 1], [r[|r| - 1]]);
      assert r == r[..|r| - 1] + [r[|r| - 1]];
    }
  }

  /** Splitting a joined text gives back the trimmed blocks; no blocks at all give one blank line. */
  lemma {:induction false} SplitOfJoin(bs: seq<Block>)
    requires Wf(bs)
    ensures Split(Join(bs)) == if bs == [] then [[""]] else TrimAll(bs)
  {
    if bs == [] {
      assert Join(bs) == "\n";
      SplitOfJoined([""]);
      assert Blocks([""]) == [[""]];
    } else {
      JoinIs(bs);
      TrimAllWf(bs);
      FlattenBreakFree(TrimAll(bs));
      SplitOfJoined(Flatten(TrimAll(bs)));
      BlocksOfFlatten(TrimAll(bs));
    }
  }

  lemma {:induction false} FlattenBreakFree(bs: seq<Block>)
    requires forall i :: 0 <= i < |bs| ==> BlockWf(bs[i])
    ensures forall l :: l in Flatten(bs) ==> BreakFree(l)
  {
    if bs != [] {
      FlattenBreakFree(bs[1..]);
    }
  }

  /** Join sees only the trimmed blocks. */
  lemma JoinOfTrimmed(cs: seq<Block>, bs: seq<Block>)
    requires Wf(cs) && Wf(bs) && TrimAll(cs) == TrimAll(bs)
    ensures Join(cs) == Join(bs)
  {
    ChunksAreJoined(cs);
    ChunksAreJoined(bs);
  }

  lemma TrimAllIdempotent(bs: seq<Block>)
    requires Wf(bs)
    ensures Wf(TrimAll(bs)) && TrimAll(TrimAll(bs)) == TrimAll(bs)
  {
    TrimAllWf(bs);
    forall i | 0 <= i < |bs| ensures TrimAll(TrimAll(bs))[i] == TrimAll(bs)[i] {
      TrimIdempotent(bs[i]);
    }
  }

  // ----- Trimming changes no setting -----

  lemma {:induction false} FirstValueAppend(b: Block, line: string, name: string)
    ensures FirstValue(b + [line], name) ==
            if FirstValue(b, name).Some? then FirstValue(b, name) else LineValue(line, name)
  {
    if b != [] {
      assert (b + [line])[1..] == b[1..] + [line];
      FirstValueAppend(b[1..], line, name);
    } else {
      assert ([line])[1..] == [];
    }
  }

  lemma LineValueOfRStrip(line: string, name: string)
    ensures LineValue(RStrip(line), name) == LineValue(line, name)
    ensures RStrip(line) == "" ==> LineValue(line, name) == None
  {
    StripOfRStrip(line);
    StripEmpty(line);
  }

  lemma {:induction false} FirstValueOfTrim(b: Block, name: string)
    requires b != []
    ensures FirstValue(Trim(b), name) == FirstValue(b, name)
  {
    hide LineValue, FirstValue, RStrip;
    var n := |b| - 1;
    assert b == b[..n] + [b[n]];
    FirstValueAppend(b[..n], b[n], name);
    FirstValueAppend(b[..n], RStrip(b[n]), name);
    LineValueOfRStrip(b[n], name);
    if RStrip(b[n]) == "" && n > 0 {
      FirstValueOfTrim(b[..n], name);
    }
  }

  lemma MatchesTrim(b: Block, key: string)
    requires BlockWf(b)
    ensures Matches(Trim(b), key) <==> Matches(b, key)
  {
    TrimWf(b);
    FirstValueOfTrim(b, "publickey");
  }

  lemma {:induction false} KeepWf(bs: seq<Block>, key: string)
    requires Wf(bs)
    ensures Wf(Keep(bs, key))
    ensures forall b :: b in Keep(bs, key) ==> b in bs && !Matches(b, key)
  {
    hide IsHeader, Matches;
    if bs != [] {
      KeepWf(bs[..|bs| - 1], key);
    }
  }

  lemma TrimAllAppend(bs: seq<Block>, b: Block)
    requires Wf(bs) && Wf(bs + [b]) && b != []
    ensures TrimAll(bs + [b]) == TrimAll(bs) + [Trim(b)]
  {
    hide Trim;
  }

  lemma {:induction false} KeepOfTrimAll(bs: seq<Block>, key: string)
    requires Wf(bs)
    ensures Wf(Keep(bs, key)) && Keep(TrimAll(bs), key) == TrimAll(Keep(bs, key))
  {
    hide IsPeerBlock, BlockWf, Matches, Trim, TrimAll, Wf;
    KeepWf(bs, key);
    if bs == [] {
      NoBlocksWf();
      assert TrimAll([]) == [];
    } else {
      var n := |bs| - 1;
      var init, last := bs[..n], bs[n];
      assert bs == init + [last];
      WfFront(bs);
      WfAt(bs, n);
      TrimAllAppend(init, last);
      KeepOfTrimAll(init, key);
      MatchesTrim(last, key);
      assert (TrimAll(init) + [Trim(last)])[..n] == TrimAll(init);
      if Matches(last, key) {
        assert Keep(init, key) + [] == Keep(init, key);
      } else {
        TrimAllAppend(Keep(init, key), last);
      }
    }
  }

  lemma {:induction false} KeepCommutes(bs: seq<Block>, a: string, b: string)
    ensures Keep(Keep(bs, a), b) == Keep(Keep(bs, b), a)
  {
    hide Matches;
    if bs != [] {
      var n := |bs| - 1;
      KeepCommutes(bs[..n], a, b);
      KeepAppend(Keep(bs[..n], a), bs[n], b);
      KeepAppend(Keep(bs[..n], b), bs[n], a);
      assert Keep(bs[..n], a) + [] == Keep(bs[..n], a) && Keep(bs[..n], b) + [] == Keep(bs[..n], b);
    }
  }

  lemma KeepAppend(bs: seq<Block>, b: Block, key: string)
    ensures Keep(bs + [b], key) == Keep(bs, key) + (if Matches(b, key) then [] else [b])
  {
    assert (bs + [b])[..|bs|] == bs;
  }

  // ----- The string laws -----

  /** Join after split is idempotent, so it is a normal form. */
  lemma {:induction false} NormalFormIdempotent(text: string)
    ensures Join(Split(Join(Split(text)))) == Join(Split(text))
  {
    var bs := Split(text);
    SplitWf(text);
    SplitOfJoin(bs);
    if bs != [] {
      TrimAllIdempotent(bs);
      JoinOfTrimmed(TrimAll(bs), bs);
    } else {
      BlankJoin();
    }
  }

  lemma BlankLine()
    ensures !IsHeader("") && BreakFree("")
  {
    hide IsSpace;
    assert Strip("") == "" && Lower("") == "";
  }

  lemma BlankBlockJoin()
    ensures Join([[""]]) == Join([]) == "\n"
  {
    hide IsSpace, IsHeader;
    assert Chunks([[""]]) == [""];
  }

  lemma BlankBlockWf()
    ensures Wf([[""]])
  {
    hide IsHeader, IsBreak;
  }

  lemma BlankJoin()
    ensures Wf([[""]]) && Join([[""]]) == Join([]) == "\n"
    ensures forall key :: Keep([[""]], key) == [[""]]
  {
    hide Wf, Join, IsHeader, PublicKey;
    BlankLine();
    BlankBlockJoin();
    BlankBlockWf();
    forall key ensures Keep([[""]], key) == [[""]] {
      assert !IsPeerBlock([""]);
      assert Keep([], key) == [];
    }
  }

  /** What removal does to a text that is itself a join. */
  lemma RemovedOfJoin(bs: seq<Block>, key: string)
    requires Wf(bs)
    ensures Removed(Join(bs), key) == Join(Keep(bs, key))
  {
    SplitOfJoin(bs);
    if bs == [] {
      BlankJoin();
    } else {
      KeepOfTrimAll(bs, key);
      TrimAllIdempotent(Keep(bs, key));
      JoinOfTrimmed(TrimAll(Keep(bs, key)), Keep(bs, key));
    }
  }

  /** Removals of two keys commute as strings. */
  lemma {:induction false} RemovalsCommute(text: string, a: string, b: string)
    ensures Removed(Removed(text, a), b) == Removed(Removed(text, b), a)
  {
    SplitWf(text);
    KeepWf(Split(text), a);
    KeepWf(Split(text), b);
    RemovedOfJoin(Keep(Split(text), a), b);
    RemovedOfJoin(Keep(Split(text), b), a);
    KeepCommutes(Split(text), a, b);
  }

  // ----- Upserting, seen through the blocks -----

  lemma PrintableNotSpace(c: char)
    requires '!' <= c <= '~'
    ensures !IsSpace(c) && !IsBreak(c)
  {
  }

  lemma SettingIsNoHeader(name: string, value: string)
    requires name != "" && 'A' <= name[0] <= 'Z'
    ensures !IsHeader(name + value)
  {
    hide IsSpace;
    PrintableNotSpace(name[0]);
    var line := name + value;
    assert LStrip(line) == line && line[0] == name[0];
    var s := Strip(line);
    if s != "" {
      assert s[0] == name[0];
      assert Lower(s)[0] == LowerChar(name[0]) != '[';
    }
  }

  lemma SettingBreakFree(name: string, value: string)
    requires BreakFree(name) && BreakFree(value)
    ensures BreakFree(name + value)
  {
    hide IsBreak;
  }

  lemma PlainIsBreakFree(s: string)
    requires forall i :: 0 <= i < |s| ==> ' ' <= s[i] <= '~'
    ensures BreakFree(s)
  {
  }

  lemma BracketPeer()
    ensures IsHeader("[Peer]") && BreakFree("[Peer]")
    ensures BreakFree("PublicKey = ") && BreakFree("PresharedKey = ") && BreakFree("AllowedIPs = ") && BreakFree("/32")
    ensures !IsSpace('2')
  {
    hide BreakFree, IsSpace, Strip;
    PlainIsBreakFree("[Peer]");
    PlainIsBreakFree("PublicKey = ");
    PlainIsBreakFree("PresharedKey = ");
    PlainIsBreakFree("AllowedIPs = ");
    PlainIsBreakFree("/32");
    PrintableNotSpace('2');
    StripHeader();
    assert Lower("[Peer]") == "[peer]";
  }

  lemma PeerLinesWf(p: PeerInput)
    requires CleanPeer(p)
    ensures BlockWf(PeerLines(p)) && IsPeerBlock(PeerLines(p)) && Trim(PeerLines(p)) == PeerLines(p)
  {
    hide IsHeader, BreakFree, IsSpace, Strip;
    BracketPeer();
    var b := PeerLines(p);
    SettingIsNoHeader("PublicKey = ", p.publicKey);
    SettingIsNoHeader("PresharedKey = ", p.presharedKey);
    SettingIsNoHeader("AllowedIPs = ", p.vpnIp + "/32");
    SettingBreakFree("PublicKey = ", p.publicKey);
    SettingBreakFree("PresharedKey = ", p.presharedKey);
    SettingBreakFree(p.vpnIp, "/32");
    SettingBreakFree("AllowedIPs = ", p.vpnIp + "/32");
    assert b[3] == "AllowedIPs = " + (p.vpnIp + "/32");
    assert b[3][|b[3]| - 1] == '2';
    assert RStrip(b[3]) == b[3];
    assert b == b[..3] + [b[3]];
  }

  lemma BeforeAbsent(s: string, sep: char)
    requires sep !in s
    ensures Before(s, sep) == s
  {
    hide IsSpace, Lower;
  }

  lemma SettingStripped(name: string, value: string)
    requires name != "" && !IsSpace(name[0])
    ensures Strip(name + " = " + value) == name + " =" + RStrip(" " + value)
  {
    hide IsSpace;
    PrintableNotSpace('=');
    var line := name + " = " + value;
    assert LStrip(line) == line;
    assert line == (name + " =") + (" " + value);
    RStripAppend(name + " =", " " + value);
    assert RStrip(name + " =") == name + " =";
  }

  lemma NameStripped(name: string)
    requires name != "" && !IsSpace(name[0]) && !IsSpace(name[|name| - 1])
    ensures Strip(name + " ") == name
  {
    hide IsSpace;
    BlankIsSpace();
    assert LStrip(name + " ") == name + " ";
    RStripAppend(name, " ");
    assert RStrip(" ") == RStrip("") == "";
    assert RStrip(name) == name;
  }

  /** The value of a written line "name = value". */
  lemma SettingValue(name: string, value: string, wanted: string)
    requires name != "" && !IsSpace(name[0]) && !IsSpace(name[|name| - 1])
    requires name[0] != '#' && '=' !in name
    ensures LineValue(name + " = " + value, wanted)
            == if Lower(name) == wanted then Some(RStrip(" " + value)) else None
  {
    hide IsSpace, Lower, Strip, RStrip;
    var line := name + " = " + value;
    var rest := RStrip(" " + value);
    SettingStripped(name, value);
    NameStripped(name);
    var s := Strip(line);
    assert s == (name + " ") + ['='] + rest;
    BeforeIs(name + " ", '=', rest);
    assert s[0] == name[0] && '=' in s;
  }

  lemma BlankIsSpace()
    ensures IsSpace(' ')
  {
  }

  lemma StripAfterSpace(value: string)
    ensures Strip(RStrip(" " + value)) == Strip(value)
  {
    StripOfRStrip(" " + value);
    assert (" " + value)[1..] == value;
    assert LStrip(" " + value) == LStrip(value);
  }

  lemma HeaderHasNoValue(name: string)
    ensures LineValue("[Peer]", name) == None
  {
    hide Lower, Before, After, Strip;
    StripHeader();
    assert forall i :: 0 <= i < 6 ==> "[Peer]"[i] != '=';
  }

  lemma StripHeader()
    ensures Strip("[Peer]") == "[Peer]"
  {
    assert !IsSpace('[') && !IsSpace(']');
    StripOfUnpadded("[Peer]");
  }

  lemma NamesDiffer()
    ensures Lower("PublicKey") == "publickey" && Lower("AllowedIPs") == "allowedips"
    ensures Lower("PresharedKey") != "publickey" && Lower("PresharedKey") != "allowedips"
    ensures !IsSpace('P') && !IsSpace('y') && !IsSpace('A') && !IsSpace('s')
  {
    assert Lower("PublicKey") == "publickey" && Lower("AllowedIPs") == "allowedips";
    assert |Lower("PresharedKey")| == 12;
  }

  /** What the written peer block says when it is read back. */
  lemma {:induction false} PeerLinesSay(p: PeerInput)
    requires CleanPeer(p)
    ensures PublicKey(PeerLines(p)) == Some(p.publicKey)
    ensures FirstAllowedIp(PeerLines(p)) == Some(p.vpnIp + "/32")
  {
    hide IsSpace, Lower, LineValue, Strip, LStrip, RStrip, BreakFree, Unpadded, FirstValue;
    NamesDiffer();
    var b := PeerLines(p);
    var address := p.vpnIp + "/32";
    HeaderHasNoValue("publickey");
    HeaderHasNoValue("allowedips");
    assert b[1] == "PublicKey" + " = " + p.publicKey;
    assert b[2] == "PresharedKey" + " = " + p.presharedKey;
    assert b[3] == "AllowedIPs" + " = " + address;
    SettingValue("PublicKey", p.publicKey, "publickey");
    SettingValue("PublicKey", p.publicKey, "allowedips");
    SettingValue("PresharedKey", p.presharedKey, "allowedips");
    SettingValue("AllowedIPs", address, "allowedips");
    assert b == [b[0], b[1], b[2], b[3]];
    FirstValueOfFour(b[0], b[1], b[2], b[3]);
    StripAfterSpace(p.publicKey);
    StripAfterSpace(address);
    StripOfUnpadded(p.publicKey);
    StripOfUnpadded(address);
    BeforeAbsent(RStrip(" " + address), ',');
  }

  lemma FirstValueOfFour(l0: string, l1: string, l2: string, l3: string)
    requires LineValue(l0, "publickey") == None && LineValue(l1, "publickey").Some?
    requires LineValue(l0, "allowedips") == LineValue(l1, "allowedips") == LineValue(l2, "allowedips") == None
    requires LineValue(l3, "allowedips").Some?
    ensures FirstValue([l0, l1, l2, l3], "publickey") == LineValue(l1, "publickey")
    ensures FirstValue([l0, l1, l2, l3], "allowedips") == LineValue(l3, "allowedips")
  {
    hide LineValue;
    assert [l0, l1, l2, l3][1..] == [l1, l2, l3];
    assert [l1, l2, l3][1..] == [l2, l3];
    assert [l2, l3][1..] == [l3];
    assert FirstValue([l2, l3], "allowedips") == FirstValue([l3], "allowedips");
    assert FirstValue([l1, l2, l3], "allowedips") == FirstValue([l2, l3], "allowedips");
  }

  // ----- A text as an ordered map from public key to peer -----

  /** One peer of the text: its key, its first AllowedIPs and its whole trimmed text. */
  datatype Entry = Entry(key: Option<string>, allowedIp: Option<string>, text: string)

  function EntryOf(b: Block): Entry {
    Entry(PublicKey(b), FirstAllowedIp(b), Chunk(b))
  }

  function EntriesOf(bs: seq<Block>): seq<Entry> {
    if bs == [] then []
    else EntriesOf(bs[..|bs| - 1]) + (if IsPeerBlock(bs[|bs| - 1]) then [EntryOf(bs[|bs| - 1])] else [])
  }

  function Entries(text: string): seq<Entry> {
    EntriesOf(Split(text))
  }

  /** The trimmed text before the first [Peer] header. */
  function Preamble(text: string): string {
    PreambleOf(Split(text))
  }

  function PreambleOf(bs: seq<Block>): string {
    if bs == [] || IsPeerBlock(bs[0]) then "" else Chunk(bs[0])
  }

  function Without(es: seq<Entry>, key: string): seq<Entry> {
    if es == [] then []
    else Without(es[..|es| - 1], key)
         + (if es[|es| - 1].key == Some(key) then [] else [es[|es| - 1]])
  }

  lemma WithoutAppend(es: seq<Entry>, e: Entry, key: string)
    ensures Without(es + [e], key) == Without(es, key) + (if e.key == Some(key) then [] else [e])
  {
    assert (es + [e])[..|es|] == es;
  }

  lemma {:induction false} EntriesOfKeep(bs: seq<Block>, key: string)
    ensures EntriesOf(Keep(bs, key)) == Without(EntriesOf(bs), key)
  {
    hide IsPeerBlock, PublicKey, FirstAllowedIp, Chunk;
    if bs != [] {
      var init, last := bs[..|bs| - 1], bs[|bs| - 1];
      EntriesOfKeep(init, key);
      if IsPeerBlock(last) {
        WithoutAppend(EntriesOf(init), EntryOf(last), key);
      } else {
        assert EntriesOf(init) + [] == EntriesOf(init);
      }
      if Matches(last, key) {
        assert Keep(init, key) + [] == Keep(init, key);
      } else {
        assert (Keep(init, key) + [last])[..|Keep(init, key)|] == Keep(init, key);
      }
    }
  }

  lemma EntryOfTrim(b: Block)
    requires BlockWf(b)
    ensures IsPeerBlock(Trim(b)) <==> IsPeerBlock(b)
    ensures EntryOf(Trim(b)) == EntryOf(b)
  {
    TrimWf(b);
    FirstValueOfTrim(b, "publickey");
    FirstValueOfTrim(b, "allowedips");
    ChunkIsTrimmed(b);
    TrimIdempotent(b);
  }

  lemma {:induction false} EntriesOfTrimAll(bs: seq<Block>)
    requires Wf(bs)
    ensures EntriesOf(TrimAll(bs)) == EntriesOf(bs)
  {
    hide IsPeerBlock, EntryOf, BlockWf, Wf, Trim, TrimAll;
    if bs != [] {
      var n := |bs| - 1;
      var init, last := bs[..n], bs[n];
      assert bs == init + [last];
      WfFront(bs);
      WfAt(bs, n);
      EntryOfTrim(last);
      TrimAllAppend(init, last);
      EntriesOfTrimAll(init);
      assert (TrimAll(init) + [Trim(last)])[..n] == TrimAll(init);
    }
  }

  lemma PreambleOfTrimAll(bs: seq<Block>)
    requires Wf(bs)
    ensures PreambleOf(TrimAll(bs)) == PreambleOf(bs)
  {
    hide IsPeerBlock, BlockWf, Chunk, PublicKey, FirstAllowedIp;
    if bs != [] {
      EntryOfTrim(bs[0]);
    }
  }

  lemma {:induction false} PreambleOfKeep(bs: seq<Block>, key: string)
    requires Wf(bs)
    ensures PreambleOf(Keep(bs, key)) == PreambleOf(bs)
    ensures bs != [] && !IsPeerBlock(bs[0]) ==> Keep(bs, key) != [] && Keep(bs, key)[0] == bs[0]
    ensures bs != [] && IsPeerBlock(bs[0]) && Keep(bs, key) != [] ==> IsPeerBlock(Keep(bs, key)[0])
  {
    hide IsHeader, PublicKey, BlockWf;
    if bs != [] {
      PreambleOfKeep(bs[..|bs| - 1], key);
    }
  }

  /** The whole meaning of removal: the other peers with their texts and order,
      and the text before the first peer, are untouched. */
  lemma {:induction false} RemoveRefinesMap(text: string, key: string)
    ensures Entries(Removed(text, key)) == Without(Entries(text), key)
    ensures Preamble(Removed(text, key)) == Preamble(text)
  {
    var bs := Split(text);
    SplitWf(text);
    KeepWf(bs, key);
    var kept := Keep(bs, key);
    SplitOfJoin(kept);
    EntriesOfKeep(bs, key);
    PreambleOfKeep(bs, key);
    if kept != [] {
      EntriesOfTrimAll(kept);
      PreambleOfTrimAll(kept);
    } else {
      BlankEntries();
    }
  }

  lemma BlankEntries()
    ensures !IsPeerBlock([""]) && EntriesOf([[""]]) == [] && PreambleOf([[""]]) == ""
  {
    assert !IsHeader("");
    assert [[""]][..0] == [];
    assert EntriesOf([]) == [];
  }

  lemma WithPeerIs(without: string, p: PeerInput)
    ensures WithPeer(without, p)
            == (if RStrip(without) == "" then "" else RStrip(without) + "\n\n") + JoinLines(PeerLines(p)) + "\n"
  {
    hide RStrip, JoinLines, PeerLines;
    PeerText(p);
    var prefix := if RStrip(without) == "" then "" else RStrip(without) + "\n\n";
    assert WithPeer(without, p) == prefix + (JoinLines(PeerLines(p)) + "\n");
  }

  /** An upserted text is the kept lines, one blank line and the lines of the new peer. */
  lemma UpsertIs(kept: seq<Block>, p: PeerInput)
    requires Wf(kept)
    ensures var out, b := WithPeer(Join(kept), p), PeerLines(p);
            if RStrip(Join(kept)) == "" then out == JoinLines(b) + "\n"
            else kept != [] && out == JoinLines(Flatten(TrimAll(kept)) + [""] + b) + "\n"
  {
    hide *;
    var b := PeerLines(p);
    WithPeerIs(Join(kept), p);
    NewlineStripped();
    if kept == [] {
      NoBlocksJoin();
    } else {
      JoinIs(kept);
      var lines := Flatten(TrimAll(kept));
      var text := JoinLines(lines);
      RStripAppend(text, "\n");
      if RStrip(Join(kept)) != "" {
        JoinOne("");
        JoinAppend(lines, [""]);
        PeerLinesSome(p);
        JoinAppend(lines + [""], b);
        assert text + "\n\n" + JoinLines(b) == (text + "\n" + "") + "\n" + JoinLines(b);
      }
    }
  }

  lemma NewlineStripped()
    ensures RStrip("\n") == RStrip("") == ""
  {
  }

  lemma JoinOne(line: string)
    ensures JoinLines([line]) == line
  {
  }

  lemma NoBlocksJoin()
    ensures Join([]) == "\n"
  {
  }

  lemma PeerLinesSome(p: PeerInput)
    ensures PeerLines(p) != []
  {
  }

  /** The blocks of an upserted text: the kept ones, possibly one blank line longer, and the new peer. */
  lemma SplitOfUpsert(kept: seq<Block>, p: PeerInput)
    requires Wf(kept) && CleanPeer(p)
    ensures var out := WithPeer(Join(kept), p);
            if RStrip(Join(kept)) == "" then Split(out) == [PeerLines(p)]
            else kept != [] && Split(out) == AddLine(TrimAll(kept), "") + [PeerLines(p)]
  {
    hide IsHeader, BlockWf, BreakFree, CleanPeer, WithPeer, PeerLines, Join, JoinLines, TrimAll, Trim, RStrip,
      SplitLines, Blocks, AddLine, Flatten;
    var b := PeerLines(p);
    PeerLinesWf(p);
    UpsertIs(kept, p);
    BlankLine();
    WfBreakFree(b);
    NoBlocksYet();
    if RStrip(Join(kept)) == "" {
      SplitOfJoined(b);
      BlocksAppend([], b);
      assert [] + b == b;
    } else {
      var lines := Flatten(TrimAll(kept));
      TrimAllWf(kept);
      FlattenBreakFree(TrimAll(kept));
      BlocksOfFlatten(TrimAll(kept));
      SplitOfJoined(lines + [""] + b);
      BlocksSnoc(lines, "");
      BlocksAppend(lines + [""], b);
    }
  }

  lemma NoBlocksYet()
    ensures Blocks([]) == []
  {
  }

  lemma WfBreakFree(b: Block)
    requires BlockWf(b)
    ensures forall l :: l in b ==> BreakFree(l)
  {
  }

  lemma PeerText(p: PeerInput)
    ensures JoinLines(PeerLines(p)) + "\n"
            == "[Peer]\n" + "PublicKey = " + p.publicKey + "\n" + "PresharedKey = " + p.presharedKey + "\n"
               + "AllowedIPs = " + p.vpnIp + "/32\n"
  {
    var b := PeerLines(p);
    assert b[1..] == [b[1], b[2], b[3]] && b[1..][1..] == [b[2], b[3]] && b[1..][1..][1..] == [b[3]];
    assert JoinLines([b[2], b[3]]) == b[2] + "\n" + b[3];
  }

  /** A blank line added to the last block is trimmed away again. */
  lemma BlankLineTrims(bs: seq<Block>)
    requires Wf(bs) && bs != []
    ensures var ts := AddLine(TrimAll(bs), ""); Wf(ts) && TrimAll(ts) == TrimAll(bs)
  {
    hide AddLine, Wf, TrimAll;
    TrimAllIdempotent(bs);
    BlankLineAdded(TrimAll(bs));
  }

  lemma BlankLineAdded(ts: seq<Block>)
    requires Wf(ts) && ts != []
    ensures Wf(AddLine(ts, "")) && TrimAll(AddLine(ts, "")) == TrimAll(ts)
  {
    hide IsHeader, BlockWf, BreakFree, Trim, AddLine, RStrip, IsPeerBlock, Wf, TrimAll;
    var n := |ts| - 1;
    var front, last := ts[..n], ts[n];
    BlankLine();
    AddLineWf(ts, "");
    AddBlank(ts);
    WfAt(ts, n);
    WfFront(ts);
    BlankLineTrimsBlock(last);
    assert ts == front + [last];
    TrimAllAppend(front, last);
    TrimAllAppend(front, last + [""]);
  }

  lemma WfFront(bs: seq<Block>)
    requires Wf(bs) && bs != []
    ensures Wf(bs[..|bs| - 1]) && bs[|bs| - 1] != []
  {
    hide IsHeader, BreakFree;
  }

  lemma WfAt(bs: seq<Block>, i: nat)
    requires Wf(bs) && i < |bs|
    ensures BlockWf(bs[i])
  {
  }

  lemma AddBlank(bs: seq<Block>)
    requires bs != []
    ensures AddLine(bs, "") == bs[..|bs| - 1] + [bs[|bs| - 1] + [""]]
  {
    BlankLine();
  }

  lemma BlankLineTrimsBlock(b: Block)
    requires BlockWf(b)
    ensures Trim(b + [""]) == Trim(b)
  {
    assert (b + [""])[..|b|] == b;
  }

  lemma {:induction false} KeepNothing(bs: seq<Block>, key: string)
    requires forall b :: b in bs ==> !Matches(b, key)
    ensures Keep(bs, key) == bs
  {
    hide Matches;
    if bs != [] {
      KeepNothing(bs[..|bs| - 1], key);
      assert bs == bs[..|bs| - 1] + [bs[|bs| - 1]];
    }
  }

  /** Whatever the text, removing a key right after upserting it leaves what removing it
      from the original text leaves. */
  lemma {:induction false} RemoveAfterUpsert(text: string, p: PeerInput)
    requires CleanPeer(p)
    ensures Removed(Upserted(text, p), p.publicKey) == Removed(text, p.publicKey)
  {
    hide IsHeader, IsPeerBlock, BlockWf, CleanPeer, PublicKey, TrimAll, Trim, PeerLines, WithPeer, Split, RStrip,
      Join, AddLine, Keep;
    var key := p.publicKey;
    var kept := Keep(Split(text), key);
    SplitWf(text);
    KeepWf(Split(text), key);
    SplitOfUpsert(kept, p);
    PeerLinesWf(p);
    PeerLinesSay(p);
    if RStrip(Join(kept)) == "" {
      KeepNothing([], key);
      KeepAppend([], PeerLines(p), key);
      assert [] + [PeerLines(p)] == [PeerLines(p)];
      JoinBlank(kept);
    } else {
      var ts := AddLine(TrimAll(kept), "");
      BlankLineTrims(kept);
      KeepAppend(ts, PeerLines(p), key);
      NoMatchAfterTrim(kept, ts, key);
      KeepNothing(ts, key);
      assert ts + [] == ts;
      JoinOfTrimmed(ts, kept);
    }
  }

  lemma JoinBlank(bs: seq<Block>)
    requires RStrip(Join(bs)) == ""
    ensures Join(bs) == Join([]) == "\n"
  {
    var x := RStrip(JoinLines(Chunks(bs)));
    RStripAppend(x, "\n");
    assert RStrip("\n") == RStrip("") == "";
    RStripIs(x, x);
  }

  lemma NoMatchAfterTrim(bs: seq<Block>, ts: seq<Block>, key: string)
    requires Wf(bs) && Wf(ts) && TrimAll(bs) == TrimAll(ts)
    requires forall b :: b in bs ==> !Matches(b, key)
    ensures forall t :: t in ts ==> !Matches(t, key)
  {
    hide BlockWf, Matches;
    forall i | 0 <= i < |ts| ensures !Matches(ts[i], key) {
      assert TrimAll(bs)[i] == TrimAll(ts)[i];
      MatchesTrim(bs[i], key);
      MatchesTrim(ts[i], key);
      assert bs[i] in bs;
    }
  }

  /** The last upsert of a key wins, character for character; the same peer twice changes nothing. */
  lemma {:induction false} UpsertOverwrites(text: string, p: PeerInput, q: PeerInput)
    requires CleanPeer(p) && p.publicKey == q.publicKey
    ensures Upserted(Upserted(text, p), q) == Upserted(text, q)
  {
    RemoveAfterUpsert(text, p);
  }

  /** The whole meaning of an upsert: the other peers as they were, then the new peer, once and last. */
  lemma {:induction false} UpsertRefinesMap(text: string, p: PeerInput)
    requires CleanPeer(p)
    ensures Entries(Upserted(text, p))
            == Without(Entries(text), p.publicKey)
               + [Entry(Some(p.publicKey), Some(p.vpnIp + "/32"), JoinLines(PeerLines(p)))]
    ensures Preamble(Upserted(text, p)) == Preamble(text)
  {
    hide IsHeader, BlockWf, CleanPeer, PublicKey, FirstAllowedIp, Chunk, TrimAll, Trim, PeerLines, WithPeer, Split,
      RStrip, Join, AddLine, Keep, JoinLines;
    var key := p.publicKey;
    var bs := Split(text);
    var kept := Keep(bs, key);
    var b := PeerLines(p);
    SplitWf(text);
    KeepWf(bs, key);
    SplitOfUpsert(kept, p);
    PeerLinesWf(p);
    PeerLinesSay(p);
    ChunkIsTrimmed(b);
    EntriesOfKeep(bs, key);
    PreambleOfKeep(bs, key);
    if RStrip(Join(kept)) == "" {
      EntriesAppend([], b);
      assert [] + [b] == [b];
      NoEntriesInBlank(kept);
    } else {
      var ts := AddLine(TrimAll(kept), "");
      BlankLineTrims(kept);
      EntriesAppend(ts, b);
      EntriesOfTrimAll(ts);
      EntriesOfTrimAll(kept);
      PreambleOfTrimAll(ts);
      PreambleOfTrimAll(kept);
    }
  }

  lemma EntriesAppend(bs: seq<Block>, b: Block)
    requires IsPeerBlock(b)
    ensures EntriesOf(bs + [b]) == EntriesOf(bs) + [EntryOf(b)]
    ensures bs != [] ==> PreambleOf(bs + [b]) == PreambleOf(bs)
    ensures bs == [] ==> PreambleOf(bs + [b]) == ""
  {
    assert (bs + [b])[..|bs|] == bs;
  }

  /** A text that joins to nothing but white space holds no peer. */
  lemma NoEntriesInBlank(bs: seq<Block>)
    requires Wf(bs) && RStrip(Join(bs)) == ""
    ensures EntriesOf(bs) == [] && PreambleOf(bs) == ""
  {
    SplitOfJoin(bs);
    JoinBlank(bs);
    SplitOfJoin([]);
    if bs != [] {
      BlankEntries();
      EntriesOfTrimAll(bs);
      PreambleOfTrimAll(bs);
    }
  }

  // ----- Reading settings, by rule and by example -----

  /** The first line that gives a value decides. */
  lemma {:induction false} FirstValueIsFirst(b: Block, name: string, i: nat)
    requires i < |b| && LineValue(b[i], name).Some? && forall j :: 0 <= j < i ==> LineValue(b[j], name).None?
    ensures FirstValue(b, name) == LineValue(b[i], name)
  {
    hide LineValue;
    if i > 0 {
      FirstValueIsFirst(b[1..], name, i - 1);
    }
  }

  /** A line gives what stands after its first '=', if what stands before it is the name in any case; a comment gives
      nothing. */
  lemma {:induction false} LineValueIs(before: string, after: string, name: string)
    requires '=' !in before && Unpadded(before) && before != "" && Unpadded(after) && after != ""
    ensures LineValue(before + ['='] + after, name)
            == if before[0] != '#' && Lower(before) == name then Some(after) else None
  {
    hide Lower, IsSpace, Strip;
    var line := before + ['='] + after;
    assert line[0] == before[0] && line[|line| - 1] == after[|after| - 1] && line[|before|] == '=';
    StripOfUnpadded(line);
    StripOfUnpadded(before);
    BeforeIs(before, '=', after);
  }

  /** Of several addresses of a setting the first one counts. */
  lemma {:induction false} FirstOfAddresses(b: Block, first: string, others: string)
    requires FirstValue(b, "allowedips") == Some(first + [','] + others) && ',' !in first
    ensures FirstAllowedIp(b) == Some(Strip(first))
  {
    hide Strip, FirstValue;
    BeforeIs(first, ',', others);
  }

  /** Headers are recognised in any case and with white space around them. */
  lemma {:induction false} HeaderIs(s: string, pad: string)
    requires Unpadded(s) && s != "" && (forall i :: 0 <= i < |pad| ==> IsSpace(pad[i]))
    ensures IsHeader(pad + s) <==> Lower(s) == "[peer]"
  {
    hide IsSpace, RStrip, Lower;
    StripOfUnpadded(s);
    PadStrips(pad + s, |pad|);
    assert (pad + s)[|pad|..] == s;
  }

  lemma {:induction false} PadStrips(s: string, k: nat)
    requires k <= |s| && forall i :: 0 <= i < k ==> IsSpace(s[i])
    ensures LStrip(s) == LStrip(s[k..])
  {
    hide IsSpace, LStrip;
    if k == 0 {
      assert s[k..] == s;
    } else {
      assert IsSpace(s[0]);
      assert LStrip(s) == LStrip(s[1..]) by { FirstSpaceGoes(s); }
      PadStrips(s[1..], k - 1);
      assert s[1..][k - 1..] == s[k..];
    }
  }

  lemma FirstSpaceGoes(s: string)
    requires s != "" && IsSpace(s[0])
    ensures LStrip(s) == LStrip(s[1..])
  {
  }
}
