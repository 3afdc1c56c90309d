/** The address of the [Interface] section of a configuration text, against which an apply checks its network,
    and what editing peers does to it. */
module InterfaceNetwork {
  import opened Basics
  import opened PeerConfig
  import opened Text

  // ----- Reading the address -----

  predicate IsBracket(c: char) {
    c == '[' || c == ']'
  }

  /** str.strip("[]") */
  function TrimBrackets(s: string): (r: string)
    ensures |r| <= |s|
  {
    if s != "" && IsBracket(s[0]) then TrimBrackets(s[1..])
    else if s != "" && IsBracket(s[|s| - 1]) then TrimBrackets(s[..|s| - 1])
    else s
  }

  predicate IsSection(s: string) {
    s != "" && s[0] == '[' && s[|s| - 1] == ']'
  }

  function SectionName(s: string): string {
    Lower(Strip(TrimBrackets(s)))
  }

  /** What one line gives: an address, or whether the next line is inside the section. */
  datatype Reading = Found(address: string) | Inside(inside: bool)

  function Read(line: string, inside: bool): Reading {
    var s := Strip(line);
    if s == "" || s[0] == '#' then Inside(inside)
    else if IsSection(s) then Inside(SectionName(s) == "interface")
    else if !inside || '=' !in s then Inside(inside)
    else if Lower(Strip(Before(s, '='))) != "address" then Inside(inside)
    else Found(Strip(Before(After(s, '='), ',')))
  }

  function Scan(lines: seq<string>, inside: bool): Reading {
    if lines == [] then Inside(inside)
    else match Read(lines[0], inside)
         case Found(a) => Found(a)
         case Inside(next) => Scan(lines[1..], next)
  }

  /** The first address of the section; None where the source raises for its absence. */
  function InterfaceAddress(text: string): Option<string> {
    Given(Scan(SplitLines(text), false))
  }

  function Given(r: Reading): Option<string> {
    if r.Found? then Some(r.address) else None
  }

  method DockerConfigInterfaceAddress(text: string) returns (r: Option<string>)
    ensures r == InterfaceAddress(text)
  {
    hide Read;
    var lines := SplitLines(text);
    var inside := false;
    for i := 0 to |lines|
      invariant Scan(lines, false) == Scan(lines[i..], inside)
    {
      assert lines[i..][1..] == lines[i + 1..];
      match Read(lines[i], inside) {
        case Found(a) => return Some(a);
        case Inside(next) => inside := next;
      }
    }
    return None;
  }

  // ----- Block by block -----

  /** The address that a block gives on its own. */
  function AddressIn(b: Block): Option<string> {
    Given(Scan(b, false))
  }

  function FirstAddress(bs: seq<Block>): Option<string> {
    if bs == [] then None
    else if FirstAddress(bs[..|bs| - 1]).Some? then FirstAddress(bs[..|bs| - 1])
    else AddressIn(bs[|bs| - 1])
  }

  lemma {:induction false} ScanAppend(x: seq<string>, y: seq<string>, inside: bool)
    ensures Scan(x + y, inside) == match Scan(x, inside)
                                   case Found(a) => Found(a)
                                   case Inside(next) => Scan(y, next)
  {
    hide Read;
    if x == [] {
      assert x + y == y;
    } else {
      assert (x + y)[1..] == x[1..] + y;
      if Read(x[0], inside).Inside? {
        ScanAppend(x[1..], y, Read(x[0], inside).inside);
      }
    }
  }

  lemma StripShorter(s: string)
    ensures |Strip(s)| <= |s|
  {
  }

  lemma LowerBrackets(s: string)
    requires Lower(s) == "[peer]"
    ensures |s| == 6 && s[0] == '[' && s[5] == ']'
  {
    assert |Lower(s)| == 6 && Lower(s)[0] == '[' && Lower(s)[5] == ']';
  }

  /** A [Peer] header ends the section. */
  lemma HeaderEnds(line: string, inside: bool)
    requires IsHeader(line)
    ensures Read(line, inside) == Inside(false)
  {
    hide Strip, Lower, TrimBrackets, Before, After;
    var s := Strip(line);
    LowerBrackets(s);
    StripShorter(TrimBrackets(s));
    assert |SectionName(s)| <= 6;
  }

  /** A peer block gives what it gives, wherever it stands. */
  lemma PeerBlockScan(b: Block, inside: bool)
    requires IsPeerBlock(b)
    ensures Scan(b, inside) == Scan(b, false)
  {
    hide Read, IsHeader;
    HeaderEnds(b[0], inside);
    HeaderEnds(b[0], false);
  }

  lemma {:induction false} ScanBlocks(bs: seq<Block>)
    requires Wf(bs)
    ensures Given(Scan(Flatten(bs), false)) == FirstAddress(bs)
  {
    hide BlockWf, IsPeerBlock;
    if bs != [] {
      var init, last := bs[..|bs| - 1], bs[|bs| - 1];
      ScanBlocks(init);
      assert bs == init + [last];
      FlattenAppend(init, last);
      ScanAppend(Flatten(init), last, false);
      if init != [] && Scan(Flatten(init), false).Inside? {
        PeerBlockScan(last, Scan(Flatten(init), false).inside);
      }
    }
  }

  lemma {:induction false} BlocksFlatten(lines: seq<string>)
    ensures Flatten(Blocks(lines)) == lines
  {
    hide IsHeader;
    if lines != [] {
      var init, line := lines[..|lines| - 1], lines[|lines| - 1];
      BlocksFlatten(init);
      var bs := Blocks(init);
      assert lines == init + [line];
      if bs == [] || IsHeader(line) {
        FlattenAppend(bs, [line]);
      } else {
        var n := |bs| - 1;
        assert bs == bs[..n] + [bs[n]];
        FlattenAppend(bs[..n], bs[n]);
        FlattenAppend(bs[..n], bs[n] + [line]);
      }
    }
  }

  /** The address of a text is that of its first block that gives one. */
  lemma AddressByBlocks(text: string)
    ensures InterfaceAddress(text) == FirstAddress(Split(text))
  {
    hide Scan, Wf;
    SplitWf(text);
    BlocksFlatten(SplitLines(text));
    ScanBlocks(Split(text));
  }

  // ----- Trimming and removing -----

  lemma ReadStripped(line: string, inside: bool)
    ensures Read(RStrip(line), inside) == Read(line, inside)
    ensures RStrip(line) == "" ==> Read(line, inside) == Inside(inside)
  {
    hide Strip, RStrip;
    StripOfRStrip(line);
    BlankRead(inside);
  }

  lemma ScanSnoc(x: seq<string>, line: string, inside: bool)
    ensures Scan(x + [line], inside) == match Scan(x, inside)
                                        case Found(a) => Found(a)
                                        case Inside(next) => Read(line, next)
  {
    hide Read;
    ScanAppend(x, [line], inside);
    assert [line][1..] == [];
  }

  lemma {:induction false} AddressOfTrim(b: Block)
    requires b != []
    ensures AddressIn(Trim(b)) == AddressIn(b)
  {
    hide Read, RStrip, Scan;
    var n := |b| - 1;
    assert b == b[..n] + [b[n]];
    ScanSnoc(b[..n], b[n], false);
    ScanSnoc(b[..n], RStrip(b[n]), false);
    var mid := Scan(b[..n], false);
    if mid.Inside? {
      ReadStripped(b[n], mid.inside);
    }
    if RStrip(b[n]) == "" && n > 0 {
      AddressOfTrim(b[..n]);
    }
  }

  lemma {:induction false} FirstAddressOfTrimAll(bs: seq<Block>)
    requires Wf(bs)
    ensures FirstAddress(TrimAll(bs)) == FirstAddress(bs)
  {
    hide IsPeerBlock, BlockWf, Trim, AddressIn;
    if bs != [] {
      var n := |bs| - 1;
      assert TrimAll(bs)[..n] == TrimAll(bs[..n]);
      FirstAddressOfTrimAll(bs[..n]);
      TrimKeepsAddress(bs, n);
    }
  }

  lemma TrimKeepsAddress(bs: seq<Block>, i: nat)
    requires Wf(bs) && i < |bs|
    ensures bs[i] != [] && AddressIn(Trim(bs[i])) == AddressIn(bs[i])
  {
    hide IsHeader, AddressIn, Trim;
    AddressOfTrim(bs[i]);
  }

  lemma BlankRead(inside: bool)
    ensures Read("", inside) == Inside(inside)
  {
    hide Strip;
    StripOfUnpadded("");
  }

  lemma BlankGivesNothing()
    ensures FirstAddress([[""]]) == None && FirstAddress([]) == None
  {
    hide Read;
    BlankRead(false);
    assert [[""]][..0] == [];
  }

  lemma {:induction false} JoinedAddress(bs: seq<Block>)
    requires Wf(bs)
    ensures InterfaceAddress(Join(bs)) == FirstAddress(bs)
  {
    hide Wf, Join, Split, FirstAddress, InterfaceAddress;
    AddressByBlocks(Join(bs));
    SplitOfJoin(bs);
    BlankGivesNothing();
    if bs != [] {
      FirstAddressOfTrimAll(bs);
    }
  }

  lemma {:induction false} FirstAddressIs(bs: seq<Block>)
    ensures FirstAddress(bs).None? <==> forall b :: b in bs ==> AddressIn(b).None?
  {
    hide AddressIn;
    if bs != [] {
      var init, last := bs[..|bs| - 1], bs[|bs| - 1];
      FirstAddressIs(init);
      assert bs == init + [last];
    }
  }

  lemma {:induction false} InKeep(bs: seq<Block>, key: string)
    ensures forall b :: b in Keep(bs, key) <==> b in bs && !Matches(b, key)
  {
    hide Matches;
    if bs != [] {
      var init, last := bs[..|bs| - 1], bs[|bs| - 1];
      InKeep(init, key);
      assert bs == init + [last];
    }
  }

  /** Removing a peer loses the interface's address exactly when every block that gives one is a block of that
      peer: a section written after a peer belongs to the peer's block. */
  lemma {:induction false} RemovalLosesExactly(text: string, key: string)
    ensures InterfaceAddress(Removed(text, key)).None?
            <==> forall b :: b in Split(text) && AddressIn(b).Some? ==> Matches(b, key)
  {
    hide Split, Matches, Join, InterfaceAddress, Wf;
    SplitWf(text);
    KeepWf(Split(text), key);
    JoinedAddress(Keep(Split(text), key));
    FirstAddressIs(Keep(Split(text), key));
    InKeep(Split(text), key);
  }

  /** The first block that gives an address. */
  ghost predicate GivesFirst(bs: seq<Block>, i: nat) {
    i < |bs| && AddressIn(bs[i]).Some? && forall j :: 0 <= j < i ==> AddressIn(bs[j]).None?
  }

  lemma {:induction false} FirstAddressAppend(a: seq<Block>, b: seq<Block>)
    ensures FirstAddress(a + b) == if FirstAddress(a).Some? then FirstAddress(a) else FirstAddress(b)
  {
    hide AddressIn;
    if b == [] {
      assert a + b == a;
    } else {
      var init, last := b[..|b| - 1], b[|b| - 1];
      FirstAddressAppend(a, init);
      assert (a + b)[..|a + b| - 1] == a + init;
    }
  }

  lemma {:induction false} KeepConcat(a: seq<Block>, b: seq<Block>, key: string)
    ensures Keep(a + b, key) == Keep(a, key) + Keep(b, key)
  {
    hide Matches;
    if b == [] {
      assert a + b == a;
    } else {
      KeepConcat(a, b[..|b| - 1], key);
      assert (a + b)[..|a + b| - 1] == a + b[..|b| - 1];
    }
  }

  lemma GivenByFirst(bs: seq<Block>, i: nat, key: string)
    requires GivesFirst(bs, i)
    ensures FirstAddress(bs) == AddressIn(bs[i])
    ensures FirstAddress(Keep(bs, key))
            == if Matches(bs[i], key) then FirstAddress(Keep(bs[i + 1..], key)) else AddressIn(bs[i])
  {
    hide AddressIn, Matches;
    var before, after := bs[..i], bs[i + 1..];
    assert bs == before + [bs[i]] + after;
    FirstAddressIs(before);
    FirstAddressIs(Keep(before, key));
    InKeep(before, key);
    FirstAddressAppend(before + [bs[i]], after);
    FirstAddressAppend(before, [bs[i]]);
    KeepConcat(before + [bs[i]], after, key);
    KeepConcat(before, [bs[i]], key);
    FirstAddressAppend(Keep(before, key) + Keep([bs[i]], key), Keep(after, key));
    FirstAddressAppend(Keep(before, key), Keep([bs[i]], key));
    assert [bs[i]][..0] == [];
  }

  /** What removing a peer does to the address: nothing unless the first block that gives one is a block of that peer;
      then the address is that of the first later block of another peer that gives one, and changes exactly if
      that is a different one or there is none. */
  lemma {:induction false} RemovalChangesExactly(text: string, key: string)
    ensures InterfaceAddress(text).None? ==> InterfaceAddress(Removed(text, key)).None?
    ensures forall i: nat :: GivesFirst(Split(text), i) ==>
      var block, later := Split(text)[i], FirstAddress(Keep(Split(text)[i + 1..], key));
      && InterfaceAddress(text) == AddressIn(block)
      && InterfaceAddress(Removed(text, key)) == (if Matches(block, key) then later else AddressIn(block))
      && (InterfaceAddress(Removed(text, key)) != InterfaceAddress(text)
          <==> Matches(block, key) && later != AddressIn(block))
  {
    hide Split, Matches, Join, InterfaceAddress, Wf, AddressIn;
    var bs := Split(text);
    SplitWf(text);
    KeepWf(bs, key);
    AddressByBlocks(text);
    JoinedAddress(Keep(bs, key));
    FirstAddressIs(bs);
    FirstAddressIs(Keep(bs, key));
    InKeep(bs, key);
    forall i: nat | GivesFirst(bs, i)
      ensures FirstAddress(bs) == AddressIn(bs[i])
      ensures FirstAddress(Keep(bs, key))
              == if Matches(bs[i], key) then FirstAddress(Keep(bs[i + 1..], key)) else AddressIn(bs[i])
    {
      GivenByFirst(bs, i, key);
    }
  }

  /** A text whose interface comes after a peer. */
  const MIXED: Block := ["[Peer]", "PublicKey = k", "[Interface]", "Address = a"]

  lemma MixedStripped()
    ensures forall l :: l in MIXED ==> Unpadded(l) && Strip(l) == l && BreakFree(l)
  {
    hide IsSpace, IsBreak;
    BlankIsNoBreak();
    forall l | l in MIXED ensures Unpadded(l) && Strip(l) == l && BreakFree(l) {
      forall i | 0 <= i < |l| && l[i] != ' ' ensures !IsSpace(l[i]) && !IsBreak(l[i]) {
        PrintableNotSpace(l[i]);
      }
      StripOfUnpadded(l);
    }
  }

  lemma BlankIsNoBreak()
    ensures !IsBreak(' ')
  {
  }

  lemma MixedWf()
    ensures BlockWf(MIXED) && IsPeerBlock(MIXED)
  {
    hide Strip, BreakFree, Unpadded;
    MixedStripped();
    assert Lower(MIXED[0]) == "[peer]";
    assert forall j :: 1 <= j < 4 ==> |Lower(MIXED[j])| > 6;
  }

  lemma MixedText()
    ensures Split(JoinLines(MIXED) + "\n") == [MIXED]
  {
    hide SplitLines, Blocks, IsHeader, JoinLines, BreakFree;
    MixedWf();
    SplitOfJoined(MIXED);
    NoBlocksYet();
    BlocksAppend([], MIXED);
    assert [] + MIXED == MIXED;
  }

  lemma SecondGivesKey(b: Block)
    requires |b| > 1 && LineValue(b[0], "publickey").None? && LineValue(b[1], "publickey").Some?
    ensures PublicKey(b) == Some(Strip(LineValue(b[1], "publickey").value))
  {
    hide LineValue, Strip;
    assert FirstValue(b, "publickey") == FirstValue(b[1..], "publickey");
  }

  lemma KeyLine(key: string)
    requires Unpadded(key)
    ensures LineValue("PublicKey" + " = " + key, "publickey").Some?
    ensures Strip(LineValue("PublicKey" + " = " + key, "publickey").value) == key
  {
    hide IsSpace, Lower, LineValue, RStrip, LStrip, Strip, Unpadded;
    NamesDiffer();
    SettingValue("PublicKey", key, "publickey");
    StripAfterSpace(key);
    StripOfUnpadded(key);
  }

  lemma MixedKey()
    ensures PublicKey(MIXED) == Some("k")
  {
    hide IsSpace, LineValue, Strip, FirstValue, PublicKey;
    HeaderHasNoValue("publickey");
    PrintableNotSpace('k');
    KeyLine("k");
    assert "PublicKey" + " = " + "k" == MIXED[1];
    SecondGivesKey(MIXED);
  }

  lemma MixedAddress()
    ensures AddressIn(MIXED) == Some("a")
  {
    hide Strip, Lower, TrimBrackets, Before, After, IsHeader;
    MixedStripped();
    MixedWf();
    HeaderEnds(MIXED[0], false);
    InterfaceHeader();
    AddressLine();
    assert MIXED[1..][0] == MIXED[1] && MIXED[1..][1..] == MIXED[2..] && MIXED[2..][0] == MIXED[2];
    assert MIXED[2..][1..] == MIXED[3..] && MIXED[3..][0] == MIXED[3];
    assert Read(MIXED[1], false) == Inside(false);
  }

  lemma Bracketed(name: string)
    requires name != "" && !IsBracket(name[0]) && !IsBracket(name[|name| - 1])
    ensures TrimBrackets("[" + name + "]") == name
  {
    assert ("[" + name + "]")[1..] == name + "]";
    assert (name + "]")[..|name|] == name;
    assert TrimBrackets(name) == name;
    assert TrimBrackets(name + "]") == name;
  }

  lemma SectionNamed(name: string)
    requires name != "" && Unpadded(name) && !IsBracket(name[0]) && !IsBracket(name[|name| - 1])
    ensures SectionName("[" + name + "]") == Lower(name)
  {
    hide Strip, TrimBrackets, Unpadded, Lower;
    Bracketed(name);
    StripOfUnpadded(name);
  }

  lemma InterfaceHeader()
    ensures SectionName("[Interface]") == "interface"
  {
    hide IsSpace, SectionName;
    PrintableNotSpace('I');
    PrintableNotSpace('e');
    SectionNamed("Interface");
    assert "[" + "Interface" + "]" == "[Interface]";
  }

  lemma SettingSides(name: string, value: string)
    requires name != "" && !IsSpace(name[0]) && !IsSpace(name[|name| - 1]) && '=' !in name
    requires Unpadded(value) && ',' !in value
    ensures var line := name + " = " + value;
            '=' in line && Strip(Before(line, '=')) == name && Strip(Before(After(line, '='), ',')) == value
  {
    hide IsSpace, RStrip;
    var line := name + " = " + value;
    assert line == (name + " ") + ['='] + (" " + value);
    BeforeIs(name + " ", '=', " " + value);
    NameStripped(name);
    BeforeAbsent(" " + value, ',');
    BlankIsSpace();
    assert (" " + value)[1..] == value;
    assert LStrip(" " + value) == LStrip(value);
    StripOfUnpadded(value);
  }

  lemma AddressLine()
    ensures '=' in "Address = a" && Lower(Strip(Before("Address = a", '='))) == "address"
    ensures Strip(Before(After("Address = a", '='), ',')) == "a"
  {
    hide IsSpace, Strip, Before, After;
    PrintableNotSpace('A');
    PrintableNotSpace('s');
    PrintableNotSpace('a');
    SettingSides("Address", "a");
    assert "Address" + " = " + "a" == "Address = a";
    assert Lower("Address") == "address";
  }

  /** Removing that peer removes the interface's address, too. */
  lemma {:induction false} PeerBeforeInterface()
    ensures InterfaceAddress(JoinLines(MIXED) + "\n") == Some("a")
    ensures InterfaceAddress(Removed(JoinLines(MIXED) + "\n", "k")) == None
  {
    hide Split, Join, InterfaceAddress, AddressIn, PublicKey, JoinLines;
    var text := JoinLines(MIXED) + "\n";
    MixedText();
    MixedWf();
    MixedKey();
    MixedAddress();
    AddressByBlocks(text);
    assert [MIXED][..0] == [];
    RemovalLosesExactly(text, "k");
  }

  // ----- The section before the first peer -----

  /** The usual layout: the text before the first [Peer] gives the address. */
  predicate InterfaceFirst(text: string) {
    var bs := Split(text);
    bs != [] && !IsPeerBlock(bs[0]) && AddressIn(bs[0]).Some?
  }

  lemma {:induction false} FirstOfFirst(bs: seq<Block>)
    requires bs != [] && AddressIn(bs[0]).Some?
    ensures FirstAddress(bs) == AddressIn(bs[0])
  {
    hide AddressIn;
    if |bs| > 1 {
      FirstOfFirst(bs[..|bs| - 1]);
    }
  }

  /** In the usual layout removing a peer keeps the address, and the layout. */
  lemma {:induction false} RemovalKeepsInterface(text: string, key: string)
    requires InterfaceFirst(text)
    ensures InterfaceFirst(Removed(text, key))
    ensures InterfaceAddress(Removed(text, key)) == InterfaceAddress(text)
  {
    hide Split, Join, InterfaceAddress, AddressIn, Wf, Trim, IsPeerBlock;
    var bs := Split(text);
    var kept := Keep(bs, key);
    SplitWf(text);
    KeepWf(bs, key);
    PreambleOfKeep(bs, key);
    AddressByBlocks(text);
    FirstOfFirst(bs);
    FirstOfFirst(kept);
    JoinedAddress(kept);
    SplitOfJoin(kept);
    TrimKeepsAddress(kept, 0);
    TrimKeepsKind(kept, 0);
  }

  lemma TrimKeepsKind(bs: seq<Block>, i: nat)
    requires Wf(bs) && i < |bs|
    ensures bs[i] != [] && (IsPeerBlock(Trim(bs[i])) <==> IsPeerBlock(bs[i]))
  {
    hide IsHeader, Trim;
    EntryOfTrim(bs[i]);
  }

  /** So does an upsert: the new block comes last. */
  lemma {:induction false} UpsertKeepsInterface(text: string, p: PeerInput)
    requires InterfaceFirst(text) && CleanPeer(p)
    ensures InterfaceFirst(Upserted(text, p))
    ensures InterfaceAddress(Upserted(text, p)) == InterfaceAddress(text)
  {
    hide Split, Join, InterfaceAddress, AddressIn, Wf, Trim, TrimAll, IsPeerBlock, CleanPeer, WithPeer, RStrip,
      PeerLines, AddLine;
    var bs := Split(text);
    var kept := Keep(bs, p.publicKey);
    SplitWf(text);
    KeepWf(bs, p.publicKey);
    PreambleOfKeep(bs, p.publicKey);
    AddressByBlocks(text);
    FirstOfFirst(bs);
    SplitOfUpsert(kept, p);
    if RStrip(Join(kept)) == "" {
      BlankKeptGivesNothing(kept);
    }
    var ts := AddLine(TrimAll(kept), "");
    BlankLineTrims(kept);
    var out := ts + [PeerLines(p)];
    TrimKeepsAddress(kept, 0);
    TrimKeepsKind(kept, 0);
    TrimKeepsAddress(ts, 0);
    TrimKeepsKind(ts, 0);
    FirstOfFirst(out);
    AddressByBlocks(Upserted(text, p));
  }

  lemma BlankKeptGivesNothing(bs: seq<Block>)
    requires Wf(bs) && bs != [] && AddressIn(bs[0]).Some?
    ensures RStrip(Join(bs)) != ""
  {
    hide Wf, Join, AddressIn, Split, InterfaceAddress, TrimAll;
    if RStrip(Join(bs)) == "" {
      JoinBlank(bs);
      SplitOfJoin(bs);
      FirstOfFirst(bs);
      JoinedAddress(bs);
      NoBlocksWf();
      JoinedAddress([]);
      BlankGivesNothing();
    }
  }

  // ----- Reading sections and addresses -----

  /** A line "[name]" starts the interface's section exactly if the name is "interface" in any case, and ends it
      otherwise. */
  lemma {:induction false} SectionLine(name: string, inside: bool)
    requires name != "" && Unpadded(name) && !IsBracket(name[0]) && !IsBracket(name[|name| - 1])
    ensures Read("[" + name + "]", inside) == Inside(Lower(name) == "interface")
  {
    hide Strip, TrimBrackets, Lower, IsSpace;
    var line := "[" + name + "]";
    SectionNamed(name);
    BracketsAreNoSpace();
    assert line[0] == '[' && line[|line| - 1] == ']';
    StripOfUnpadded(line);
  }

  lemma BracketsAreNoSpace()
    ensures !IsSpace('[') && !IsSpace(']')
  {
  }

  /** Inside the section a line "name = first, others" gives the first address exactly if the name is "address" in any
      case; outside it, and as a comment, it gives nothing. */
  lemma {:induction false} SettingLine(name: string, first: string, others: string, inside: bool)
    requires name != "" && Unpadded(name) && '=' !in name && name[0] != '['
    requires ',' !in first && Unpadded(others) && others != ""
    ensures Read(name + ['='] + (first + [','] + others), inside)
            == if name[0] != '#' && inside && Lower(name) == "address" then Found(Strip(first)) else Inside(inside)
  {
    hide Strip, Lower, IsSpace;
    var value := first + [','] + others;
    var line := name + ['='] + value;
    assert line[0] == name[0] && line[|line| - 1] == others[|others| - 1] && line[|name|] == '=';
    StripOfUnpadded(line);
    StripOfUnpadded(name);
    BeforeIs(name, '=', value);
    BeforeIs(first, ',', others);
  }
}
