/** Reading a manifest of configurations to issue, and expanding it into slots. Texts stand for their
    canonical keys: equal keys are equal texts up to case, width and spacing. */
module Manifest {
  import opened Basics
  import opened Database

  const MAX_MANIFEST_ITEMS := 100
  const MAX_EXPANDED_SLOTS := 100

  /** The key of the text "recipient_unassigned". */
  const UNASSIGNED_KEY: nat := 0

  /** The key of the two-digit text of a number. */
  function OrdinalKey(n: nat): nat {
    n + 1
  }

  datatype Field = Missing | Unusable | Text(key: nat) {
    function Key(): nat {
      if Text? then key else 0
    }
  }

  datatype Quantity = Absent | NotANumber | Number(n: int)

  datatype RawMode = Dedicated | Unassigned | UnknownMode

  datatype RawItem = RawItem(
    extraFields: bool, recipient: Field, mode: RawMode, quantity: Quantity, device: Field, platform: Field,
    expiry: Option<nat>)

  predicate ItemOk(x: RawItem, platforms: set<nat>) {
    && !x.extraFields && x.recipient.Text?
    && match x.mode
       case Unassigned => x.device.Missing? && x.platform.Missing? && x.quantity.Number? && 1 <= x.quantity.n <= 100
       case Dedicated => x.quantity.Absent? && x.device.Text? && x.platform.Text? && x.platform.key in platforms
       case UnknownMode => false
  }

  /** What makes two items duplicates: recipient and device, or recipient and the mode name. */
  function KeyOf(x: RawItem): (nat, nat) {
    (x.recipient.Key(), if x.mode.Dedicated? then x.device.Key() else UNASSIGNED_KEY)
  }

  function Count(x: RawItem): nat {
    if x.mode == Unassigned && x.quantity.Number? && x.quantity.n > 0 then x.quantity.n else 1
  }

  function SlotAt(x: RawItem, item: nat, ordinal: nat, rootExpiry: nat): Slot
  {
    var expiry := if x.expiry.Some? then x.expiry.value else rootExpiry;
    if x.mode.Dedicated? then Slot(item, x.recipient.Key(), DedicatedDevice, ordinal, x.device.Key(), x.platform.Key(),
                                   expiry)
    else Slot(item, x.recipient.Key(), RecipientUnassigned, ordinal, OrdinalKey(ordinal), 0, expiry)
  }

  /** The first n slots of an item, numbered from one. */
  function SlotsOf(x: RawItem, item: nat, n: nat, rootExpiry: nat): (r: seq<Slot>)
    ensures |r| == n
  {
    if n == 0 then [] else SlotsOf(x, item, n - 1, rootExpiry) + [SlotAt(x, item, n, rootExpiry)]
  }

  function Expand(items: seq<RawItem>, rootExpiry: nat): seq<Slot>
  {
    if items == [] then []
    else
      var n := |items| - 1;
      Expand(items[..n], rootExpiry) + SlotsOf(items[n], n, Count(items[n]), rootExpiry)
  }

  predicate DistinctKeys(items: seq<RawItem>) {
    forall i, j :: 0 <= i < j < |items| ==> KeyOf(items[i]) != KeyOf(items[j])
  }

  predicate Acceptable(items: seq<RawItem>, platforms: set<nat>, rootExpiry: nat) {
    && 1 <= |items| <= MAX_MANIFEST_ITEMS
    && (forall i :: 0 <= i < |items| ==> ItemOk(items[i], platforms))
    && DistinctKeys(items)
    && |Expand(items, rootExpiry)| <= MAX_EXPANDED_SLOTS
  }

  /** None is the refusal of the manifest. */
  method Validate(items: seq<RawItem>, platforms: set<nat>, rootExpiry: nat) returns (r: Option<seq<Slot>>)
    ensures r == if Acceptable(items, platforms, rootExpiry) then Some(Expand(items, rootExpiry)) else None
  {
    if |items| < 1 || |items| > MAX_MANIFEST_ITEMS {
      return None;
    }
    var expanded: seq<Slot> := [];
    var seen: set<(nat, nat)> := {};
    for i := 0 to |items|
      invariant forall j :: 0 <= j < i ==> ItemOk(items[j], platforms)
      invariant expanded == Expand(items[..i], rootExpiry)
      invariant DistinctKeys(items[..i])
      invariant forall k :: k in seen <==> exists j :: 0 <= j < i && KeyOf(items[j]) == k
    {
      var x := items[i];
      assert items[..i + 1] == items[..i] + [x];
      if !ItemOk(x, platforms) {
        return None;
      }
      var key := KeyOf(x);
      ghost var before := seen;
      if key in seen {
        return None;
      }
      seen := seen + {key};
      forall k ensures k in seen <==> exists j :: 0 <= j < i + 1 && KeyOf(items[j]) == k {
        assert k in seen <==> k in before || k == KeyOf(items[i]);
      }
      var slots: seq<Slot> := [];
      for ordinal := 1 to Count(x) + 1
        invariant slots == SlotsOf(x, i, ordinal - 1, rootExpiry)
      {
        slots := slots + [SlotAt(x, i, ordinal, rootExpiry)];
      }
      assert items[..i + 1][..i] == items[..i];
      expanded := expanded + slots;
    }
    assert items[..|items|] == items;
    if |expanded| > MAX_EXPANDED_SLOTS {
      return None;
    }
    return Some(expanded);
  }

  function Total(items: seq<RawItem>): nat {
    if items == [] then 0 else Total(items[..|items| - 1]) + Count(items[|items| - 1])
  }

  /** The number of slots is the sum of the quantities. */
  lemma {:induction false} ExpansionSize(items: seq<RawItem>, rootExpiry: nat)
    ensures |Expand(items, rootExpiry)| == Total(items)
  {
    if items != [] {
      ExpansionSize(items[..|items| - 1], rootExpiry);
    }
  }

  lemma {:induction false} SlotsOfAt(x: RawItem, item: nat, n: nat, rootExpiry: nat, k: nat)
    requires k < n
    ensures SlotsOf(x, item, n, rootExpiry)[k] == SlotAt(x, item, k + 1, rootExpiry)
  {
    if k < n - 1 {
      SlotsOfAt(x, item, n - 1, rootExpiry, k);
    }
  }

  /** Where a slot comes from. */
  ghost predicate ComesFrom(items: seq<RawItem>, s: Slot, rootExpiry: nat) {
    && s.item < |items|
    && 1 <= s.sequence <= Count(items[s.item]) && s == SlotAt(items[s.item], s.item, s.sequence, rootExpiry)
  }

  ghost predicate AllComeFrom(items: seq<RawItem>, slots: seq<Slot>, rootExpiry: nat) {
    && (forall k :: 0 <= k < |slots| ==> ComesFrom(items, slots[k], rootExpiry))
    && (forall j, k :: 0 <= j < k < |slots|
          ==> slots[j].item != slots[k].item || slots[j].sequence != slots[k].sequence)
  }

  lemma {:induction false} ExpandedFrom(items: seq<RawItem>, rootExpiry: nat)
    ensures AllComeFrom(items, Expand(items, rootExpiry), rootExpiry)
  {
    if items != [] {
      var n := |items| - 1;
      var before := Expand(items[..n], rootExpiry);
      var tail := SlotsOf(items[n], n, Count(items[n]), rootExpiry);
      ExpandedFrom(items[..n], rootExpiry);
      forall k | 0 <= k < |tail| ensures tail[k] == SlotAt(items[n], n, k + 1, rootExpiry) {
        SlotsOfAt(items[n], n, Count(items[n]), rootExpiry, k);
      }
      forall k | 0 <= k < |before| ensures before[k].item < n && ComesFrom(items, before[k], rootExpiry) {
        assert ComesFrom(items[..n], before[k], rootExpiry);
      }
      var slots := before + tail;
      forall j, k | 0 <= j < k < |slots|
        ensures slots[j].item != slots[k].item || slots[j].sequence != slots[k].sequence
      {
        if k < |before| {
          assert slots[j] == before[j] && slots[k] == before[k];
        }
      }
    }
  }

  /** No two slots of an accepted manifest name the same recipient, mode, device and number. */
  lemma {:induction false} SlotsAreDistinct(items: seq<RawItem>, platforms: set<nat>, rootExpiry: nat, j: nat, k: nat)
    requires Acceptable(items, platforms, rootExpiry) && j < k < |Expand(items, rootExpiry)|
    ensures var s, t := Expand(items, rootExpiry)[j], Expand(items, rootExpiry)[k];
            (s.recipient, s.mode, s.device, s.sequence) != (t.recipient, t.mode, t.device, t.sequence)
  {
    var slots := Expand(items, rootExpiry);
    ExpandedFrom(items, rootExpiry);
    var s, t := slots[j], slots[k];
    assert ComesFrom(items, s, rootExpiry) && ComesFrom(items, t, rootExpiry);
    if s.item < t.item {
      assert KeyOf(items[s.item]) != KeyOf(items[t.item]);
    } else if t.item < s.item {
      assert KeyOf(items[t.item]) != KeyOf(items[s.item]);
    }
  }

  /** Two items for the same thing: a recipient's unassigned slots, or one device of a recipient. */
  predicate SameTarget(a: RawItem, b: RawItem) {
    && a.recipient.Key() == b.recipient.Key() && a.mode == b.mode
    && (a.mode == Dedicated ==> a.device.Key() == b.device.Key())
  }

  /** A recipient's unassigned slots beside his device with the label "recipient_unassigned". */
  predicate NameClash(a: RawItem, b: RawItem) {
    && a.recipient.Key() == b.recipient.Key()
    && ((a.mode == Unassigned && b.mode == Dedicated && b.device.Key() == UNASSIGNED_KEY)
        || (b.mode == Unassigned && a.mode == Dedicated && a.device.Key() == UNASSIGNED_KEY))
  }

  lemma DuplicatesExactly(a: RawItem, b: RawItem, platforms: set<nat>)
    requires ItemOk(a, platforms) && ItemOk(b, platforms)
    ensures KeyOf(a) == KeyOf(b) <==> SameTarget(a, b) || NameClash(a, b)
  {
  }

  /** What the duplicate check should refuse, and all else that a manifest has to meet. */
  predicate Reasonable(items: seq<RawItem>, platforms: set<nat>, rootExpiry: nat) {
    && 1 <= |items| <= MAX_MANIFEST_ITEMS && |Expand(items, rootExpiry)| <= MAX_EXPANDED_SLOTS
    && (forall i :: 0 <= i < |items| ==> ItemOk(items[i], platforms))
    && (forall i, j :: 0 <= i < j < |items| ==> !SameTarget(items[i], items[j]))
  }

  /** Everything accepted is reasonable, and something reasonable is refused exactly when two of its items clash by
      that name alone. */
  lemma {:induction false} FalseRefusalExactly(items: seq<RawItem>, platforms: set<nat>, rootExpiry: nat)
    ensures Acceptable(items, platforms, rootExpiry)
            <==> && Reasonable(items, platforms, rootExpiry)
                 && forall i, j :: 0 <= i < j < |items| ==> !NameClash(items[i], items[j])
  {
    hide Expand, KeyOf, SameTarget, NameClash, ItemOk;
    if forall i :: 0 <= i < |items| ==> ItemOk(items[i], platforms) {
      forall i, j | 0 <= i < j < |items|
        ensures KeyOf(items[i]) == KeyOf(items[j]) <==> SameTarget(items[i], items[j]) || NameClash(items[i], items[j])
      {
        DuplicatesExactly(items[i], items[j], platforms);
      }
    }
  }

  /** It happens: one unassigned slot and one device with that label, both in order. */
  lemma {:induction false} ModeNameCollides(platforms: set<nat>, rootExpiry: nat)
    requires 5 in platforms
    ensures var a := RawItem(false, Text(9), Unassigned, Number(1), Missing, Missing, None);
            var b := RawItem(false, Text(9), Dedicated, Absent, Text(UNASSIGNED_KEY), Text(5), None);
            Reasonable([a, b], platforms, rootExpiry) && !Acceptable([a, b], platforms, rootExpiry)
  {
    var a := RawItem(false, Text(9), Unassigned, Number(1), Missing, Missing, None);
    var b := RawItem(false, Text(9), Dedicated, Absent, Text(UNASSIGNED_KEY), Text(5), None);
    ExpansionSize([a, b], rootExpiry);
    assert [a, b][..1] == [a] && [a][..0] == [];
    assert Total([a]) == 1 && Total([a, b]) == 2;
    assert KeyOf([a, b][0]) == KeyOf([a, b][1]);
  }

  // ----- Items and slots field by field -----

  /** One device with a known platform and no quantity, or between 1 and 100 unassigned slots without device fields. */
  ghost predicate IsProper(x: RawItem, platforms: set<nat>) {
    && !x.extraFields && (exists r :: x.recipient == Text(r))
    && ((x.mode == Dedicated && x.quantity == Absent
         && (exists d :: x.device == Text(d)) && (exists p :: p in platforms && x.platform == Text(p)))
        || (x.mode == Unassigned && x.device == Missing && x.platform == Missing
            && exists q: int :: x.quantity == Number(q) && 1 <= q <= 100))
  }

  /** A manifest is refused exactly for its number of items or slots, an improper item, or two items that name the
      same target or clash by the mode's name. */
  lemma {:induction false} AcceptedExactly(items: seq<RawItem>, platforms: set<nat>, rootExpiry: nat)
    ensures Acceptable(items, platforms, rootExpiry)
            <==> && 1 <= |items| <= 100 && Total(items) <= 100
                 && (forall i :: 0 <= i < |items| ==> IsProper(items[i], platforms))
                 && forall i, j :: 0 <= i < j < |items|
                                   ==> !SameTarget(items[i], items[j]) && !NameClash(items[i], items[j])
  {
    hide Expand, KeyOf, SameTarget, NameClash, ItemOk, IsProper;
    FalseRefusalExactly(items, platforms, rootExpiry);
    ExpansionSize(items, rootExpiry);
    forall i | 0 <= i < |items| ensures ItemOk(items[i], platforms) <==> IsProper(items[i], platforms) {
      ProperIsOk(items[i], platforms);
    }
  }

  lemma ProperIsOk(x: RawItem, platforms: set<nat>)
    ensures ItemOk(x, platforms) <==> IsProper(x, platforms)
  {
  }

  /** What a slot takes from its item. */
  ghost predicate SlotOf(x: RawItem, s: Slot, rootExpiry: nat) {
    && x.recipient == Text(s.recipient) && s.expiry == (if x.expiry.Some? then x.expiry.value else rootExpiry)
    && (if x.mode == Dedicated
        then && s.mode == DedicatedDevice && s.sequence == 1
             && x.device == Text(s.device) && x.platform == Text(s.platform)
        else && s.mode == RecipientUnassigned && s.device == OrdinalKey(s.sequence)
             && x.quantity.Number? && 1 <= s.sequence <= x.quantity.n <= 100)
  }

  ghost predicate HasSlot(slots: seq<Slot>, item: nat, sequence: nat) {
    exists s :: s in slots && s.item == item && s.sequence == sequence
  }

  /** Every slot of an accepted manifest says what its item says, and every item has all its slots. */
  lemma {:induction false} SlotsSay(items: seq<RawItem>, platforms: set<nat>, rootExpiry: nat)
    requires Acceptable(items, platforms, rootExpiry)
    ensures forall s :: s in Expand(items, rootExpiry) ==> s.item < |items| && SlotOf(items[s.item], s, rootExpiry)
    ensures forall i: nat, n: nat ::
      i < |items| && 1 <= n <= (if items[i].mode == Dedicated then 1 else items[i].quantity.n)
      ==> HasSlot(Expand(items, rootExpiry), i, n)
  {
    hide Expand, HasSlot;
    ExpandedFrom(items, rootExpiry);
    var slots := Expand(items, rootExpiry);
    forall s | s in slots ensures s.item < |items| && SlotOf(items[s.item], s, rootExpiry) {
      var k :| 0 <= k < |slots| && slots[k] == s;
      assert ComesFrom(items, slots[k], rootExpiry);
    }
    forall i: nat, n: nat | i < |items| && 1 <= n <= (if items[i].mode == Dedicated then 1 else items[i].quantity.n)
      ensures HasSlot(slots, i, n)
    {
      SlotIsThere(items, i, n, rootExpiry);
      FoundSlot(slots, SlotAt(items[i], i, n, rootExpiry));
    }
  }

  lemma FoundSlot(slots: seq<Slot>, s: Slot)
    requires s in slots
    ensures HasSlot(slots, s.item, s.sequence)
  {
  }

  lemma {:induction false} SlotIsThere(items: seq<RawItem>, i: nat, n: nat, rootExpiry: nat)
    requires i < |items| && 1 <= n <= Count(items[i])
    ensures SlotAt(items[i], i, n, rootExpiry) in Expand(items, rootExpiry)
  {
    var last := |items| - 1;
    if i < last {
      SlotIsThere(items[..last], i, n, rootExpiry);
    } else {
      SlotsOfAt(items[last], last, Count(items[last]), rootExpiry, n - 1);
    }
  }
}
