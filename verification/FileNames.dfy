/** The file names of issued configs: which one a batch proposes for a slot, which one a completed receipt keeps, and
    exactly when the two are the same. */
module FileNames {
  import opened Basics
  import opened Database
  import Identity
  import Text

  /** The texts behind the keys, and the transliteration of the file names. */
  datatype Naming = Naming(userLabel: nat -> string, deviceLabel: nat -> string, ascii: string -> string)

  /** The file name that the batch proposes for a slot: a device's comes without the device's id. */
  function ProposedName(n: Naming, s: Slot): Option<string> {
    NameOf(if s.mode == RecipientUnassigned
           then Identity.BuildUnassignedSlotIdentity(n.userLabel(s.recipient), s.sequence, n.ascii)
           else Identity.BuildConfigIdentity(n.userLabel(s.recipient), n.deviceLabel(s.device), None, n.ascii))
  }

  /** The file name that a creation returned and its completed receipt keeps: a device's carries the device's id. */
  function CompletedName(n: Naming, r: Receipt): Option<string> {
    NameOf(if r.slot.mode == RecipientUnassigned
           then Identity.BuildConfigIdentity(n.userLabel(r.slot.recipient), Identity.TwoDigits(r.slot.sequence), None,
                                             n.ascii)
           else Identity.BuildConfigIdentity(n.userLabel(r.slot.recipient), n.deviceLabel(r.slot.device),
                                             if r.device.Some? then Some(r.device.value) else None, n.ascii))
  }

  function NameOf(identity: Option<Identity.ConfigIdentity>): Option<string> {
    if identity.Some? then Some(identity.value.filename) else None
  }

  predicate IsCompletedFor(r: Receipt, user: nat) {
    r.user == user && r.status == Completed
  }

  function StoredNames(db: Db, n: Naming, user: nat): set<Option<string>> {
    set k | k in db.receipts && IsCompletedFor(db.receipts[k], user) :: CompletedName(n, db.receipts[k])
  }

  /** No name can be built for a slot of a known recipient, or he has a completed file of that name already. */
  predicate Collides(db: Db, slots: seq<Slot>, names: Naming, recipient: nat) {
    recipient in db.labels
    && exists i :: 0 <= i < |slots| && slots[i].recipient == recipient
         && (ProposedName(names, slots[i]).None?
             || ProposedName(names, slots[i]) in StoredNames(db, names, db.labels[recipient]))
  }

  ghost predicate NoCollision(db: Db, slots: seq<Slot>, names: Naming) {
    forall i :: 0 <= i < |slots| ==> !Collides(db, slots, names, slots[i].recipient)
  }

  lemma NamedWhenUnpadded(n: Naming, s: Slot)
    requires s.mode == RecipientUnassigned && 1 <= s.sequence <= 100
    requires n.userLabel(s.recipient) != "" && Text.Unpadded(n.userLabel(s.recipient))
    ensures ProposedName(n, s).Some?
  {
    hide Identity.BuildUnassignedSlotIdentity, Text.Strip, Text.Unpadded;
    Text.StripOfUnpadded(n.userLabel(s.recipient));
    Identity.SlotIsNamedExactly(n.userLabel(s.recipient), s.sequence, n.ascii);
  }

  // ----- When a proposed name is taken -----

  function UserPart(n: Naming, recipient: nat): string {
    Identity.RecipientComponent(n.userLabel(recipient), n.ascii)
  }

  function DevicePart(n: Naming, s: Slot): string {
    if s.mode == RecipientUnassigned then Identity.TwoDigits(s.sequence)
    else Identity.DeviceComponent(n.deviceLabel(s.device), n.ascii)
  }

  predicate IsNumbered(r: Receipt) {
    r.slot.mode != RecipientUnassigned && r.device.Some? && r.device.value > 0
  }

  /** What tells the files of devices apart. */
  function IdSuffix(r: Receipt): string {
    if IsNumbered(r) then Identity.Suffix(Some(r.device.value)) else ""
  }

  /** A creation could name the file: an unassigned slot, or a device with a label and an id of at most 70 digits. */
  predicate HasName(n: Naming, r: Receipt) {
    r.slot.mode == RecipientUnassigned
    || (IsNumbered(r) && |IdSuffix(r)| <= 72 && Text.Strip(n.deviceLabel(r.slot.device)) != "")
  }

  /** What is left of the two names, once they are cut to their length and trimmed, is the same. */
  predicate SameFile(n: Naming, s: Slot, r: Receipt) {
    && HasName(n, r)
    && (assert |IdSuffix(r)| <= 72;
        var user := UserPart(n, s.recipient);
        Identity.Stem(user, DevicePart(n, s), "")
        == Identity.Stem(user, DevicePart(n, r.slot), IdSuffix(r)) + IdSuffix(r))
  }

  /** What completed receipts of one recipient look like. */
  ghost predicate CompletedFor(db: Db, user: nat, recipient: nat) {
    forall k :: k in db.receipts && IsCompletedFor(db.receipts[k], user) ==> CompletedLike(db.receipts[k], recipient)
  }

  predicate CompletedLike(r: Receipt, recipient: nat) {
    && r.slot.recipient == recipient
    && (if r.slot.mode == RecipientUnassigned then 1 <= r.slot.sequence <= 100 else r.device.Some?)
  }

  lemma SlotPart(n: Naming, s: Slot)
    requires Identity.KeepsAscii(n.ascii) && s.mode == RecipientUnassigned && 1 <= s.sequence <= 100
    ensures Text.Strip(Identity.TwoDigits(s.sequence)) == Identity.TwoDigits(s.sequence) != ""
    ensures Identity.Component(n.ascii(Identity.TwoDigits(s.sequence)), "device") == DevicePart(n, s)
  {
    hide Identity.Component, Identity.TwoDigits, Text.Strip;
    Identity.TwoDigitsShape(s.sequence);
    Identity.DigitsStay(Identity.TwoDigits(s.sequence), n.ascii);
  }

  lemma ProposedNameIs(n: Naming, s: Slot)
    requires Identity.KeepsAscii(n.ascii) && ProposedName(n, s).Some?
    ensures s.mode == RecipientUnassigned ==> 1 <= s.sequence <= 100
    ensures Text.Strip(n.userLabel(s.recipient)) != ""
    ensures ProposedName(n, s).value == Identity.Filename(UserPart(n, s.recipient), DevicePart(n, s), "")
  {
    hide Identity.BuildConfigIdentity, Identity.Component, Identity.Filename, Identity.TwoDigits, Text.Strip;
    if s.mode == RecipientUnassigned {
      SlotPart(n, s);
      Identity.IsNamedExactly(n.userLabel(s.recipient), Identity.TwoDigits(s.sequence), None, n.ascii);
    } else {
      Identity.IsNamedExactly(n.userLabel(s.recipient), n.deviceLabel(s.device), None, n.ascii);
    }
  }

  lemma CompletedNameIs(n: Naming, r: Receipt)
    requires Identity.KeepsAscii(n.ascii) && CompletedLike(r, r.slot.recipient)
    requires Text.Strip(n.userLabel(r.slot.recipient)) != ""
    ensures CompletedName(n, r).Some? <==> HasName(n, r)
    ensures HasName(n, r) ==>
      && |IdSuffix(r)| <= 72
      && CompletedName(n, r).value
         == Identity.Filename(UserPart(n, r.slot.recipient), DevicePart(n, r.slot), IdSuffix(r))
  {
    hide Identity.BuildConfigIdentity, Identity.Component, Identity.Filename, Identity.TwoDigits, Text.Strip,
      Identity.Decimal;
    var user := n.userLabel(r.slot.recipient);
    if r.slot.mode == RecipientUnassigned {
      SlotPart(n, r.slot);
      Identity.IsNamedExactly(user, Identity.TwoDigits(r.slot.sequence), None, n.ascii);
    } else {
      var id: Option<int> := if r.device.Some? then Some(r.device.value) else None;
      Identity.IsNamedExactly(user, n.deviceLabel(r.slot.device), id, n.ascii);
    }
  }

  lemma SameNameExactly(n: Naming, s: Slot, r: Receipt)
    requires Identity.KeepsAscii(n.ascii) && ProposedName(n, s).Some? && CompletedLike(r, s.recipient)
    ensures ProposedName(n, s) == CompletedName(n, r) <==> SameFile(n, s, r)
  {
    hide ProposedName, CompletedName, HasName, UserPart, DevicePart, IdSuffix, Identity.Filename, Identity.Stem;
    ProposedNameIs(n, s);
    CompletedNameIs(n, r);
    if HasName(n, r) {
      var user := UserPart(n, s.recipient);
      Identity.SameFilename(user, DevicePart(n, s), "", user, DevicePart(n, r.slot), IdSuffix(r));
      assert Identity.Stem(user, DevicePart(n, s), "") + "" == Identity.Stem(user, DevicePart(n, s), "");
    }
  }

  ghost predicate IsTaken(db: Db, n: Naming, s: Slot, user: nat) {
    exists k :: k in db.receipts && IsCompletedFor(db.receipts[k], user) && SameFile(n, s, db.receipts[k])
  }

  /** A slot is refused for its name exactly if a completed receipt of the recipient has the same file. */
  lemma {:induction false} CollidesExactly(db: Db, n: Naming, s: Slot, user: nat)
    requires Identity.KeepsAscii(n.ascii) && ProposedName(n, s).Some? && CompletedFor(db, user, s.recipient)
    ensures ProposedName(n, s) in StoredNames(db, n, user) <==> IsTaken(db, n, s, user)
  {
    hide ProposedName, CompletedName, SameFile, CompletedLike;
    forall k | k in db.receipts && IsCompletedFor(db.receipts[k], user)
      ensures ProposedName(n, s) == CompletedName(n, db.receipts[k]) <==> SameFile(n, s, db.receipts[k])
    {
      SameNameExactly(n, s, db.receipts[k]);
    }
  }

  /** A batch collides for a known recipient exactly if one of its slots for him has no name or one that is taken. */
  lemma {:induction false} BatchCollidesExactly(db: Db, slots: seq<Slot>, n: Naming, recipient: nat)
    requires Identity.KeepsAscii(n.ascii)
    requires recipient in db.labels ==> CompletedFor(db, db.labels[recipient], recipient)
    ensures Collides(db, slots, n, recipient)
            <==> && recipient in db.labels
                 && exists s :: s in slots && s.recipient == recipient
                                && (ProposedName(n, s).None? || IsTaken(db, n, s, db.labels[recipient]))
  {
    hide ProposedName, StoredNames, IsTaken, CompletedFor, Identity.KeepsAscii;
    if recipient in db.labels {
      forall s | s in slots && s.recipient == recipient && ProposedName(n, s).Some?
        ensures ProposedName(n, s) in StoredNames(db, n, db.labels[recipient])
                <==> IsTaken(db, n, s, db.labels[recipient])
      {
        CollidesExactly(db, n, s, db.labels[recipient]);
      }
    }
  }

  // ----- What the same file means -----

  /** Nothing is cut off the name of the receipt's file. */
  predicate Fits(n: Naming, r: Receipt) {
    |UserPart(n, r.slot.recipient)| + |DevicePart(n, r.slot)| + |IdSuffix(r)| <= 74
  }

  /** Two unassigned slots have the same file exactly if the same digits of their numbers are left. */
  lemma {:induction false} SlotsCollideExactly(n: Naming, s: Slot, r: Receipt)
    requires s.mode == r.slot.mode == RecipientUnassigned && 1 <= s.sequence <= 100 && CompletedLike(r, s.recipient)
    ensures var user := UserPart(n, s.recipient);
            SameFile(n, s, r) <==> Identity.Visible(user, s.sequence) == Identity.Visible(user, r.slot.sequence)
  {
    hide Identity.Stem, Identity.Visible, UserPart, Identity.TwoDigits;
    var user := UserPart(n, s.recipient);
    Identity.SlotsNamedAlikeExactly(user, s.sequence, r.slot.sequence);
    assert Identity.Stem(user, DevicePart(n, r.slot), "") + "" == Identity.Stem(user, DevicePart(n, r.slot), "");
  }

  /** An unassigned slot whose recipient's part has at most 71 characters never has the file of a device. */
  lemma SlotIsNoDevice(n: Naming, s: Slot, r: Receipt)
    requires Identity.KeepsAscii(n.ascii) && ProposedName(n, s).Some? && CompletedLike(r, s.recipient)
    requires s.mode == RecipientUnassigned != r.slot.mode && |UserPart(n, s.recipient)| <= 71
    ensures !SameFile(n, s, r)
  {
    hide SameFile, Identity.BuildConfigIdentity, Identity.KeepsAscii, Identity.RecipientComponent, HasName;
    SameNameExactly(n, s, r);
    if CompletedName(n, r).Some? {
      var user := n.userLabel(s.recipient);
      Identity.SlotsAndDevicesDiffer(
        user, s.sequence, n.ascii, user, n.deviceLabel(r.slot.device), r.device.value, n.ascii);
    }
  }

  /** Uncut, a device has the file of an unassigned slot exactly if its label reads like the number, and that of an
      earlier device exactly if its label reads like the earlier one's with the suffix for its id. */
  lemma {:induction false} DeviceCollidesWith(n: Naming, s: Slot, r: Receipt)
    requires s.mode != RecipientUnassigned && CompletedLike(r, s.recipient) && Fits(n, r)
    requires |UserPart(n, s.recipient)| + |DevicePart(n, s)| <= 74
    ensures SameFile(n, s, r) <==> HasName(n, r) && DevicePart(n, s) == DevicePart(n, r.slot) + IdSuffix(r)
  {
    hide Identity.Stem, Identity.Filename, UserPart, DevicePart, IdSuffix, Identity.EndsPlainly;
    var user := UserPart(n, s.recipient);
    PartEndsPlainly(n, s);
    PartEndsPlainly(n, r.slot);
    if HasName(n, r) {
      SuffixFits(n, r);
      Identity.SameFilename(user, DevicePart(n, s), "", user, DevicePart(n, r.slot), IdSuffix(r));
      FitsExactly(user, DevicePart(n, s), DevicePart(n, r.slot), r);
      assert Identity.Stem(user, DevicePart(n, s), "") + "" == Identity.Stem(user, DevicePart(n, s), "");
    }
  }

  /** A repeated label is not found: uncut, a device never has the file of an earlier one of the same label. */
  lemma {:induction false} RepeatedLabelIsNotFound(n: Naming, s: Slot, r: Receipt)
    requires s.mode != RecipientUnassigned && IsNumbered(r) && CompletedLike(r, s.recipient) && Fits(n, r)
    requires DevicePart(n, s) == DevicePart(n, r.slot)
    ensures !SameFile(n, s, r)
  {
    hide SameFile, UserPart, DevicePart, Identity.Decimal;
    DeviceCollidesWith(n, s, r);
    assert IdSuffix(r) != "";
    assert |DevicePart(n, r.slot) + IdSuffix(r)| > |DevicePart(n, s)|;
  }

  lemma FitsExactly(user: string, device1: string, device2: string, r: Receipt)
    requires Identity.EndsPlainly(device1) && Identity.EndsPlainly(device2) && |IdSuffix(r)| <= 72
    requires |user| + |device1| <= 74 && |user| + |device2| + |IdSuffix(r)| <= 74
    ensures Identity.Filename(user, device1, "") == Identity.Filename(user, device2, IdSuffix(r))
            <==> device1 == device2 + IdSuffix(r)
  {
    hide Identity.Filename, Identity.EndsPlainly, Identity.Suffix, Identity.BRAND;
    if IsNumbered(r) {
      Identity.UnnumberedNameExactly(user, device1, device2, r.device.value);
    } else {
      Identity.UnsuffixedNameExactly(user, device1, device2);
    }
  }

  lemma SuffixFits(n: Naming, r: Receipt)
    requires HasName(n, r)
    ensures |IdSuffix(r)| <= 72
  {
  }

  lemma PartEndsPlainly(n: Naming, s: Slot)
    requires s.mode == RecipientUnassigned ==> 1 <= s.sequence <= 100
    ensures Identity.EndsPlainly(DevicePart(n, s))
  {
    hide Identity.TwoDigits, Identity.Component;
    if s.mode == RecipientUnassigned {
      Identity.TwoDigitsShape(s.sequence);
    } else {
      Identity.ComponentEnds(n.ascii(Text.Strip(n.deviceLabel(s.device))), "device");
    }
  }

  // ----- For whole ledgers -----

  predicate HasCompletedSlot(db: Db, user: nat, number: nat) {
    exists k :: k in db.receipts && IsCompletedFor(db.receipts[k], user)
                && db.receipts[k].slot.mode == RecipientUnassigned && db.receipts[k].slot.sequence == number
  }

  /** The recipient has a completed device whose label, with the suffix for its id, reads like the given one. */
  predicate HasCompletedDevice(db: Db, n: Naming, user: nat, part: string) {
    exists k :: k in db.receipts && IsCompletedFor(db.receipts[k], user)
                && IsNumbered(db.receipts[k]) && HasName(n, db.receipts[k])
                && part == DevicePart(n, db.receipts[k].slot) + IdSuffix(db.receipts[k])
  }

  /** An unassigned slot is refused exactly for a completed receipt with the same file; while the recipient's part has
      at most 71 characters, that is a completed unassigned slot of the same number. */
  lemma {:induction false} SlotCollidesExactly(db: Db, n: Naming, s: Slot, user: nat)
    requires Identity.KeepsAscii(n.ascii) && s.mode == RecipientUnassigned && ProposedName(n, s).Some?
    requires CompletedFor(db, user, s.recipient)
    ensures ProposedName(n, s) in StoredNames(db, n, user) <==> IsTaken(db, n, s, user)
    ensures |UserPart(n, s.recipient)| <= 71 ==> (IsTaken(db, n, s, user) <==> HasCompletedSlot(db, user, s.sequence))
  {
    hide ProposedName, SameFile, CompletedLike, UserPart, StoredNames;
    CollidesExactly(db, n, s, user);
    if |UserPart(n, s.recipient)| <= 71 {
      forall k | k in db.receipts && IsCompletedFor(db.receipts[k], user)
        ensures SameFile(n, s, db.receipts[k])
                <==> db.receipts[k].slot.mode == RecipientUnassigned && db.receipts[k].slot.sequence == s.sequence
      {
        SlotMatches(n, s, db.receipts[k]);
      }
    }
  }

  lemma SlotMatches(n: Naming, s: Slot, r: Receipt)
    requires Identity.KeepsAscii(n.ascii) && ProposedName(n, s).Some? && CompletedLike(r, s.recipient)
    requires s.mode == RecipientUnassigned && |UserPart(n, s.recipient)| <= 71
    ensures SameFile(n, s, r) <==> r.slot.mode == RecipientUnassigned && r.slot.sequence == s.sequence
  {
    hide ProposedName, SameFile, UserPart, Identity.Visible;
    ProposedNameIs(n, s);
    if r.slot.mode != RecipientUnassigned {
      SlotIsNoDevice(n, s, r);
    } else {
      SlotsCollideExactly(n, s, r);
      var user := UserPart(n, s.recipient);
      if s.sequence < r.slot.sequence {
        Identity.VisibleIs(user, s.sequence, r.slot.sequence);
      } else if r.slot.sequence < s.sequence {
        Identity.VisibleIs(user, r.slot.sequence, s.sequence);
      }
    }
  }

  /** The label of a device reads like the number of the receipt's slot, or like the receipt's label and id. */
  predicate ReadsLike(n: Naming, s: Slot, r: Receipt) {
    if r.slot.mode == RecipientUnassigned then DevicePart(n, s) == Identity.TwoDigits(r.slot.sequence)
    else IsNumbered(r) && HasName(n, r) && DevicePart(n, s) == DevicePart(n, r.slot) + IdSuffix(r)
  }

  lemma DeviceMatches(n: Naming, s: Slot, r: Receipt)
    requires s.mode != RecipientUnassigned && CompletedLike(r, s.recipient) && Fits(n, r)
    requires |UserPart(n, s.recipient)| + |DevicePart(n, s)| <= 74
    ensures SameFile(n, s, r) <==> ReadsLike(n, s, r)
  {
    hide SameFile, UserPart, Fits, Identity.TwoDigits, Identity.DeviceComponent, Identity.Suffix, Text.Strip;
    DeviceCollidesWith(n, s, r);
    if r.slot.mode == RecipientUnassigned {
      assert DevicePart(n, r.slot) + IdSuffix(r) == Identity.TwoDigits(r.slot.sequence);
    }
  }

  lemma ReadsLikeSome(db: Db, n: Naming, s: Slot, user: nat)
    ensures (exists k :: k in db.receipts && IsCompletedFor(db.receipts[k], user) && ReadsLike(n, s, db.receipts[k]))
            <==> (exists i: nat :: HasCompletedSlot(db, user, i) && DevicePart(n, s) == Identity.TwoDigits(i))
                 || HasCompletedDevice(db, n, user, DevicePart(n, s))
  {
    hide Identity.TwoDigits, IsCompletedFor, HasName, IdSuffix;
    forall k | k in db.receipts && IsCompletedFor(db.receipts[k], user)
               && db.receipts[k].slot.mode == RecipientUnassigned
      ensures HasCompletedSlot(db, user, db.receipts[k].slot.sequence)
    {
    }
  }

  /** A device is refused exactly for a completed receipt with the same file; while nothing is cut off, that is a
      completed unassigned slot whose number reads like the label, or a completed device whose label with the suffix
      for its id does. */
  lemma {:induction false} DeviceCollidesExactly(db: Db, n: Naming, s: Slot, user: nat)
    requires Identity.KeepsAscii(n.ascii) && s.mode != RecipientUnassigned && ProposedName(n, s).Some?
    requires CompletedFor(db, user, s.recipient)
    ensures ProposedName(n, s) in StoredNames(db, n, user) <==> IsTaken(db, n, s, user)
    ensures |UserPart(n, s.recipient)| + |DevicePart(n, s)| <= 74
            && (forall k :: k in db.receipts && IsCompletedFor(db.receipts[k], user) ==> Fits(n, db.receipts[k]))
            ==> (IsTaken(db, n, s, user)
                 <==> (exists i: nat :: HasCompletedSlot(db, user, i) && DevicePart(n, s) == Identity.TwoDigits(i))
                      || HasCompletedDevice(db, n, user, DevicePart(n, s)))
  {
    hide ProposedName, SameFile, UserPart, DevicePart, StoredNames, ReadsLike, IsCompletedFor, CompletedLike, Fits,
      HasCompletedSlot, HasCompletedDevice, Identity.TwoDigits;
    CollidesExactly(db, n, s, user);
    ReadsLikeSome(db, n, s, user);
    if |UserPart(n, s.recipient)| + |DevicePart(n, s)| <= 74
       && forall k :: k in db.receipts && IsCompletedFor(db.receipts[k], user) ==> Fits(n, db.receipts[k])
    {
      forall k | k in db.receipts && IsCompletedFor(db.receipts[k], user)
        ensures SameFile(n, s, db.receipts[k]) <==> ReadsLike(n, s, db.receipts[k])
      {
        DeviceMatches(n, s, db.receipts[k]);
      }
    }
  }

  // ----- A label that ends like an id -----

  const EXAMPLE_NAMING := Naming(x => "Ann", d => if d == 1 then "Phone" else "Phone-d5", s => s)
  const EARLIER := Receipt(3, Slot(0, 1, DedicatedDevice, 1, 1, 0, 0), 7, Completed, Some(5), Some(0), NoError)
  const LATER := Slot(0, 1, DedicatedDevice, 1, 2, 0, 0)

  lemma ExampleParts()
    ensures UserPart(EXAMPLE_NAMING, 1) == "Ann"
    ensures DevicePart(EXAMPLE_NAMING, EARLIER.slot) == "Phone" && DevicePart(EXAMPLE_NAMING, LATER) == "Phone-d5"
    ensures Text.Strip("Ann") != "" && Text.Strip("Phone") != "" && Text.Strip("Phone-d5") != ""
    ensures IdSuffix(EARLIER) == "-d5"
  {
    hide Identity.Component, Text.Strip;
    assert Identity.Upper("Ann") == "ANN";
    Identity.WordStays("Ann", "user");
    Identity.WordStays("Phone", "device");
    Identity.PairStays("Phone", "d5", "device");
    assert "Phone" + "-" + "d5" == "Phone-d5";
    assert Identity.Decimal(5) == "5";
  }

  lemma ExampleReadsLike(db: Db)
    requires db.receipts == map[ReceiptKey(0, 0) := EARLIER]
    ensures HasCompletedDevice(db, EXAMPLE_NAMING, 7, DevicePart(EXAMPLE_NAMING, LATER))
    ensures CompletedFor(db, 7, 1)
    ensures |UserPart(EXAMPLE_NAMING, 1)| + |DevicePart(EXAMPLE_NAMING, LATER)| <= 74
    ensures forall k :: k in db.receipts ==> Fits(EXAMPLE_NAMING, db.receipts[k])
  {
    hide UserPart, DevicePart, IdSuffix, Text.Strip;
    ExampleParts();
    assert "Phone" + "-d5" == "Phone-d5";
    assert db.receipts[ReceiptKey(0, 0)] == EARLIER;
  }

  lemma DeviceIsNamed(n: Naming, s: Slot)
    requires s.mode != RecipientUnassigned
    requires Text.Strip(n.userLabel(s.recipient)) != "" && Text.Strip(n.deviceLabel(s.device)) != ""
    ensures ProposedName(n, s).Some?
  {
    hide Identity.BuildConfigIdentity, Text.Strip;
    Identity.IsNamedExactly(n.userLabel(s.recipient), n.deviceLabel(s.device), None, n.ascii);
  }

  lemma ExampleIsNamed()
    ensures ProposedName(EXAMPLE_NAMING, LATER).Some?
  {
    hide ProposedName, UserPart, DevicePart, IdSuffix, Text.Strip;
    ExampleParts();
    DeviceIsNamed(EXAMPLE_NAMING, LATER);
  }

  /** Device 5 is completed under the label "Phone"; a new device with the label "Phone-d5" is refused. */
  lemma {:induction false} LabelLikeAnId(db: Db)
    requires 1 in db.labels && db.labels[1] == 7 && db.receipts == map[ReceiptKey(0, 0) := EARLIER]
    ensures ProposedName(EXAMPLE_NAMING, LATER).Some? && Collides(db, [LATER], EXAMPLE_NAMING, 1)
  {
    hide ProposedName, UserPart, DevicePart, StoredNames, IsTaken, Fits, HasCompletedDevice, CompletedFor;
    ExampleIsNamed();
    ExampleReadsLike(db);
    KeepsAll();
    DeviceCollidesExactly(db, EXAMPLE_NAMING, LATER, 7);
    assert [LATER][0] == LATER;
  }

  lemma KeepsAll()
    ensures Identity.KeepsAscii(EXAMPLE_NAMING.ascii)
  {
  }
}
