/**
 The desktop device registry of src/backend/espflash.rs: logical devices, each with the port it was last found
 at, reconciled with scans of the machine's serial ports.
 */
module Registry {
  import opened Mux
  import opened Device

  datatype Identity =
    | Usb(vid: nat, pid: nat, serial: Option<string>, manufacturer: Option<string>, product: Option<string>)
    | AddressBound(kind: string, address: string)

  /** A descriptor; details stands for the parts no decision looks at. */
  datatype Descriptor = Descriptor(
    id: string,
    details: string,
    generation: Option<nat>,
    availability: Availability,
    activity: Activity)

  datatype Scanned = Scanned(descriptor: Descriptor, port: string, usb: string, identity: Identity)

  datatype Entry = Entry(descriptor: Descriptor, port: string, usb: string, identity: Identity, generation: nat)

  const MAX_DISCOVERED_DEVICES := 64

  predicate Strong(i: Identity) {
    i.Usb? && i.serial.Some? && i.serial.value != ""
  }

  /** is_strong_match. */
  predicate StrongMatch(a: Identity, b: Identity) {
    && a.Usb? && b.Usb? && a.serial.Some? && b.serial.Some?
    && a.serial.value != "" && b.serial.value != ""
    && a.vid == b.vid && a.pid == b.pid && a.serial.value == b.serial.value
    && a.manufacturer == b.manufacturer && a.product == b.product
  }

  lemma StrongMatchIsEquality(a: Identity, b: Identity)
    ensures StrongMatch(a, b) <==> Strong(a) && a == b
  {
  }

  // ---------- locators ----------

  datatype Kind = Callout | Dialin

  datatype Alias = Alias(kind: Kind, name: string)

  const CALLOUT := "/dev/cu."
  const DIALIN := "/dev/tty."

  predicate HasPrefix(s: string, p: string) {
    |p| <= |s| && s[..|p|] == p
  }

  function MacosAlias(address: string): Option<Alias> {
    if HasPrefix(address, CALLOUT) then Some(Alias(Callout, address[|CALLOUT|..]))
    else if HasPrefix(address, DIALIN) then Some(Alias(Dialin, address[|DIALIN|..]))
    else None
  }

  function KindOf(address: string): Option<Kind> {
    match MacosAlias(address)
    case Some(a) => Some(a.kind)
    case None => None
  }

  function GroupKey(address: string): string {
    match MacosAlias(address)
    case Some(a) => "macos:" + a.name
    case None => "address:" + address
  }

  /** A locator group holds one port, or the callout and the dial-in port of one name. */
  lemma SameGroup(a: string, b: string)
    ensures GroupKey(a) == GroupKey(b) <==>
              a == b || (MacosAlias(a).Some? && MacosAlias(b).Some?
                         && MacosAlias(a).value.name == MacosAlias(b).value.name)
    ensures GroupKey(a) == GroupKey(b) && KindOf(a) == KindOf(b) ==> a == b
  {
    var x, y := GroupKey(a), GroupKey(b);
    if MacosAlias(a).Some? && MacosAlias(b).Some? {
      assert x[6..] == MacosAlias(a).value.name && y[6..] == MacosAlias(b).value.name;
      if x == y && KindOf(a) == KindOf(b) {
        var p := if KindOf(a).value.Callout? then CALLOUT else DIALIN;
        assert a == p + a[|p|..] && b == p + b[|p|..];
      }
    } else if MacosAlias(a).None? && MacosAlias(b).None? {
      assert x[8..] == a && y[8..] == b;
    } else {
      assert x[0] != y[0];
    }
  }

  // ---------- looking through a scan ----------

  function AtPort(scan: seq<Scanned>, port: string): (r: Option<nat>)
    ensures r.Some? ==> r.value < |scan| && scan[r.value].port == port
    ensures r.None? ==> forall i :: 0 <= i < |scan| ==> scan[i].port != port
  {
    if scan == [] then None
    else
      var n := |scan| - 1;
      var earlier := AtPort(scan[..n], port);
      if earlier.Some? then earlier else if scan[n].port == port then Some(n) else None
  }

  function StrongMatches(identity: Identity, scan: seq<Scanned>): (r: seq<Scanned>)
    ensures forall c :: c in r <==> c in scan && StrongMatch(identity, c.identity)
  {
    if scan == [] then []
    else
      var n := |scan| - 1;
      StrongMatches(identity, scan[..n]) + if StrongMatch(identity, scan[n].identity) then [scan[n]] else []
  }

  function Groups(candidates: seq<Scanned>): set<string> {
    set i | 0 <= i < |candidates| :: GroupKey(candidates[i].port)
  }

  /** The first candidate of a kind. */
  function OfKind(candidates: seq<Scanned>, kind: Kind): (r: Option<Scanned>)
    ensures r.Some? ==> r.value in candidates && KindOf(r.value.port) == Some(kind)
    ensures r.None? ==> forall c :: c in candidates ==> KindOf(c.port) != Some(kind)
  {
    if candidates == [] then None
    else
      var n := |candidates| - 1;
      var earlier := OfKind(candidates[..n], kind);
      if earlier.Some? then earlier
      else if KindOf(candidates[n].port) == Some(kind) then Some(candidates[n]) else None
  }

  /** select_locator_alias. */
  function SelectAlias(previous: string, candidates: seq<Scanned>): (r: Option<Scanned>)
    ensures r.Some? ==> r.value in candidates
  {
    match KindOf(previous)
    case Some(kind) => OfKind(candidates, kind)
    case None => if |candidates| == 1 then Some(candidates[0]) else None
  }

  // ---------- reconciling ----------

  function WithAvailability(e: Entry, availability: Availability): Entry {
    e.(descriptor := e.descriptor.(availability := availability))
  }

  /** The record of a candidate, under its own id, activity and generation. */
  function Renewed(e: Entry, c: Scanned): Entry {
    e.(descriptor := c.descriptor.(id := e.descriptor.id, activity := e.descriptor.activity,
                                   generation := Some(e.generation), availability := Available))
  }

  function Adopted(e: Entry, c: Scanned): Entry {
    Entry(c.descriptor.(id := e.descriptor.id, activity := e.descriptor.activity,
                        generation := Some(e.generation + 1), availability := Available),
          c.port, c.usb, c.identity, e.generation + 1)
  }

  function Reconciled(e: Entry, scan: seq<Scanned>): Entry {
    var found := AtPort(scan, e.port);
    var matches := StrongMatches(e.identity, scan);
    if found.Some? then
      if scan[found.value].identity == e.identity then
        if |Groups(matches)| > 1 then WithAvailability(e, Ambiguous) else Renewed(e, scan[found.value])
      else WithAvailability(e, IdentityMismatch)
    else if |Groups(matches)| == 0 then WithAvailability(e, Disconnected)
    else if |Groups(matches)| == 1 then
      var chosen := SelectAlias(e.port, matches);
      if chosen.Some? then Adopted(e, chosen.value) else WithAvailability(e, Disconnected)
    else WithAvailability(e, Ambiguous)
  }

  predicate DistinctPorts(scan: seq<Scanned>) {
    forall i, j :: 0 <= i < j < |scan| ==> scan[i].port != scan[j].port
  }

  /** Logical id and physical identity last, and the generation counts the changes of port. */
  lemma ReconcileKeepsIdentity(e: Entry, scan: seq<Scanned>)
    ensures var r := Reconciled(e, scan);
            && r.descriptor.id == e.descriptor.id && r.identity == e.identity
            && r.generation == e.generation + (if r.port != e.port then 1 else 0)
            && (KindOf(e.port).Some? ==> KindOf(r.port) == KindOf(e.port))
            && (r.port != e.port ==> Strong(e.identity))
            && r.descriptor.activity == e.descriptor.activity
  {
    var matches := StrongMatches(e.identity, scan);
    var chosen := SelectAlias(e.port, matches);
    if chosen.Some? {
      assert chosen.value in matches;
      StrongMatchIsEquality(e.identity, chosen.value.identity);
      assert chosen.value in scan;
    }
  }

  /** A record is available exactly when the scan has its identity at one locator group and at its (new) port. */
  predicate Located(identity: Identity, port: string, scan: seq<Scanned>) {
    && (exists i :: 0 <= i < |scan| && scan[i].port == port && scan[i].identity == identity)
    && |Groups(StrongMatches(identity, scan))| <= 1
  }

  lemma AvailableIsLocated(e: Entry, scan: seq<Scanned>)
    ensures var r := Reconciled(e, scan);
            r.descriptor.availability == Available ==> Located(e.identity, r.port, scan)
  {
    var matches := StrongMatches(e.identity, scan);
    var chosen := SelectAlias(e.port, matches);
    if AtPort(scan, e.port).None? && chosen.Some? {
      assert chosen.value in matches;
      StrongMatchIsEquality(e.identity, chosen.value.identity);
      assert chosen.value in scan;
    }
  }

  /** Conversely, a record that the scan has at its port stays there and is available. */
  lemma LocatedIsAvailable(e: Entry, scan: seq<Scanned>)
    requires DistinctPorts(scan) && Located(e.identity, e.port, scan)
    ensures var r := Reconciled(e, scan);
            r.descriptor.availability == Available && r.port == e.port && r.generation == e.generation
  {
    var i :| 0 <= i < |scan| && scan[i].port == e.port && scan[i].identity == e.identity;
    var found := AtPort(scan, e.port);
    assert found == Some(i);
  }

  /** Reconciling twice with one scan is reconciling once. */
  lemma ReconcileIsIdempotent(e: Entry, scan: seq<Scanned>)
    requires DistinctPorts(scan)
    ensures Reconciled(Reconciled(e, scan), scan) == Reconciled(e, scan)
  {
    var r := Reconciled(e, scan);
    var matches := StrongMatches(e.identity, scan);
    var chosen := SelectAlias(e.port, matches);
    if AtPort(scan, e.port).None? && |Groups(matches)| == 1 && chosen.Some? {
      assert chosen.value in matches;
      StrongMatchIsEquality(e.identity, chosen.value.identity);
      assert chosen.value in scan;
      var k :| 0 <= k < |scan| && scan[k] == chosen.value;
      assert AtPort(scan, chosen.value.port) == Some(k);
      assert r == Adopted(e, scan[k]);
      assert Renewed(r, scan[k]) == r;
    }
  }

  // ---------- discovery ----------

  function Less(a: string, b: string): bool {
    if a == "" then b != ""
    else if b == "" then false
    else if a[0] != b[0] then a[0] < b[0]
    else Less(a[1..], b[1..])
  }

  function InsertKey(keys: seq<string>, key: string): (r: seq<string>)
    ensures forall k :: k in r <==> k in keys || k == key
  {
    if keys == [] then [key]
    else if key == keys[0] then keys
    else if Less(key, keys[0]) then [key] + keys
    else [keys[0]] + InsertKey(keys[1..], key)
  }

  /** The keys of the USB locator groups, in the order of a sorted map. */
  function UsbKeys(scan: seq<Scanned>): (r: seq<string>)
    ensures forall k :: k in r <==> exists i :: 0 <= i < |scan| && scan[i].identity.Usb? && GroupKey(scan[i].port) == k
  {
    if scan == [] then []
    else
      var n := |scan| - 1;
      var before := UsbKeys(scan[..n]);
      assert forall i :: 0 <= i < n ==> scan[..n][i] == scan[i];
      if scan[n].identity.Usb? then InsertKey(before, GroupKey(scan[n].port)) else before
  }

  function Candidates(scan: seq<Scanned>, key: string): (r: seq<Scanned>)
    ensures forall c :: c in r <==> c in scan && c.identity.Usb? && GroupKey(c.port) == key
  {
    if scan == [] then []
    else
      var n := |scan| - 1;
      Candidates(scan[..n], key) + if scan[n].identity.Usb? && GroupKey(scan[n].port) == key then [scan[n]] else []
  }

  /** The callout port of a group, or else its first port. */
  function Pick(candidates: seq<Scanned>): (r: Scanned)
    requires candidates != []
    ensures r in candidates
    ensures if exists c :: c in candidates && KindOf(c.port) == Some(Callout) then KindOf(r.port) == Some(Callout)
            else r == candidates[0]
  {
    var callout := OfKind(candidates, Callout);
    if callout.Some? then callout.value else candidates[0]
  }

  predicate Represents(e: Entry, c: Scanned) {
    || (e.identity == c.identity && GroupKey(e.port) == GroupKey(c.port))
    || StrongMatch(e.identity, c.identity)
  }

  function Claimed(c: Scanned): Entry {
    Entry(c.descriptor.(generation := Some(0)), c.port, c.usb, c.identity, 0)
  }

  type Entries = map<string, Entry>

  predicate Represented(records: Entries, c: Scanned) {
    exists id :: id in records && Represents(records[id], c)
  }

  function Claim(records: Entries, c: Scanned): Entries {
    if Represented(records, c) || c.descriptor.id in records then records else records[c.descriptor.id := Claimed(c)]
  }

  predicate Grouped(scan: seq<Scanned>, keys: seq<string>) {
    forall i :: 0 <= i < |keys| ==> Candidates(scan, keys[i]) != []
  }

  /** Goes through the groups until 64 devices are known. */
  function ClaimAll(records: Entries, scan: seq<Scanned>, keys: seq<string>): Entries
    requires Grouped(scan, keys)
  {
    if keys == [] then records
    else
      var n := |keys| - 1;
      var before := ClaimAll(records, scan, keys[..n]);
      if |before| >= MAX_DISCOVERED_DEVICES then before else Claim(before, Pick(Candidates(scan, keys[n])))
  }

  function AllReconciled(records: Entries, scan: seq<Scanned>): Entries {
    map id | id in records :: Reconciled(records[id], scan)
  }

  lemma UsbKeysAreGrouped(scan: seq<Scanned>)
    ensures Grouped(scan, UsbKeys(scan))
  {
    var keys := UsbKeys(scan);
    forall j | 0 <= j < |keys| ensures Candidates(scan, keys[j]) != [] {
      assert keys[j] in keys;
      var i :| 0 <= i < |scan| && scan[i].identity.Usb? && GroupKey(scan[i].port) == keys[j];
      assert scan[i] in Candidates(scan, keys[j]);
    }
  }

  /** discover_from_scan. */
  function Discovered(records: Entries, scan: seq<Scanned>): Entries {
    UsbKeysAreGrouped(scan);
    AllReconciled(ClaimAll(AllReconciled(records, scan), scan, UsbKeys(scan)), scan)
  }

  function Refreshed(records: Entries, id: string, scan: seq<Scanned>): Entries {
    if id in records then records[id := Reconciled(records[id], scan)] else records
  }

  // ---------- what the registry keeps ----------

  /** Two records are for different hardware, or at least for different locator groups. */
  predicate Apart(a: Entry, b: Entry) {
    !StrongMatch(a.identity, b.identity) && (a.identity == b.identity ==> GroupKey(a.port) != GroupKey(b.port))
  }

  predicate AllApart(records: Entries) {
    forall i, j :: i in records && j in records && i != j ==> Apart(records[i], records[j])
  }

  predicate OwnIds(records: Entries) {
    forall i :: i in records ==> records[i].descriptor.id == i
  }

  predicate RegistryInv(records: Entries) {
    |records| <= MAX_DISCOVERED_DEVICES && AllApart(records) && OwnIds(records)
  }

  lemma ReconcileKeepsApart(a: Entry, b: Entry, a': Entry, b': Entry, scan: seq<Scanned>)
    requires Apart(a, b)
    requires a' == a || a' == Reconciled(a, scan)
    requires b' == b || b' == Reconciled(b, scan)
    ensures Apart(a', b')
  {
    hide Reconciled;
    hide GroupKey;
    ReconcileKeepsIdentity(a, scan);
    ReconcileKeepsIdentity(b, scan);
    StrongMatchIsEquality(a.identity, b.identity);
  }

  lemma AllReconciledKeeps(records: Entries, scan: seq<Scanned>)
    requires RegistryInv(records)
    ensures RegistryInv(AllReconciled(records, scan)) && AllReconciled(records, scan).Keys == records.Keys
  {
    hide Reconciled;
    hide Apart;
    var r := AllReconciled(records, scan);
    forall i, j | i in r && j in r && i != j ensures Apart(r[i], r[j]) {
      ReconcileKeepsApart(records[i], records[j], r[i], r[j], scan);
    }
    forall i | i in r ensures r[i].descriptor.id == i {
      ReconcileKeepsIdentity(records[i], scan);
    }
    assert r.Keys == records.Keys;
    assert |r| == |r.Keys| && |records| == |records.Keys|;
  }

  lemma ClaimKeeps(records: Entries, c: Scanned)
    requires RegistryInv(records) && |records| < MAX_DISCOVERED_DEVICES
    ensures RegistryInv(Claim(records, c))
  {
    hide GroupKey;
    var r := Claim(records, c);
    if r != records {
      forall i, j | i in r && j in r && i != j ensures Apart(r[i], r[j]) {
        if i in records && j in records && i != c.descriptor.id && j != c.descriptor.id {
          assert Apart(records[i], records[j]);
        } else if i != c.descriptor.id {
          assert !Represents(records[i], c);
        } else {
          assert !Represents(records[j], c);
        }
      }
      assert r.Keys == records.Keys + {c.descriptor.id};
      assert |r| == |r.Keys| && |records| == |records.Keys|;
    }
  }

  lemma {:induction false} ClaimAllKeeps(records: Entries, scan: seq<Scanned>, keys: seq<string>)
    requires RegistryInv(records) && Grouped(scan, keys)
    ensures RegistryInv(ClaimAll(records, scan, keys))
  {
    hide RegistryInv;
    hide Claim;
    if keys != [] {
      var n := |keys| - 1;
      var before := ClaimAll(records, scan, keys[..n]);
      ClaimAllKeeps(records, scan, keys[..n]);
      if |before| < MAX_DISCOVERED_DEVICES {
        ClaimKeeps(before, Pick(Candidates(scan, keys[n])));
      }
    }
  }

  lemma DiscoverKeeps(records: Entries, scan: seq<Scanned>)
    requires RegistryInv(records)
    ensures RegistryInv(Discovered(records, scan))
  {
    hide RegistryInv;
    hide ClaimAll;
    hide AllReconciled;
    hide UsbKeys;
    UsbKeysAreGrouped(scan);
    AllReconciledKeeps(records, scan);
    ClaimAllKeeps(AllReconciled(records, scan), scan, UsbKeys(scan));
    AllReconciledKeeps(ClaimAll(AllReconciled(records, scan), scan, UsbKeys(scan)), scan);
  }

  lemma RefreshKeeps(records: Entries, id: string, scan: seq<Scanned>)
    requires RegistryInv(records)
    ensures RegistryInv(Refreshed(records, id, scan))
  {
    hide Reconciled;
    hide Apart;
    if id in records {
      var r := Refreshed(records, id, scan);
      forall i, j | i in r && j in r && i != j ensures Apart(r[i], r[j]) {
        ReconcileKeepsApart(records[i], records[j], r[i], r[j], scan);
      }
      ReconcileKeepsIdentity(records[id], scan);
      assert r.Keys == records.Keys;
      assert |r| == |r.Keys| && |records| == |records.Keys|;
    }
  }

  // ---------- ports ----------

  predicate Shares(a: Entry, b: Entry) {
    a.descriptor.availability == Available && b.descriptor.availability == Available && a.port == b.port
  }

  predicate NoSharedPort(records: Entries) {
    forall i, j :: i in records && j in records && i != j ==> !Shares(records[i], records[j])
  }

  /** Records reconciled with one scan never share a port while they are available. */
  lemma OneScanOnePort(a: Entry, b: Entry, scan: seq<Scanned>)
    requires DistinctPorts(scan) && Apart(a, b)
    ensures !Shares(Reconciled(a, scan), Reconciled(b, scan))
  {
    hide Reconciled;
    hide GroupKey;
    var a', b' := Reconciled(a, scan), Reconciled(b, scan);
    ReconcileKeepsIdentity(a, scan);
    ReconcileKeepsIdentity(b, scan);
    ReconcileKeepsApart(a, b, a', b', scan);
    AvailableIsLocated(a, scan);
    AvailableIsLocated(b, scan);
    if Shares(a', b') {
      OneIdentityPerPort(a.identity, b.identity, a'.port, scan);
    }
  }

  lemma OneIdentityPerPort(a: Identity, b: Identity, port: string, scan: seq<Scanned>)
    requires DistinctPorts(scan) && Located(a, port, scan) && Located(b, port, scan)
    ensures a == b
  {
    var i :| 0 <= i < |scan| && scan[i].port == port && scan[i].identity == a;
    var j :| 0 <= j < |scan| && scan[j].port == port && scan[j].identity == b;
    assert i == j;
  }

  lemma DiscoverSharesNoPort(records: Entries, scan: seq<Scanned>)
    requires RegistryInv(records) && DistinctPorts(scan)
    ensures NoSharedPort(Discovered(records, scan))
  {
    hide Reconciled;
    hide UsbKeys;
    hide Apart;
    hide Shares;
    UsbKeysAreGrouped(scan);
    AllReconciledKeeps(records, scan);
    ClaimAllKeeps(AllReconciled(records, scan), scan, UsbKeys(scan));
    var claimed := ClaimAll(AllReconciled(records, scan), scan, UsbKeys(scan));
    hide ClaimAll;
    forall i, j | i in claimed && j in claimed && i != j
      ensures !Shares(Reconciled(claimed[i], scan), Reconciled(claimed[j], scan))
    {
      OneScanOnePort(claimed[i], claimed[j], scan);
    }
  }

  /** Where a scan finds a record's device, if it does so beyond doubt. */
  function Target(e: Entry, scan: seq<Scanned>): Option<string> {
    var found := AtPort(scan, e.port);
    var matches := StrongMatches(e.identity, scan);
    if |Groups(matches)| > 1 then None
    else if found.Some? then (if scan[found.value].identity == e.identity then Some(e.port) else None)
    else
      var chosen := SelectAlias(e.port, matches);
      if |matches| > 0 && chosen.Some? then Some(chosen.value.port) else None
  }

  lemma GroupsOfSome(matches: seq<Scanned>)
    ensures |Groups(matches)| == 0 <==> matches == []
  {
    if matches != [] {
      assert GroupKey(matches[0].port) in Groups(matches);
    }
  }

  lemma ReconcileFindsTarget(e: Entry, scan: seq<Scanned>)
    ensures Reconciled(e, scan).descriptor.availability == Available <==> Target(e, scan).Some?
    ensures Target(e, scan).Some? ==> Reconciled(e, scan).port == Target(e, scan).value
    ensures Target(e, scan).None? ==> Reconciled(e, scan).port == e.port
  {
    GroupsOfSome(StrongMatches(e.identity, scan));
  }

  /**
   From any registry, refreshing one record leaves no shared port exactly if the others share none and no other
   available record is held at the port where the scan finds the record's device.
   */
  lemma RefreshSharesPortIff(records: Entries, id: string, scan: seq<Scanned>)
    requires id in records
    ensures NoSharedPort(Refreshed(records, id, scan)) <==>
              && NoSharedPort(records - {id})
              && forall j :: j in records && j != id && records[j].descriptor.availability == Available ==>
                   Target(records[id], scan) != Some(records[j].port)
  {
    hide Reconciled;
    hide Target;
    ReconcileFindsTarget(records[id], scan);
    var r, others := Refreshed(records, id, scan), records - {id};
    if NoSharedPort(r) {
      forall i, j | i in others && j in others && i != j ensures !Shares(others[i], others[j]) {
        assert !Shares(r[i], r[j]);
      }
      forall j | j in records && j != id && records[j].descriptor.availability == Available
        ensures Target(records[id], scan) != Some(records[j].port)
      {
        assert !Shares(r[id], r[j]);
      }
    } else {
      var i, j :| i in r && j in r && i != j && Shares(r[i], r[j]);
      if i != id && j != id {
        assert i in others && j in others && Shares(others[i], others[j]);
      }
    }
  }

  // ---------- the Registry class ----------

  lemma {:induction false} FirstAtPort(scan: seq<Scanned>, i: nat, port: string)
    requires i < |scan| && scan[i].port == port && AtPort(scan[..i], port) == None
    ensures AtPort(scan, port) == Some(i)
    decreases |scan|
  {
    var n := |scan| - 1;
    if i < n {
      assert scan[..n][..i] == scan[..i];
      FirstAtPort(scan[..n], i, port);
    }
  }

  method FindPort(scan: seq<Scanned>, port: string) returns (r: Option<nat>)
    ensures r == AtPort(scan, port)
  {
    for i := 0 to |scan|
      invariant AtPort(scan[..i], port) == None
    {
      assert scan[..i + 1][..i] == scan[..i];
      if scan[i].port == port {
        FirstAtPort(scan, i, port);
        return Some(i);
      }
    }
    assert scan[..|scan|] == scan;
    return None;
  }

  /** The strong matches, and the locator groups they are in. */
  method FindMatches(scan: seq<Scanned>, identity: Identity) returns (matches: seq<Scanned>, groups: set<string>)
    ensures matches == StrongMatches(identity, scan) && groups == Groups(matches)
  {
    hide StrongMatch;
    hide GroupKey;
    matches, groups := [], {};
    for i := 0 to |scan|
      invariant matches == StrongMatches(identity, scan[..i]) && groups == Groups(matches)
    {
      assert scan[..i + 1][..i] == scan[..i];
      if StrongMatch(identity, scan[i].identity) {
        GroupsPush(matches, scan[i]);
        groups := groups + {GroupKey(scan[i].port)};
        matches := matches + [scan[i]];
      }
    }
    assert scan[..|scan|] == scan;
  }

  lemma GroupsPush(matches: seq<Scanned>, c: Scanned)
    ensures Groups(matches + [c]) == Groups(matches) + {GroupKey(c.port)}
  {
    hide GroupKey;
    var more := matches + [c];
    forall key ensures key in Groups(more) <==> key in Groups(matches) || key == GroupKey(c.port) {
      if key in Groups(matches) {
        var i :| 0 <= i < |matches| && GroupKey(matches[i].port) == key;
        assert more[i] == matches[i];
      }
      assert more[|matches|] == c;
    }
  }

  class Registry {
    var records: Entries

    constructor ()
      ensures records == map[] && RegistryInv(records)
    {
      records := map[];
    }

    method Adopt(id: string, c: Scanned)
      requires id in records
      modifies this
      ensures records == old(records)[id := Adopted(old(records)[id], c)]
    {
      var record := records[id];
      var activity := record.descriptor.activity;
      var own := record.descriptor.id;
      record := record.(descriptor := c.descriptor);
      record := record.(descriptor := record.descriptor.(id := own, availability := Available, activity := activity));
      record := record.(port := c.port, usb := c.usb, identity := c.identity, generation := record.generation + 1);
      record := record.(descriptor := record.descriptor.(generation := Some(record.generation)));
      records := records[id := record];
    }

    method SetAvailability(id: string, availability: Availability)
      requires id in records
      modifies this
      ensures records == old(records)[id := WithAvailability(old(records)[id], availability)]
    {
      var record := records[id];
      records := records[id := record.(descriptor := record.descriptor.(availability := availability))];
    }

    /** reconcile_record. */
    method Reconcile(id: string, scan: seq<Scanned>)
      requires id in records
      modifies this
      ensures records == old(records)[id := Reconciled(old(records)[id], scan)]
    {
      var record := records[id];
      var found := FindPort(scan, record.port);
      var matches, groups := FindMatches(scan, record.identity);
      if found.Some? {
        var candidate := scan[found.value];
        if candidate.identity == record.identity {
          if |groups| > 1 {
            SetAvailability(id, Ambiguous);
            return;
          }
          var activity := record.descriptor.activity;
          var own := record.descriptor.id;
          record := record.(descriptor := candidate.descriptor);
          record := record.(descriptor := record.descriptor.(id := own, activity := activity,
                                                             generation := Some(record.generation),
                                                             availability := Available));
          records := records[id := record];
        } else {
          SetAvailability(id, IdentityMismatch);
        }
        return;
      }
      if |groups| == 0 {
        SetAvailability(id, Disconnected);
      } else if |groups| == 1 {
        var chosen := SelectAlias(record.port, matches);
        if chosen.Some? {
          Adopt(id, chosen.value);
        } else {
          SetAvailability(id, Disconnected);
        }
      } else {
        SetAvailability(id, Ambiguous);
      }
    }

    method ReconcileAll(scan: seq<Scanned>)
      modifies this
      ensures records == AllReconciled(old(records), scan)
    {
      hide Reconciled;
      var pending := records.Keys;
      while pending != {}
        invariant records.Keys == old(records).Keys && pending <= records.Keys
        invariant forall i :: i in records ==>
                    records[i] == if i in pending then old(records)[i] else Reconciled(old(records)[i], scan)
        decreases |pending|
      {
        var id :| id in pending;
        Reconcile(id, scan);
        pending := pending - {id};
      }
    }

    method Discover(scan: seq<Scanned>)
      requires RegistryInv(records)
      modifies this
      ensures records == Discovered(old(records), scan) && RegistryInv(records)
      ensures DistinctPorts(scan) ==> NoSharedPort(records)
    {
      hide Reconciled;
      hide RegistryInv;
      hide NoSharedPort;
      hide DistinctPorts;
      hide UsbKeys;
      hide Claim;
      hide Candidates;
      hide Grouped;
      hide ClaimAll;
      hide AllReconciled;
      UsbKeysAreGrouped(scan);
      DiscoverKeeps(records, scan);
      if DistinctPorts(scan) {
        DiscoverSharesNoPort(records, scan);
      }
      ghost var before := records;
      ReconcileAll(scan);
      ClaimGroups(scan);
      ReconcileAll(scan);
      assert records == Discovered(before, scan);
    }

    /** The loop of discover over the locator groups. */
    method ClaimGroups(scan: seq<Scanned>)
      requires Grouped(scan, UsbKeys(scan))
      modifies this
      ensures records == ClaimAll(old(records), scan, UsbKeys(scan))
    {
      hide UsbKeys;
      hide Claim;
      hide Candidates;
      var keys := UsbKeys(scan);
      for i := 0 to |keys|
        invariant records == ClaimAll(old(records), scan, keys[..i])
      {
        assert keys[..i + 1][..i] == keys[..i];
        if |records| >= MAX_DISCOVERED_DEVICES {
          NoMoreClaims(old(records), scan, keys, i);
          return;
        }
        var candidate := Pick(Candidates(scan, keys[i]));
        InsertClaim(candidate);
      }
      assert keys[..|keys|] == keys;
    }

    method InsertClaim(c: Scanned)
      modifies this
      ensures records == Claim(old(records), c)
    {
      hide Represents;
      var represented := exists id :: id in records && Represents(records[id], c);
      if represented || c.descriptor.id in records {
        return;
      }
      records := records[c.descriptor.id := Claimed(c)];
    }

    method Refresh(id: string, scan: seq<Scanned>) returns (known: bool)
      requires RegistryInv(records)
      modifies this
      ensures known == (id in old(records))
      ensures records == Refreshed(old(records), id, scan) && RegistryInv(records)
    {
      hide Reconciled;
      hide RegistryInv;
      RefreshKeeps(records, id, scan);
      known := id in records;
      if known {
        Reconcile(id, scan);
      }
    }
  }

  lemma {:induction false} NoMoreClaims(records: Entries, scan: seq<Scanned>, keys: seq<string>, i: nat)
    requires Grouped(scan, keys) && i <= |keys| && |ClaimAll(records, scan, keys[..i])| >= MAX_DISCOVERED_DEVICES
    ensures ClaimAll(records, scan, keys) == ClaimAll(records, scan, keys[..i])
    decreases |keys|
  {
    hide ClaimAll;
    hide Candidates;
    if i == |keys| {
      assert keys[..i] == keys;
    } else {
      var n := |keys| - 1;
      assert keys[..n][..i] == keys[..i];
      NoMoreClaims(records, scan, keys[..n], i);
      ClaimStops(records, scan, keys);
    }
  }

  lemma ClaimStops(records: Entries, scan: seq<Scanned>, keys: seq<string>)
    requires Grouped(scan, keys) && keys != []
    requires |ClaimAll(records, scan, keys[..|keys| - 1])| >= MAX_DISCOVERED_DEVICES
    ensures ClaimAll(records, scan, keys) == ClaimAll(records, scan, keys[..|keys| - 1])
  {
    hide Claim;
    hide Candidates;
  }

  // ---------- runs ----------

  datatype Event = Discovers(scan: seq<Scanned>) | Refreshes(id: string, scan: seq<Scanned>)

  function Happen(records: Entries, e: Event): Entries {
    match e
    case Discovers(scan) => Discovered(records, scan)
    case Refreshes(id, scan) => Refreshed(records, id, scan)
  }

  /** The registry after some scans, starting empty. */
  function RegistryAfter(events: seq<Event>): Entries {
    if events == [] then map[] else Happen(RegistryAfter(events[..|events| - 1]), events[|events| - 1])
  }

  lemma {:induction false} RunKeeps(events: seq<Event>)
    ensures RegistryInv(RegistryAfter(events))
  {
    hide RegistryInv;
    hide Discovered;
    hide Refreshed;
    if events == [] {
      EmptyRegistry();
    } else {
      var before := RegistryAfter(events[..|events| - 1]);
      RunKeeps(events[..|events| - 1]);
      match events[|events| - 1] {
        case Discovers(scan) => DiscoverKeeps(before, scan);
        case Refreshes(id, scan) => RefreshKeeps(before, id, scan);
      }
    }
  }

  lemma EmptyRegistry()
    ensures RegistryInv(map[])
  {
  }

  /**
   Over every sequence of scans: at most 64 records, at most one for each strong identity, and after a discovery
   no two available records share a port.
   */
  lemma RegistryIsSound(events: seq<Event>)
    ensures var r := RegistryAfter(events);
            && |r| <= 64
            && (forall i, j :: i in r && j in r && i != j && Strong(r[i].identity) ==> r[i].identity != r[j].identity)
    ensures events != [] && events[|events| - 1].Discovers? && DistinctPorts(events[|events| - 1].scan) ==>
              NoSharedPort(RegistryAfter(events))
  {
    hide Discovered;
    hide Refreshed;
    hide GroupKey;
    RunKeeps(events);
    var r := RegistryAfter(events);
    forall i, j | i in r && j in r && i != j && Strong(r[i].identity) ensures r[i].identity != r[j].identity {
      assert Apart(r[i], r[j]);
    }
    if events != [] && events[|events| - 1].Discovers? && DistinctPorts(events[|events| - 1].scan) {
      RunKeeps(events[..|events| - 1]);
      DiscoverSharesNoPort(RegistryAfter(events[..|events| - 1]), events[|events| - 1].scan);
    }
  }

  // ---------- a run that ends with a shared port ----------

  const WEAK := Usb(1, 1, None, None, None)
  const STRONG := Usb(1, 1, Some("x"), None, None)
  const HERE := "/dev/cu.p"

  function Seen(id: string, port: string, identity: Identity): Scanned {
    Scanned(Descriptor(id, "", None, Available, Idle), port, "", identity)
  }

  lemma PortGroups()
    ensures KindOf(HERE) == Some(Callout) && KindOf("q") == None
    ensures Less(GroupKey("q"), GroupKey(HERE)) && GroupKey("q") != GroupKey(HERE)
  {
    assert GroupKey("q")[0] == 'a' && GroupKey(HERE)[0] == 'm';
  }

  lemma TwoGroups(scan: seq<Scanned>)
    requires scan == [Seen("a", HERE, WEAK), Seen("b", "q", STRONG)]
    ensures UsbKeys(scan) == [GroupKey("q"), GroupKey(HERE)]
    ensures Candidates(scan, GroupKey("q")) == [scan[1]] && Candidates(scan, GroupKey(HERE)) == [scan[0]]
  {
    PortGroups();
    hide GroupKey;
    hide Less;
    assert scan[..1] == [scan[0]] && scan[..1][..0] == [];
    assert UsbKeys(scan[..1]) == [GroupKey(HERE)];
    assert Candidates(scan[..1], GroupKey(HERE)) == [scan[0]] && Candidates(scan[..1], GroupKey("q")) == [];
  }

  lemma LastClaim(records: Entries, scan: seq<Scanned>, keys: seq<string>, c: Scanned)
    requires Grouped(scan, keys) && keys != [] && Candidates(scan, keys[|keys| - 1]) == [c]
    requires |ClaimAll(records, scan, keys[..|keys| - 1])| < MAX_DISCOVERED_DEVICES
    ensures ClaimAll(records, scan, keys) == Claim(ClaimAll(records, scan, keys[..|keys| - 1]), c)
  {
    hide Candidates;
    hide Claim;
    PickOne(c);
  }

  lemma NoClaims(records: Entries, scan: seq<Scanned>)
    ensures ClaimAll(records, scan, []) == records
  {
  }

  /** Devices of different identities do not represent each other. */
  lemma ClaimsOther(records: Entries, c: Scanned)
    requires forall id :: id in records ==> records[id].identity != c.identity && id != c.descriptor.id
    ensures Claim(records, c) == records[c.descriptor.id := Claimed(c)]
  {
    hide StrongMatch;
    hide GroupKey;
    forall id | id in records ensures !Represents(records[id], c) {
      StrongMatchIsEquality(records[id].identity, c.identity);
    }
  }

  lemma BothClaimed(scan: seq<Scanned>, keys: seq<string>, c: Scanned, e: Scanned)
    requires |keys| == 2 && Candidates(scan, keys[0]) == [c] && Candidates(scan, keys[1]) == [e]
    requires c.identity != e.identity && c.descriptor.id != e.descriptor.id
    ensures Grouped(scan, keys)
    ensures ClaimAll(map[], scan, keys) == map[c.descriptor.id := Claimed(c)][e.descriptor.id := Claimed(e)]
  {
    hide Candidates;
    hide ClaimAll;
    hide Claim;
    var first := keys[..1];
    assert first[..0] == [];
    NoClaims(map[], scan);
    LastClaim(map[], scan, first, c);
    ClaimsOther(map[], c);
    LastClaim(map[], scan, keys, e);
    ClaimsOther(map[c.descriptor.id := Claimed(c)], e);
  }

  /** Two devices without a record are both taken up. */
  lemma TwoClaims(scan: seq<Scanned>)
    requires scan == [Seen("a", HERE, WEAK), Seen("b", "q", STRONG)]
    ensures Grouped(scan, UsbKeys(scan))
    ensures ClaimAll(map[], scan, UsbKeys(scan)) == map["a" := Claimed(scan[0]), "b" := Claimed(scan[1])]
  {
    TwoGroups(scan);
    hide GroupKey;
    hide Candidates;
    hide UsbKeys;
    hide ClaimAll;
    hide Grouped;
    assert scan[1].descriptor.id[0] != scan[0].descriptor.id[0];
    BothClaimed(scan, UsbKeys(scan), scan[1], scan[0]);
  }

  lemma PickOne(c: Scanned)
    ensures Pick([c]) == c
  {
  }

  lemma FoundOnce(scan: seq<Scanned>, i: nat)
    requires scan == [Seen("a", HERE, WEAK), Seen("b", "q", STRONG)] && i < 2
    ensures DistinctPorts(scan)
    ensures Reconciled(Claimed(scan[i]), scan).descriptor.availability == Available
    ensures Reconciled(Claimed(scan[i]), scan).port == scan[i].port
    ensures Reconciled(Claimed(scan[i]), scan).identity == scan[i].identity
  {
    hide GroupKey;
    assert HERE[0] != "q"[0];
    var e := Claimed(scan[i]);
    var matches := StrongMatches(e.identity, scan);
    assert scan[..1] == [scan[0]] && scan[..1][..0] == [];
    assert StrongMatches(e.identity, scan[..1]) == [];
    assert matches == if i == 1 then [scan[1]] else [];
    OneGroup(matches);
    ReconcileKeepsIdentity(e, scan);
    hide StrongMatches;
    hide Reconciled;
    LocatedIsAvailable(e, scan);
  }

  lemma OneGroup(matches: seq<Scanned>)
    requires |matches| <= 1
    ensures |Groups(matches)| == |matches|
  {
    hide GroupKey;
    if |matches| == 1 {
      assert Groups(matches) == {GroupKey(matches[0].port)};
    } else {
      assert Groups(matches) == {};
    }
  }

  lemma MovedTarget(e: Entry, scan: seq<Scanned>)
    requires |scan| == 1 && scan[0].port == HERE && e.port == "q" && scan[0].identity == e.identity == STRONG
    ensures Target(e, scan) == Some(HERE)
  {
    var matches := StrongMatches(e.identity, scan);
    assert scan[..0] == [];
    assert StrongMatches(e.identity, scan[..0]) == [];
    assert matches == [scan[0]];
    OneGroup(matches);
    assert KindOf("q") == None;
    assert HERE[0] != "q"[0];
    assert AtPort(scan, "q").None?;
  }

  lemma TwoDevices(scan: seq<Scanned>)
    requires scan == [Seen("a", HERE, WEAK), Seen("b", "q", STRONG)]
    ensures var r := RegistryAfter([Discovers(scan)]);
            && r.Keys == {"a", "b"}
            && r["a"].descriptor.availability == Available && r["a"].port == HERE
            && r["b"].port == "q" && r["b"].identity == STRONG
  {
    hide Reconciled;
    hide UsbKeys;
    hide ClaimAll;
    var events := [Discovers(scan)];
    assert events[..0] == [];
    assert AllReconciled(map[], scan) == map[];
    TwoClaims(scan);
    FoundOnce(scan, 0);
    FoundOnce(scan, 1);
  }

  /** The registry before the refresh, and after the discovery that follows it. */
  lemma BeforeAndAfter(first: seq<Scanned>, scan: seq<Scanned>)
    requires first == [Seen("a", HERE, WEAK), Seen("b", "q", STRONG)] && scan == [Seen("b", HERE, STRONG)]
    ensures NoSharedPort(RegistryAfter([Discovers(first)]))
    ensures NoSharedPort(RegistryAfter([Discovers(first), Refreshes("b", scan), Discovers(scan)]))
  {
    hide RegistryAfter;
    hide NoSharedPort;
    FoundOnce(first, 0);
    RegistryIsSound([Discovers(first)]);
    RegistryIsSound([Discovers(first), Refreshes("b", scan), Discovers(scan)]);
  }

  /**
   It happens: a device moves to the port of one that is gone, and only the moved one is refreshed. The next
   discovery ends it.
   */
  lemma RefreshCanSharePort() returns (events: seq<Event>)
    ensures forall i :: 0 <= i < |events| ==> DistinctPorts(events[i].scan)
    ensures events != [] && events[|events| - 1].Refreshes?
    ensures NoSharedPort(RegistryAfter(events[..|events| - 1])) && !NoSharedPort(RegistryAfter(events))
    ensures NoSharedPort(RegistryAfter(events + [Discovers(events[|events| - 1].scan)]))
  {
    hide RegistryAfter;
    hide NoSharedPort;
    hide Reconciled;
    var first := [Seen("a", HERE, WEAK), Seen("b", "q", STRONG)];
    var scan := [Seen("b", HERE, STRONG)];
    events := [Discovers(first), Refreshes("b", scan)];
    assert events[..1] == [Discovers(first)];
    assert events + [Discovers(scan)] == [Discovers(first), Refreshes("b", scan), Discovers(scan)];
    FoundOnce(first, 0);
    TwoDevices(first);
    BeforeAndAfter(first, scan);
    MovesToPort(RegistryAfter(events[..1]), scan);
    AfterRefresh(events);
  }

  lemma AfterRefresh(events: seq<Event>)
    requires events != [] && events[|events| - 1].Refreshes?
    ensures var e := events[|events| - 1];
            RegistryAfter(events) == Refreshed(RegistryAfter(events[..|events| - 1]), e.id, e.scan)
  {
    hide Refreshed;
    hide Discovered;
  }

  lemma MovesToPort(records: Entries, scan: seq<Scanned>)
    requires records.Keys == {"a", "b"} && scan == [Seen("b", HERE, STRONG)]
    requires records["a"].descriptor.availability == Available && records["a"].port == HERE
    requires records["b"].port == "q" && records["b"].identity == STRONG
    ensures !NoSharedPort(Refreshed(records, "b", scan))
  {
    MovedTarget(records["b"], scan);
    hide Target;
    hide Refreshed;
    hide NoSharedPort;
    RefreshSharesPortIff(records, "b", scan);
    assert "a" in records && Target(records["b"], scan) == Some(records["a"].port);
  }

  lemma {:induction false} ClaimAllAdds(records: Entries, scan: seq<Scanned>, keys: seq<string>, id: string)
    requires Grouped(scan, keys) && id in records
    ensures id in ClaimAll(records, scan, keys) && ClaimAll(records, scan, keys)[id] == records[id]
  {
    hide Represents;
    hide Candidates;
    if keys != [] {
      ClaimAllAdds(records, scan, keys[..|keys| - 1], id);
    }
  }

  /** One scan treats a known record as if it were alone. */
  lemma ScanOfEntry(records: Entries, e: Event, id: string)
    requires id in records && DistinctPorts(e.scan)
    ensures id in Happen(records, e)
    ensures Happen(records, e)[id] == records[id] || Happen(records, e)[id] == Reconciled(records[id], e.scan)
  {
    hide Reconciled;
    hide UsbKeys;
    if e.Discovers? {
      UsbKeysAreGrouped(e.scan);
      ClaimAllAdds(AllReconciled(records, e.scan), e.scan, UsbKeys(e.scan), id);
      ReconcileIsIdempotent(records[id], e.scan);
    }
  }

  function PortChanges(events: seq<Event>, n: nat, id: string): nat
    requires n <= |events|
    decreases |events|
  {
    if n == |events| then 0
    else
      var m := |events| - 1;
      var (before, after) := (RegistryAfter(events[..m]), RegistryAfter(events));
      PortChanges(events[..m], n, id)
      + if id in before && id in after && before[id].port != after[id].port then 1 else 0
  }

  /**
   Over every sequence of scans, a record keeps its logical id, its physical identity and its macOS kind of port,
   and its locator generation grows by one with each change of port.
   */
  lemma {:induction false} RecordsLast(events: seq<Event>, n: nat, id: string)
    requires n <= |events| && id in RegistryAfter(events[..n])
    requires forall i :: n <= i < |events| ==> DistinctPorts(events[i].scan)
    ensures id in RegistryAfter(events)
    ensures var (first, last) := (RegistryAfter(events[..n])[id], RegistryAfter(events)[id]);
            && last.descriptor.id == first.descriptor.id
            && last.identity == first.identity
            && (KindOf(first.port).Some? ==> KindOf(last.port) == KindOf(first.port))
            && last.generation == first.generation + PortChanges(events, n, id)
    decreases |events|
  {
    hide Reconciled;
    hide Happen;
    hide DistinctPorts;
    if n == |events| {
      assert events[..n] == events;
    } else {
      var m := |events| - 1;
      assert events[..m][..n] == events[..n];
      RecordsLast(events[..m], n, id);
      var before := RegistryAfter(events[..m]);
      ScanOfEntry(before, events[m], id);
      ReconcileKeepsIdentity(before[id], events[m].scan);
    }
  }
}
