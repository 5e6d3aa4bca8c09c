/**
 What the statuses of src/backend/espflash.rs mean in terms of a scan alone: when a record is available, disconnected,
 ambiguous or at the port of another device, what it then shows, and which devices a discovery takes up.
 */
module RegistryStatus {
  import opened Mux
  import opened Device
  import opened Registry

  // ---------- a scan and one record ----------

  /** The entry a port is looked up by. */
  predicate FirstAt(scan: seq<Scanned>, port: string, i: nat) {
    i < |scan| && scan[i].port == port && forall j :: 0 <= j < i ==> scan[j].port != port
  }

  predicate PortGone(e: Entry, scan: seq<Scanned>) {
    forall i :: 0 <= i < |scan| ==> scan[i].port != e.port
  }

  /** The record's own device is at its port. */
  predicate AtItsPort(e: Entry, scan: seq<Scanned>) {
    exists i :: 0 <= i < |scan| && FirstAt(scan, e.port, i) && scan[i].identity == e.identity
  }

  /** Another device is. */
  predicate PortTaken(e: Entry, scan: seq<Scanned>) {
    exists i :: 0 <= i < |scan| && FirstAt(scan, e.port, i) && scan[i].identity != e.identity
  }

  /** A device with a serial number, the record's own. */
  predicate IsOwn(e: Entry, c: Scanned) {
    Strong(e.identity) && c.identity == e.identity
  }

  predicate InTwoPlaces(e: Entry, scan: seq<Scanned>) {
    exists i, j :: 0 <= i < |scan| && 0 <= j < |scan| && IsOwn(e, scan[i]) && IsOwn(e, scan[j])
      && GroupKey(scan[i].port) != GroupKey(scan[j].port)
  }

  predicate OwnOfKind(e: Entry, c: Scanned, kind: Kind) {
    IsOwn(e, c) && KindOf(c.port) == Some(kind)
  }

  predicate FirstOwn(e: Entry, scan: seq<Scanned>, kind: Kind, i: nat) {
    i < |scan| && OwnOfKind(e, scan[i], kind) && forall j :: 0 <= j < i ==> !OwnOfKind(e, scan[j], kind)
  }

  predicate OnlyOwn(e: Entry, scan: seq<Scanned>, i: nat) {
    i < |scan| && IsOwn(e, scan[i]) && forall j :: 0 <= j < |scan| && IsOwn(e, scan[j]) ==> j == i
  }

  /** The first of its own entries on a port of the kind it had; a device without such a kind must be there once. */
  predicate MovesTo(e: Entry, scan: seq<Scanned>, i: nat) {
    match KindOf(e.port)
    case Some(kind) => FirstOwn(e, scan, kind, i)
    case None => OnlyOwn(e, scan, i)
  }

  predicate CanMove(e: Entry, scan: seq<Scanned>) {
    exists i :: 0 <= i < |scan| && MovesTo(e, scan, i)
  }

  // ---------- what the lookups find ----------

  lemma {:induction false} FirstFound(scan: seq<Scanned>, port: string)
    ensures match AtPort(scan, port)
            case Some(i) => FirstAt(scan, port, i)
            case None => forall i :: 0 <= i < |scan| ==> scan[i].port != port
  {
    if scan != [] {
      FirstFound(scan[..|scan| - 1], port);
    }
  }

  lemma PortCases(e: Entry, scan: seq<Scanned>)
    ensures var found := AtPort(scan, e.port);
            && (PortGone(e, scan) <==> found.None?)
            && (AtItsPort(e, scan) <==> found.Some? && scan[found.value].identity == e.identity)
            && (PortTaken(e, scan) <==> found.Some? && scan[found.value].identity != e.identity)
  {
    FirstFound(scan, e.port);
  }

  lemma OwnAreMatches(e: Entry, scan: seq<Scanned>)
    ensures forall c :: c in StrongMatches(e.identity, scan) <==> c in scan && IsOwn(e, c)
  {
    forall c ensures c in StrongMatches(e.identity, scan) <==> c in scan && IsOwn(e, c) {
      StrongMatchIsEquality(e.identity, c.identity);
    }
  }

  lemma GroupsOf(candidates: seq<Scanned>)
    ensures |Groups(candidates)| == 0 <==> candidates == []
    ensures |Groups(candidates)| > 1 <==>
              exists c, d :: c in candidates && d in candidates && GroupKey(c.port) != GroupKey(d.port)
  {
    hide GroupKey;
    var groups := Groups(candidates);
    if candidates != [] {
      var key := GroupKey(candidates[0].port);
      assert key in groups && candidates[0] in candidates;
      if |groups| > 1 {
        assert groups != {key};
        var other :| other in groups && other != key;
        var j :| 0 <= j < |candidates| && GroupKey(candidates[j].port) == other;
        assert candidates[j] in candidates;
      } else if c, d :| c in candidates && d in candidates && GroupKey(c.port) != GroupKey(d.port) {
        TwoGroupKeys(candidates, c, d);
      }
    }
  }

  lemma TwoGroupKeys(candidates: seq<Scanned>, c: Scanned, d: Scanned)
    requires c in candidates && d in candidates && GroupKey(c.port) != GroupKey(d.port)
    ensures |Groups(candidates)| > 1
  {
    hide GroupKey;
    var groups, x, y := Groups(candidates), GroupKey(c.port), GroupKey(d.port);
    assert x in groups && y in groups;
    assert {x, y} <= groups;
    assert |groups - {x}| == |groups| - 1;
    assert y in groups - {x};
  }

  lemma TwoPlaces(e: Entry, scan: seq<Scanned>)
    ensures InTwoPlaces(e, scan) <==> |Groups(StrongMatches(e.identity, scan))| > 1
  {
    hide GroupKey;
    hide Groups;
    OwnAreMatches(e, scan);
    var matches := StrongMatches(e.identity, scan);
    GroupsOf(matches);
    if InTwoPlaces(e, scan) {
      var i, j :| 0 <= i < |scan| && 0 <= j < |scan| && IsOwn(e, scan[i]) && IsOwn(e, scan[j])
        && GroupKey(scan[i].port) != GroupKey(scan[j].port);
      assert scan[i] in scan && scan[j] in scan;
    }
    if c, d :| c in matches && d in matches && GroupKey(c.port) != GroupKey(d.port) {
      var i :| 0 <= i < |scan| && scan[i] == c;
      var j :| 0 <= j < |scan| && scan[j] == d;
    }
  }

  // ---------- where a device has moved ----------

  lemma OwnIsMatch(e: Entry, c: Scanned)
    ensures StrongMatch(e.identity, c.identity) <==> IsOwn(e, c)
  {
    StrongMatchIsEquality(e.identity, c.identity);
  }

  lemma MatchesPush(e: Entry, scan: seq<Scanned>)
    requires scan != []
    ensures var n := |scan| - 1;
            StrongMatches(e.identity, scan)
            == StrongMatches(e.identity, scan[..n]) + if IsOwn(e, scan[n]) then [scan[n]] else []
  {
    hide StrongMatch;
    hide IsOwn;
    OwnIsMatch(e, scan[|scan| - 1]);
  }

  lemma OfKindPush(candidates: seq<Scanned>, c: Scanned, kind: Kind)
    ensures OfKind(candidates + [c], kind)
         == if OfKind(candidates, kind).Some? then OfKind(candidates, kind)
            else if KindOf(c.port) == Some(kind) then Some(c) else None
  {
    hide KindOf;
    assert (candidates + [c])[..|candidates|] == candidates;
  }

  predicate NoneOfKind(e: Entry, scan: seq<Scanned>, kind: Kind) {
    forall j :: 0 <= j < |scan| ==> !OwnOfKind(e, scan[j], kind)
  }

  lemma FirstStaysFirst(e: Entry, scan: seq<Scanned>, n: nat, kind: Kind, i: nat)
    requires n <= |scan| && FirstOwn(e, scan[..n], kind, i)
    ensures FirstOwn(e, scan, kind, i) && scan[i] == scan[..n][i]
  {
    hide OwnOfKind;
    assert forall j :: 0 <= j < n ==> scan[..n][j] == scan[j];
  }

  lemma LastIsFirst(e: Entry, scan: seq<Scanned>, kind: Kind)
    requires scan != [] && NoneOfKind(e, scan[..|scan| - 1], kind)
    ensures if OwnOfKind(e, scan[|scan| - 1], kind) then FirstOwn(e, scan, kind, |scan| - 1)
            else NoneOfKind(e, scan, kind)
  {
    hide OwnOfKind;
    var n := |scan| - 1;
    assert forall j :: 0 <= j < n ==> scan[..n][j] == scan[j];
  }

  /** The first match of a kind, with where it is in the scan. */
  lemma {:induction false} FirstOfKind(e: Entry, scan: seq<Scanned>, kind: Kind) returns (i: nat)
    ensures var found := OfKind(StrongMatches(e.identity, scan), kind);
            && (found.Some? ==> FirstOwn(e, scan, kind, i) && scan[i] == found.value)
            && (found.None? ==> NoneOfKind(e, scan, kind))
  {
    hide KindOf;
    hide IsOwn;
    hide StrongMatches;
    hide OfKind;
    hide FirstOwn;
    hide NoneOfKind;
    i := 0;
    if scan == [] {
      NoMatches(e);
      NothingOfKind(e, kind);
    } else {
      var n := |scan| - 1;
      var before := StrongMatches(e.identity, scan[..n]);
      i := FirstOfKind(e, scan[..n], kind);
      MatchesPush(e, scan);
      OfKindPush(before, scan[n], kind);
      assert before + [] == before;
      if OfKind(before, kind).Some? {
        FirstStaysFirst(e, scan, n, kind, i);
      } else {
        LastIsFirst(e, scan, kind);
        i := n;
      }
    }
  }

  lemma NothingOfKind(e: Entry, kind: Kind)
    ensures OfKind([], kind).None? && NoneOfKind(e, [], kind)
  {
  }

  lemma NoMatches(e: Entry)
    ensures StrongMatches(e.identity, []) == []
  {
  }

  /** A single match is the only own entry; there is none, or there are two, if the matches are not one. */
  lemma {:induction false} MatchesAre(e: Entry, scan: seq<Scanned>) returns (i: nat, j: nat)
    ensures var matches := StrongMatches(e.identity, scan);
            && (|matches| == 0 ==> forall k :: 0 <= k < |scan| ==> !IsOwn(e, scan[k]))
            && (|matches| == 1 ==> OnlyOwn(e, scan, i) && matches == [scan[i]])
            && (|matches| >= 2 ==> i < j < |scan| && IsOwn(e, scan[i]) && IsOwn(e, scan[j]))
  {
    hide IsOwn;
    hide StrongMatches;
    i, j := 0, 0;
    if scan == [] {
      NoMatches(e);
    } else {
      var n := |scan| - 1;
      var before := StrongMatches(e.identity, scan[..n]);
      i, j := MatchesAre(e, scan[..n]);
      MatchesPush(e, scan);
      assert forall k :: 0 <= k < n ==> scan[..n][k] == scan[k];
      if IsOwn(e, scan[n]) {
        if |before| == 0 {
          i := n;
        } else if |before| == 1 {
          j := n;
        }
      }
    }
  }

  lemma Moves(e: Entry, scan: seq<Scanned>)
    ensures var chosen := SelectAlias(e.port, StrongMatches(e.identity, scan));
            && (chosen.None? <==> !CanMove(e, scan))
            && (chosen.Some? ==> exists i :: 0 <= i < |scan| && MovesTo(e, scan, i) && scan[i] == chosen.value)
  {
    hide KindOf;
    hide IsOwn;
    hide StrongMatches;
    match KindOf(e.port) {
      case Some(kind) =>
        var i := FirstOfKind(e, scan, kind);
        assert OfKind(StrongMatches(e.identity, scan), kind).Some? ==> MovesTo(e, scan, i);
      case None =>
        var i, j := MatchesAre(e, scan);
        assert |StrongMatches(e.identity, scan)| == 1 ==> MovesTo(e, scan, i);
    }
  }

  // ---------- the exact condition of each status ----------

  /** What a scan says of a record. */
  lemma StatusMeans(e: Entry, scan: seq<Scanned>)
    ensures var status := Reconciled(e, scan).descriptor.availability;
            && (status == IdentityMismatch <==> PortTaken(e, scan))
            && (status == Ambiguous <==> !PortTaken(e, scan) && InTwoPlaces(e, scan))
            && (status == Disconnected <==> PortGone(e, scan) && !InTwoPlaces(e, scan) && !CanMove(e, scan))
            && (status == Available <==>
                  !InTwoPlaces(e, scan) && (AtItsPort(e, scan) || (PortGone(e, scan) && CanMove(e, scan))))
  {
    hide Groups;
    hide SelectAlias;
    hide StrongMatches;
    hide CanMove;
    hide InTwoPlaces;
    hide AtItsPort;
    hide PortTaken;
    hide PortGone;
    PortCases(e, scan);
    TwoPlaces(e, scan);
    GroupsOf(StrongMatches(e.identity, scan));
    Moves(e, scan);
    if StrongMatches(e.identity, scan) == [] {
      NothingSelected(e.port);
    }
  }

  lemma NothingSelected(port: string)
    ensures SelectAlias(port, []).None?
  {
  }

  /**
   An available record shows the scan's entry at its port under its own id, activity and generation, and has moved
   only if its port was gone; every other status leaves the record as it was.
   */
  lemma StatusShows(e: Entry, scan: seq<Scanned>)
    ensures var r := Reconciled(e, scan);
            if r.descriptor.availability == Available then
              exists i :: 0 <= i < |scan| && scan[i].port == r.port && scan[i].identity == r.identity
                && (if r.port == e.port then FirstAt(scan, e.port, i) else PortGone(e, scan) && MovesTo(e, scan, i))
                && r.usb == (if r.port == e.port then e.usb else scan[i].usb)
                && r.descriptor == scan[i].descriptor.(id := e.descriptor.id, activity := e.descriptor.activity,
                                                       generation := Some(r.generation), availability := Available)
            else
              r == WithAvailability(e, r.descriptor.availability)
  {
    hide Groups;
    hide SelectAlias;
    hide StrongMatches;
    hide CanMove;
    FirstFound(scan, e.port);
    Moves(e, scan);
    var chosen := SelectAlias(e.port, StrongMatches(e.identity, scan));
    var r := Reconciled(e, scan);
    if AtPort(scan, e.port).None? && r.descriptor.availability == Available {
      var i :| 0 <= i < |scan| && MovesTo(e, scan, i) && scan[i] == chosen.value;
      assert IsOwn(e, scan[i]);
      assert scan[i].port == r.port && r.port != e.port;
    } else if r.descriptor.availability == Available {
      var i := AtPort(scan, e.port).value;
      assert FirstAt(scan, e.port, i);
    }
  }

  // ---------- what a discovery takes up ----------

  lemma {:induction false} ClaimsLast(records: Entries, scan: seq<Scanned>, keys: seq<string>, n: nat)
    requires Grouped(scan, keys) && n <= |keys|
    ensures ClaimAll(records, scan, keys[..n]).Keys <= ClaimAll(records, scan, keys).Keys
    ensures forall id :: id in ClaimAll(records, scan, keys[..n]) ==>
              ClaimAll(records, scan, keys)[id] == ClaimAll(records, scan, keys[..n])[id]
    decreases |keys|
  {
    hide Represents;
    hide Candidates;
    hide Pick;
    if n == |keys| {
      assert keys[..n] == keys;
    } else {
      assert keys[..|keys| - 1][..n] == keys[..n];
      ClaimsLast(records, scan, keys[..|keys| - 1], n);
    }
  }

  lemma FewerKeys<V>(a: map<string, V>, b: map<string, V>)
    requires a.Keys <= b.Keys
    ensures |a| <= |b|
  {
    assert b.Keys == a.Keys + (b.Keys - a.Keys);
    assert |b.Keys| == |a.Keys| + |b.Keys - a.Keys|;
  }

  /** The device chosen for a group has a record, or its id has. */
  predicate TakenUp(records: Entries, c: Scanned) {
    Represented(records, c) || c.descriptor.id in records
  }

  lemma ClaimTakesUp(records: Entries, c: Scanned)
    ensures TakenUp(Claim(records, c), c)
  {
    hide Represents;
  }

  lemma TakenUpLasts(before: Entries, after: Entries, c: Scanned)
    requires TakenUp(before, c) && before.Keys <= after.Keys
    requires forall id :: id in before ==> after[id] == before[id]
    ensures TakenUp(after, c)
  {
    hide Represents;
    if id :| id in before && Represents(before[id], c) {
      assert id in after && Represents(after[id], c);
    }
  }

  lemma GroupTakenUp(records: Entries, scan: seq<Scanned>, keys: seq<string>, i: nat)
    requires Grouped(scan, keys) && i < |keys| && |ClaimAll(records, scan, keys)| < MAX_DISCOVERED_DEVICES
    ensures TakenUp(ClaimAll(records, scan, keys), Pick(Candidates(scan, keys[i])))
  {
    hide Represents;
    hide Candidates;
    hide Pick;
    hide Claim;
    hide TakenUp;
    var c := Pick(Candidates(scan, keys[i]));
    var before, after := ClaimAll(records, scan, keys[..i]), ClaimAll(records, scan, keys[..i + 1]);
    assert keys[..i + 1][..i] == keys[..i];
    ClaimsLast(records, scan, keys, i);
    ClaimsLast(records, scan, keys, i + 1);
    FewerKeys(before, ClaimAll(records, scan, keys));
    assert after == Claim(before, c);
    ClaimTakesUp(before, c);
    TakenUpLasts(after, ClaimAll(records, scan, keys), c);
  }

  /** Reconciling keeps it so: a record that moves has a serial number to be known by. */
  lemma StillTakenUp(records: Entries, scan: seq<Scanned>, c: Scanned)
    requires TakenUp(records, c)
    ensures TakenUp(AllReconciled(records, scan), c)
  {
    hide Reconciled;
    hide GroupKey;
    if id :| id in records && Represents(records[id], c) {
      ReconcileKeepsIdentity(records[id], scan);
      StrongMatchIsEquality(records[id].identity, c.identity);
      assert id in AllReconciled(records, scan);
      assert Represents(AllReconciled(records, scan)[id], c);
    }
  }

  /**
   A discovery that leaves fewer than 64 records has taken up every group of USB ports: the callout port of the group,
   or else its first, is represented by a record, or its id is.
   */
  lemma DiscoveryIsComplete(records: Entries, scan: seq<Scanned>, i: nat)
    requires i < |scan| && scan[i].identity.Usb? && |Discovered(records, scan)| < 64
    ensures Candidates(scan, GroupKey(scan[i].port)) != []
    ensures TakenUp(Discovered(records, scan), Pick(Candidates(scan, GroupKey(scan[i].port))))
  {
    hide Reconciled;
    hide ClaimAll;
    hide TakenUp;
    hide Pick;
    hide GroupKey;
    hide UsbKeys;
    hide Candidates;
    UsbKeysAreGrouped(scan);
    var keys, key := UsbKeys(scan), GroupKey(scan[i].port);
    assert key in keys;
    var k :| 0 <= k < |keys| && keys[k] == key;
    assert scan[i] in Candidates(scan, key);
    var claimed := ClaimAll(AllReconciled(records, scan), scan, keys);
    FewerKeys(claimed, Discovered(records, scan));
    GroupTakenUp(AllReconciled(records, scan), scan, keys, k);
    StillTakenUp(claimed, scan, Pick(Candidates(scan, key)));
  }

  // ---------- the records a discovery makes ----------

  /** A record stands for a candidate with its identity, in the same locator group or with a serial number. */
  lemma RepresentsMeans(e: Entry, c: Scanned)
    ensures Represents(e, c) <==>
              e.identity == c.identity && (GroupKey(e.port) == GroupKey(c.port) || Strong(c.identity))
  {
    StrongMatchIsEquality(e.identity, c.identity);
  }

  /** No record has the id of the candidate, and none stands for it. */
  predicate IsNew(records: Entries, c: Scanned) {
    && c.descriptor.id !in records
    && forall id :: id in records && records[id].identity == c.identity ==>
         !Strong(c.identity) && GroupKey(records[id].port) != GroupKey(c.port)
  }

  /** A new candidate gets a record of its own, counting from 0, and any other leaves the records alone. */
  lemma ClaimExactly(records: Entries, c: Scanned)
    ensures var r := Claim(records, c);
            if IsNew(records, c) then
              && r.Keys == records.Keys + {c.descriptor.id}
              && (forall id :: id in records ==> r[id] == records[id])
              && r[c.descriptor.id] == Entry(c.descriptor.(generation := Some(0)), c.port, c.usb, c.identity, 0)
            else r == records
  {
    hide Represents;
    hide GroupKey;
    forall id | id in records
      ensures Represents(records[id], c) <==>
                records[id].identity == c.identity
                && (GroupKey(records[id].port) == GroupKey(c.port) || Strong(c.identity))
    {
      RepresentsMeans(records[id], c);
    }
  }

  /** The record was made for the port its group is known by. */
  predicate MadeFor(e: Entry, id: string, scan: seq<Scanned>, c: Scanned) {
    && c in scan && c.identity.Usb? && c.descriptor.id == id
    && c in Candidates(scan, GroupKey(c.port)) && c == Pick(Candidates(scan, GroupKey(c.port)))
    && e == Entry(c.descriptor.(generation := Some(0)), c.port, c.usb, c.identity, 0)
  }

  lemma {:induction false} ClaimedFor(records: Entries, scan: seq<Scanned>, keys: seq<string>, id: string)
    requires Grouped(scan, keys) && id in ClaimAll(records, scan, keys) && id !in records
    ensures exists c :: c in scan && MadeFor(ClaimAll(records, scan, keys)[id], id, scan, c)
    decreases |keys|
  {
    hide GroupKey;
    hide Pick;
    hide Candidates;
    hide IsNew;
    var n := |keys| - 1;
    var before := ClaimAll(records, scan, keys[..n]);
    if id in before {
      ClaimedFor(records, scan, keys[..n], id);
      ClaimsLast(records, scan, keys, n);
    } else {
      var c := Pick(Candidates(scan, keys[n]));
      ClaimExactly(before, c);
      assert c in Candidates(scan, keys[n]) && GroupKey(c.port) == keys[n];
      assert MadeFor(ClaimAll(records, scan, keys)[id], id, scan, c);
    }
  }

  /**
   A record that a discovery adds is for the port by which a group of USB ports is known: under that port's id and
   identity, at that port and in its generation 0, and available there unless its device is in two places.
   */
  lemma NewRecords(records: Entries, scan: seq<Scanned>, id: string)
    requires DistinctPorts(scan) && id in Discovered(records, scan) && id !in records
    ensures var r := Discovered(records, scan)[id];
            exists c :: c in scan && c.identity.Usb? && c.descriptor.id == id && r.identity == c.identity
              && c in Candidates(scan, GroupKey(c.port)) && c == Pick(Candidates(scan, GroupKey(c.port)))
              && r.port == c.port && r.usb == c.usb && r.generation == 0 && r.descriptor.generation == Some(0)
              && r.descriptor.availability == (if InTwoPlaces(r, scan) then Ambiguous else Available)
  {
    hide GroupKey;
    hide Pick;
    hide Candidates;
    hide Reconciled;
    hide InTwoPlaces;
    hide ClaimAll;
    hide UsbKeys;
    UsbKeysAreGrouped(scan);
    var claimed := ClaimAll(AllReconciled(records, scan), scan, UsbKeys(scan));
    assert id in claimed;
    ClaimedFor(AllReconciled(records, scan), scan, UsbKeys(scan), id);
    var c :| c in scan && MadeFor(claimed[id], id, scan, c);
    MadeIsThere(claimed[id], id, scan, c);
  }

  lemma MadeIsThere(e: Entry, id: string, scan: seq<Scanned>, c: Scanned)
    requires DistinctPorts(scan) && MadeFor(e, id, scan, c)
    ensures var r := Reconciled(e, scan);
            && r.identity == c.identity && r.port == c.port && r.usb == c.usb
            && r.generation == 0 && r.descriptor.generation == Some(0)
            && r.descriptor.availability == (if InTwoPlaces(r, scan) then Ambiguous else Available)
  {
    hide GroupKey;
    hide Pick;
    hide Candidates;
    var i :| 0 <= i < |scan| && scan[i] == c;
    assert FirstAt(scan, e.port, i);
    StatusMeans(e, scan);
    ReconcileKeepsIdentity(e, scan);
    StatusShows(e, scan);
    assert AtItsPort(e, scan) && !PortTaken(e, scan);
    assert InTwoPlaces(Reconciled(e, scan), scan) <==> InTwoPlaces(e, scan) by {
      SameOwn(e, Reconciled(e, scan), scan);
    }
  }

  lemma SameOwn(e: Entry, r: Entry, scan: seq<Scanned>)
    requires r.identity == e.identity
    ensures InTwoPlaces(r, scan) <==> InTwoPlaces(e, scan)
  {
    hide GroupKey;
    assert forall c :: IsOwn(r, c) <==> IsOwn(e, c);
    if InTwoPlaces(e, scan) {
      var i, j :| 0 <= i < |scan| && 0 <= j < |scan| && IsOwn(e, scan[i]) && IsOwn(e, scan[j])
        && GroupKey(scan[i].port) != GroupKey(scan[j].port);
      assert IsOwn(r, scan[i]) && IsOwn(r, scan[j]);
    }
    if InTwoPlaces(r, scan) {
      var i, j :| 0 <= i < |scan| && 0 <= j < |scan| && IsOwn(r, scan[i]) && IsOwn(r, scan[j])
        && GroupKey(scan[i].port) != GroupKey(scan[j].port);
      assert IsOwn(e, scan[i]) && IsOwn(e, scan[j]);
    }
  }

  // ---------- the order of the groups ----------

  /** The order of strings: at the first difference, or the shorter one first. */
  predicate Precedes(a: string, b: string, k: nat) {
    && k <= |a| && k < |b| && a[..k] == b[..k]
    && (k == |a| || (k < |a| && a[k] < b[k]))
  }

  lemma PrecedesHead(a: string, b: string, k: nat)
    requires Precedes(a, b, k) && k > 0
    ensures a != "" && b != "" && a[0] == b[0]
  {
    assert a[..k][0] == b[..k][0];
  }

  lemma {:induction false} LessMeans(a: string, b: string)
    ensures Less(a, b) <==> exists k: nat :: Precedes(a, b, k)
  {
    forall k: nat | Precedes(a, b, k) && k > 0 ensures a != "" && b != "" && a[0] == b[0] {
      PrecedesHead(a, b, k);
    }
    if a != "" && b != "" && a[0] == b[0] {
      LessMeans(a[1..], b[1..]);
      if k: nat :| Precedes(a[1..], b[1..], k) {
        assert a[..k + 1] == [a[0]] + a[1..][..k] && b[..k + 1] == [b[0]] + b[1..][..k];
        assert Precedes(a, b, k + 1);
      }
      if k: nat :| Precedes(a, b, k) {
        assert k > 0;
        assert a[1..][..k - 1] == a[..k][1..] && b[1..][..k - 1] == b[..k][1..];
        assert Precedes(a[1..], b[1..], k - 1);
      }
    } else if Less(a, b) {
      assert Precedes(a, b, 0);
    }
  }

  lemma {:induction false} LessIsTransitive(a: string, b: string, c: string)
    requires Less(a, b) && Less(b, c)
    ensures Less(a, c)
  {
    if a != "" && a[0] == b[0] && b[0] == c[0] {
      LessIsTransitive(a[1..], b[1..], c[1..]);
    }
  }

  lemma {:induction false} LessIsTotal(a: string, b: string)
    requires a != b
    ensures Less(a, b) || Less(b, a)
  {
    if a != "" && b != "" && a[0] == b[0] {
      assert a == [a[0]] + a[1..] && b == [b[0]] + b[1..];
      LessIsTotal(a[1..], b[1..]);
    }
  }

  predicate Sorted(keys: seq<string>) {
    forall i, j :: 0 <= i < j < |keys| ==> Less(keys[i], keys[j])
  }

  lemma {:induction false} InsertSorts(keys: seq<string>, key: string)
    requires Sorted(keys)
    ensures Sorted(InsertKey(keys, key))
  {
    hide Less;
    if keys != [] && key != keys[0] {
      if Less(key, keys[0]) {
        forall i | 0 <= i < |keys| ensures Less(key, keys[i]) {
          if i > 0 {
            LessIsTransitive(key, keys[0], keys[i]);
          }
        }
      } else {
        LessIsTotal(key, keys[0]);
        InsertSorts(keys[1..], key);
        var rest := InsertKey(keys[1..], key);
        forall i | 0 <= i < |rest| ensures Less(keys[0], rest[i]) {
          if rest[i] != key {
            assert rest[i] in keys[1..];
          }
        }
      }
    }
  }

  /** Groups are taken up in the order of their keys, each once, as from a sorted map. */
  lemma {:induction false} GroupsAreSorted(scan: seq<Scanned>)
    ensures Sorted(UsbKeys(scan))
  {
    hide InsertKey;
    hide GroupKey;
    if scan != [] {
      var n := |scan| - 1;
      GroupsAreSorted(scan[..n]);
      InsertSorts(UsbKeys(scan[..n]), GroupKey(scan[n].port));
    }
  }
}
