/**
  What discovery/rtps_discovery_sniffer.py accumulates from a list of packets (`parse_discovery_data`):
  one record per participant, merged from all its packets, and one per endpoint, first come first kept.

  A packet is taken as what is found in its dissection tree (modules `Dissection` and `Spdp`).  A
  string or list that is missing is empty here, as the sniffer treats both alike.
 */
module Discovery {
  import opened Bytes
  import opened Sequences

  datatype Locator = Locator(kind: string, ip: string, port: string)

  datatype Identity = Identity(srcIp: string, vendorId: string, vendorName: string, version: string)

  datatype Builtin = Builtin(mask: string, flags: seq<string>)

  datatype Candidate = Candidate(
    topic: string,
    typeName: string,
    guid: string,
    kind: string,
    reliability: Option<string>,
    durability: Option<string>,
    ownership: Option<string>
  )

  datatype Packet = Packet(
    foundPrefix: string,
    headerPrefix: string,
    identity: Identity,
    lease: Option<real>,
    builtin: Option<Builtin>,
    locators: seq<Locator>,
    candidates: seq<Candidate>
  )

  datatype Participant = Participant(identity: Identity, lease: real, builtin: Builtin, locators: seq<Locator>)

  datatype Endpoint = Endpoint(
    topic: string,
    typeName: string,
    guid: string,
    kind: string,
    reliability: string,
    durability: string,
    ownership: string,
    srcIp: string
  )

  datatype Summary = Summary(participants: map<string, Participant>, endpoints: seq<Endpoint>)

  const DEFAULT_LEASE: real := 20.0
  const NO_BUILTIN := Builtin("unknown", [])

  // ----- one packet -----

  function OrElse<T>(o: Option<T>, default: T): T {
    match o
    case Some(v) => v
    case None => default
  }

  function Prefix(p: Packet): string {
    if p.foundPrefix != "" then p.foundPrefix else p.headerPrefix
  }

  function Create(p: Packet): Participant {
    Participant(p.identity, OrElse(p.lease, DEFAULT_LEASE), OrElse(p.builtin, NO_BUILTIN), AddNew([], p.locators))
  }

  /** A lease of 0.0 counts as none once the participant is known. */
  predicate GivesLease(p: Packet) {
    p.lease.Some? && p.lease.value != 0.0
  }

  predicate GivesFlags(p: Packet) {
    p.builtin.Some? && p.builtin.value.flags != []
  }

  function Augment(part: Participant, p: Packet): Participant {
    Participant(
      part.identity,
      if GivesLease(p) then p.lease.value else part.lease,
      if part.builtin.flags == [] && GivesFlags(p) then p.builtin.value else part.builtin,
      AddNew(part.locators, p.locators))
  }

  function AddParticipant(participants: map<string, Participant>, p: Packet): map<string, Participant> {
    var k := Prefix(p);
    if k == "" then participants
    else participants[k := if k in participants then Augment(participants[k], p) else Create(p)]
  }

  predicate Complete(c: Candidate) {
    c.topic != "" && c.typeName != "" && c.guid != ""
  }

  function EndpointOf(c: Candidate, srcIp: string): Endpoint {
    Endpoint(c.topic, c.typeName, c.guid, c.kind,
             OrElse(c.reliability, "BEST_EFFORT"), OrElse(c.durability, "VOLATILE"),
             OrElse(c.ownership, "SHARED"), srcIp)
  }

  predicate Known(endpoints: seq<Endpoint>, guid: string, topic: string) {
    exists i :: 0 <= i < |endpoints| && endpoints[i].guid == guid && endpoints[i].topic == topic
  }

  function AddCandidates(endpoints: seq<Endpoint>, candidates: seq<Candidate>, srcIp: string): seq<Endpoint> {
    if candidates == [] then endpoints
    else
      var before, c := AddCandidates(endpoints, candidates[..|candidates| - 1], srcIp), candidates[|candidates| - 1];
      if Complete(c) && !Known(before, c.guid, c.topic) then before + [EndpointOf(c, srcIp)] else before
  }

  function Step(s: Summary, p: Packet): Summary {
    Summary(AddParticipant(s.participants, p), AddCandidates(s.endpoints, p.candidates, p.identity.srcIp))
  }

  function Run(s: Summary, packets: seq<Packet>): Summary {
    if packets == [] then s else Step(Run(s, packets[..|packets| - 1]), packets[|packets| - 1])
  }

  const EMPTY := Summary(map[], [])

  // ----- the loop -----

  method UniqueLocators(found: seq<Locator>) returns (unique: seq<Locator>)
    ensures unique == AddNew([], found)
  {
    unique := [];
    var seen: set<Locator> := {};
    for i := 0 to |found|
      invariant unique == AddNew([], found[..i])
      invariant forall l :: l in seen <==> l in unique
    {
      assert found[..i + 1][..i] == found[..i];
      if found[i] !in seen {
        seen := seen + {found[i]};
        unique := unique + [found[i]];
      }
    }
    assert found[..|found|] == found;
  }

  method AppendLocators(have: seq<Locator>, found: seq<Locator>) returns (locators: seq<Locator>)
    ensures locators == AddNew(have, found)
  {
    locators := have;
    var existing := set l | l in have;
    for i := 0 to |found|
      invariant locators == AddNew(have, found[..i])
      invariant forall l :: l in existing <==> l in locators
    {
      assert found[..i + 1][..i] == found[..i];
      if found[i] !in existing {
        existing := existing + {found[i]};
        locators := locators + [found[i]];
      }
    }
    assert found[..|found|] == found;
  }

  class Accumulator {
    var participants: map<string, Participant>
    var endpoints: seq<Endpoint>

    ghost function View(): Summary
      reads this
    {
      Summary(participants, endpoints)
    }

    constructor ()
      ensures View() == EMPTY
    {
      participants := map[];
      endpoints := [];
    }

    method MergeParticipant(p: Packet)
      modifies this`participants
      ensures participants == AddParticipant(old(participants), p)
    {
      var guid := if p.foundPrefix != "" then p.foundPrefix else p.headerPrefix;
      if guid != "" && guid !in participants {
        var unique := UniqueLocators(p.locators);
        participants := participants[guid := Participant(p.identity, OrElse(p.lease, DEFAULT_LEASE),
                                                         OrElse(p.builtin, NO_BUILTIN), unique)];
      } else if guid != "" {
        var part := participants[guid];
        if part.builtin.flags == [] && p.builtin.Some? && p.builtin.value.flags != [] {
          part := part.(builtin := p.builtin.value);
        }
        if p.lease.Some? && p.lease.value != 0.0 {
          part := part.(lease := p.lease.value);
        }
        var locators := AppendLocators(part.locators, p.locators);
        participants := participants[guid := part.(locators := locators)];
      }
    }

    method AppendEndpoints(candidates: seq<Candidate>, srcIp: string)
      modifies this`endpoints
      ensures endpoints == AddCandidates(old(endpoints), candidates, srcIp)
    {
      for i := 0 to |candidates|
        invariant endpoints == AddCandidates(old(endpoints), candidates[..i], srcIp)
      {
        assert candidates[..i + 1][..i] == candidates[..i];
        var c := candidates[i];
        if Complete(c) && !Known(endpoints, c.guid, c.topic) {
          endpoints := endpoints + [EndpointOf(c, srcIp)];
        }
      }
      assert candidates[..|candidates|] == candidates;
    }

    /** One turn of the loop over packets. */
    method Absorb(p: Packet)
      modifies this
      ensures View() == Step(old(View()), p)
    {
      MergeParticipant(p);
      AppendEndpoints(p.candidates, p.identity.srcIp);
    }

    /** `parse_discovery_data`, from whatever was known before. */
    method Parse(packets: seq<Packet>)
      modifies this
      ensures View() == Run(old(View()), packets)
    {
      for i := 0 to |packets|
        invariant View() == Run(old(View()), packets[..i])
      {
        assert packets[..i + 1][..i] == packets[..i];
        Absorb(packets[i]);
      }
      assert packets[..|packets|] == packets;
    }
  }

  // ----- a participant is the merge of its own packets -----

  function PacketsOf(packets: seq<Packet>, k: string): seq<Packet> {
    if packets == [] then []
    else
      var p := packets[|packets| - 1];
      PacketsOf(packets[..|packets| - 1], k) + if Prefix(p) == k then [p] else []
  }

  function AllLocators(packets: seq<Packet>): seq<Locator> {
    if packets == [] then [] else AllLocators(packets[..|packets| - 1]) + packets[|packets| - 1].locators
  }

  /** The last lease other than 0.0, or else what was there before. */
  function LastLease(packets: seq<Packet>, before: real): real {
    if packets == [] then before
    else if GivesLease(packets[|packets| - 1]) then packets[|packets| - 1].lease.value
    else LastLease(packets[..|packets| - 1], before)
  }

  /** The first non-empty flags with their mask, or else what was there before. */
  function FirstFlags(packets: seq<Packet>, before: Builtin): Builtin {
    if before.flags != [] || packets == [] then before
    else if GivesFlags(packets[0]) then packets[0].builtin.value
    else FirstFlags(packets[1..], before)
  }

  /** What a participant's packets say of it, each field by its own rule. */
  function Describe(own: seq<Packet>): Participant
    requires own != []
  {
    Participant(
      own[0].identity,
      LastLease(own, OrElse(own[0].lease, DEFAULT_LEASE)),
      FirstFlags(own, OrElse(own[0].builtin, NO_BUILTIN)),
      AddNew([], AllLocators(own)))
  }

  lemma {:induction false} FirstFlagsAppend(own: seq<Packet>, p: Packet, before: Builtin)
    ensures FirstFlags(own + [p], before) == FirstFlags([p], FirstFlags(own, before))
  {
    if own == [] {
      assert own + [p] == [p];
    } else {
      FirstFlagsAppend(own[1..], p, before);
      assert (own + [p])[1..] == own[1..] + [p];
    }
  }

  lemma DescribeOne(p: Packet)
    ensures Describe([p]) == Create(p)
  {
    var own := [p];
    assert own[..|own| - 1] == [] && own[1..] == [];
    assert AllLocators(own) == p.locators;
    assert LastLease(own, OrElse(p.lease, DEFAULT_LEASE)) == OrElse(p.lease, DEFAULT_LEASE);
    assert FirstFlags(own, OrElse(p.builtin, NO_BUILTIN)) == OrElse(p.builtin, NO_BUILTIN);
    assert Describe(own).locators == AddNew([], p.locators);
  }

  lemma DescribeMore(own: seq<Packet>, p: Packet)
    requires own != []
    ensures Describe(own + [p]) == Augment(Describe(own), p)
  {
    var all := own + [p];
    assert all[..|all| - 1] == own;
    AddNewAppend([], AllLocators(own), p.locators);
    FirstFlagsAppend(own, p, OrElse(own[0].builtin, NO_BUILTIN));
    assert [p][1..] == [];
  }

  /**
    A participant is reported exactly when a packet carries its prefix, and its record is the
    merge of its own packets in order, whatever other packets came between.
   */
  lemma {:induction false} ParticipantsAreMergedFromTheirPackets(packets: seq<Packet>, k: string)
    requires k != ""
    ensures k in Run(EMPTY, packets).participants <==> PacketsOf(packets, k) != []
    ensures PacketsOf(packets, k) != [] ==> Run(EMPTY, packets).participants[k] == Describe(PacketsOf(packets, k))
  {
    if packets != [] {
      var before, p := packets[..|packets| - 1], packets[|packets| - 1];
      ParticipantsAreMergedFromTheirPackets(before, k);
      if Prefix(p) == k {
        var own := PacketsOf(before, k);
        if own == [] {
          assert own + [p] == [p];
          DescribeOne(p);
        } else {
          DescribeMore(own, p);
        }
      } else {
        assert PacketsOf(packets, k) == PacketsOf(before, k);
      }
    }
  }

  lemma {:induction false} NoNamelessParticipant(packets: seq<Packet>)
    ensures "" !in Run(EMPTY, packets).participants
  {
    if packets != [] {
      NoNamelessParticipant(packets[..|packets| - 1]);
    }
  }

  // ----- no duplicates -----

  predicate OneRecordEach(endpoints: seq<Endpoint>) {
    forall i, j :: 0 <= i < j < |endpoints| ==>
      endpoints[i].guid != endpoints[j].guid || endpoints[i].topic != endpoints[j].topic
  }

  lemma {:induction false} EndpointsKept(endpoints: seq<Endpoint>, candidates: seq<Candidate>, srcIp: string)
    ensures endpoints <= AddCandidates(endpoints, candidates, srcIp)
    ensures OneRecordEach(endpoints) ==> OneRecordEach(AddCandidates(endpoints, candidates, srcIp))
  {
    if candidates != [] {
      EndpointsKept(endpoints, candidates[..|candidates| - 1], srcIp);
    }
  }

  lemma {:induction false} CandidatesKnown(endpoints: seq<Endpoint>, candidates: seq<Candidate>, srcIp: string, i: nat)
    requires i < |candidates| && Complete(candidates[i])
    ensures Known(AddCandidates(endpoints, candidates, srcIp), candidates[i].guid, candidates[i].topic)
  {
    var most, c := candidates[..|candidates| - 1], candidates[i];
    var before, after := AddCandidates(endpoints, most, srcIp), AddCandidates(endpoints, candidates, srcIp);
    if i < |most| {
      CandidatesKnown(endpoints, most, srcIp, i);
    }
    if Known(before, c.guid, c.topic) {
      KnownStays(before, after, c.guid, c.topic);
    } else {
      assert after[|before|] == EndpointOf(c, srcIp);
    }
  }

  lemma KnownStays(before: seq<Endpoint>, after: seq<Endpoint>, guid: string, topic: string)
    requires before <= after && Known(before, guid, topic)
    ensures Known(after, guid, topic)
  {
    var i :| 0 <= i < |before| && before[i].guid == guid && before[i].topic == topic;
    assert after[i] == before[i];
  }

  ghost predicate Unique(s: Summary) {
    && OneRecordEach(s.endpoints)
    && forall k :: k in s.participants ==> Distinct(s.participants[k].locators)
  }

  lemma {:induction false} NothingIsReportedTwice(s: Summary, packets: seq<Packet>)
    requires Unique(s)
    ensures Unique(Run(s, packets))
  {
    if packets != [] {
      var before, p := Run(s, packets[..|packets| - 1]), packets[|packets| - 1];
      NothingIsReportedTwice(s, packets[..|packets| - 1]);
      EndpointsKept(before.endpoints, p.candidates, p.identity.srcIp);
      AddNewKeeps([], p.locators);
      if Prefix(p) in before.participants {
        AddNewKeeps(before.participants[Prefix(p)].locators, p.locators);
      }
    }
  }

  // ----- the endpoint kept is the first one seen -----

  function OrFirst<T>(o: Option<T>, other: Option<T>): Option<T> {
    if o.Some? then o else other
  }

  function Lookup(endpoints: seq<Endpoint>, guid: string, topic: string): Option<Endpoint> {
    if endpoints == [] then None
    else
      var e := endpoints[|endpoints| - 1];
      OrFirst(Lookup(endpoints[..|endpoints| - 1], guid, topic),
              if e.guid == guid && e.topic == topic then Some(e) else None)
  }

  function FirstCandidate(candidates: seq<Candidate>, srcIp: string, guid: string, topic: string): Option<Endpoint> {
    if candidates == [] then None
    else
      var c := candidates[|candidates| - 1];
      OrFirst(FirstCandidate(candidates[..|candidates| - 1], srcIp, guid, topic),
              if Complete(c) && c.guid == guid && c.topic == topic then Some(EndpointOf(c, srcIp)) else None)
  }

  function FirstSeen(packets: seq<Packet>, guid: string, topic: string): Option<Endpoint> {
    if packets == [] then None
    else
      var p := packets[|packets| - 1];
      OrFirst(FirstSeen(packets[..|packets| - 1], guid, topic),
              FirstCandidate(p.candidates, p.identity.srcIp, guid, topic))
  }

  lemma {:induction false} LookupFindsKnown(endpoints: seq<Endpoint>, guid: string, topic: string)
    ensures Lookup(endpoints, guid, topic).Some? <==> Known(endpoints, guid, topic)
  {
    if endpoints != [] {
      var most, n := endpoints[..|endpoints| - 1], |endpoints| - 1;
      LookupFindsKnown(most, guid, topic);
      if Known(endpoints, guid, topic) && !(endpoints[n].guid == guid && endpoints[n].topic == topic) {
        var i :| 0 <= i < |endpoints| && endpoints[i].guid == guid && endpoints[i].topic == topic;
        assert most[i] == endpoints[i];
      }
      if Known(most, guid, topic) {
        KnownStays(most, endpoints, guid, topic);
      }
    }
  }

  lemma LookupOneMore(endpoints: seq<Endpoint>, e: Endpoint, guid: string, topic: string)
    ensures Lookup(endpoints + [e], guid, topic)
            == OrFirst(Lookup(endpoints, guid, topic), if e.guid == guid && e.topic == topic then Some(e) else None)
  {
    assert (endpoints + [e])[..|endpoints + [e]| - 1] == endpoints;
  }

  lemma {:induction false} LookupAfterCandidates(endpoints: seq<Endpoint>, candidates: seq<Candidate>, srcIp: string,
                                                 guid: string, topic: string)
    ensures Lookup(AddCandidates(endpoints, candidates, srcIp), guid, topic)
            == OrFirst(Lookup(endpoints, guid, topic), FirstCandidate(candidates, srcIp, guid, topic))
  {
    if candidates != [] {
      var before := AddCandidates(endpoints, candidates[..|candidates| - 1], srcIp);
      LookupAfterCandidates(endpoints, candidates[..|candidates| - 1], srcIp, guid, topic);
      LookupFindsKnown(before, guid, topic);
      LookupOneMore(before, EndpointOf(candidates[|candidates| - 1], srcIp), guid, topic);
    }
  }

  /** For each guid and topic the report holds the first complete candidate that any packet offered, or none. */
  lemma {:induction false} EndpointsAreTheFirstSeen(packets: seq<Packet>, guid: string, topic: string)
    ensures Lookup(Run(EMPTY, packets).endpoints, guid, topic) == FirstSeen(packets, guid, topic)
  {
    if packets != [] {
      var most, p := packets[..|packets| - 1], packets[|packets| - 1];
      EndpointsAreTheFirstSeen(most, guid, topic);
      LookupAfterCandidates(Run(EMPTY, most).endpoints, p.candidates, p.identity.srcIp, guid, topic);
    }
  }

  // ----- what is reported, in terms of the packets -----

  /** The packet carries this prefix: the one found in its parameters, or else the one in its header. */
  predicate Carries(p: Packet, k: string) {
    if p.foundPrefix == "" then p.headerPrefix == k else p.foundPrefix == k
  }

  lemma {:induction false} OwnPacketsCarryThePrefix(packets: seq<Packet>, k: string, p: Packet)
    ensures p in PacketsOf(packets, k) <==> p in packets && Carries(p, k)
  {
    if packets != [] {
      OwnPacketsCarryThePrefix(packets[..|packets| - 1], k, p);
      InitAndLast(packets);
    }
  }

  /** None of these packets gives a lease other than zero. */
  predicate NoLeaseIn(own: seq<Packet>) {
    forall i :: 0 <= i < |own| ==> own[i].lease == None || own[i].lease == Some(0.0)
  }

  predicate NoFlagsIn(own: seq<Packet>) {
    forall i :: 0 <= i < |own| ==> own[i].builtin.None? || own[i].builtin.value.flags == []
  }

  lemma {:induction false} LastLeaseIsTold(own: seq<Packet>, before: real, n: nat)
    requires 0 < n <= |own| && own[n - 1].lease.Some? && own[n - 1].lease.value != 0.0 && NoLeaseIn(own[n..])
    ensures LastLease(own, before) == own[n - 1].lease.value
  {
    if n < |own| {
      assert own[n..][|own| - 1 - n] == own[|own| - 1];
      assert own[..|own| - 1][n..] == own[n..][..|own| - 1 - n];
      LastLeaseIsTold(own[..|own| - 1], before, n);
    }
  }

  lemma {:induction false} NoLeaseIsTold(own: seq<Packet>, before: real)
    requires NoLeaseIn(own)
    ensures LastLease(own, before) == before
  {
    if own != [] {
      NoLeaseIsTold(own[..|own| - 1], before);
    }
  }

  lemma {:induction false} FirstFlagsAreTold(own: seq<Packet>, before: Builtin, n: nat)
    requires n < |own| && own[n].builtin.Some? && own[n].builtin.value.flags != [] && NoFlagsIn(own[..n])
    requires before.flags == []
    ensures FirstFlags(own, before) == own[n].builtin.value
  {
    if n > 0 {
      assert own[..n][0] == own[0] && own[1..][..n - 1] == own[..n][1..];
      FirstFlagsAreTold(own[1..], before, n - 1);
    }
  }

  lemma {:induction false} NoFlagsAreTold(own: seq<Packet>, before: Builtin)
    requires NoFlagsIn(own)
    ensures FirstFlags(own, before) == before
  {
    if own != [] {
      NoFlagsAreTold(own[1..], before);
    }
  }

  /**
    The record of a participant whose packets are `own`: its identity is that of the first; its
    lease is the last one that is not zero, and without one 0 if the first packet gave 0, and 20
    seconds if it gave none; its flags are the first that are not empty, with their mask, and
    without any the mask of the first packet, or "unknown"; its locators are all there are.
   */
  ghost predicate Records(part: Participant, own: seq<Packet>)
    requires own != []
  {
    && part.identity == own[0].identity
    && (forall n ::
          0 < n <= |own| && own[n - 1].lease.Some? && own[n - 1].lease.value != 0.0 && NoLeaseIn(own[n..])
          ==> part.lease == own[n - 1].lease.value)
    && (NoLeaseIn(own) ==> part.lease == if own[0].lease.Some? then 0.0 else 20.0)
    && (forall n ::
          0 <= n < |own| && own[n].builtin.Some? && own[n].builtin.value.flags != [] && NoFlagsIn(own[..n])
          ==> part.builtin == own[n].builtin.value)
    && (NoFlagsIn(own) ==>
          && part.builtin.flags == []
          && part.builtin.mask == if own[0].builtin.Some? then own[0].builtin.value.mask else "unknown")
    && Distinct(part.locators)
    && forall l :: l in part.locators <==> exists i :: 0 <= i < |own| && l in own[i].locators
  }

  lemma {:induction false} LocatorsOfAll(own: seq<Packet>, l: Locator)
    ensures l in AllLocators(own) <==> exists i :: 0 <= i < |own| && l in own[i].locators
  {
    if own != [] {
      var most, last := own[..|own| - 1], own[|own| - 1];
      LocatorsOfAll(most, l);
      if i :| 0 <= i < |own| && l in own[i].locators {
        assert i < |most| ==> most[i] == own[i];
      }
      if i :| 0 <= i < |most| && l in most[i].locators {
        assert own[i] == most[i];
      }
    }
  }

  lemma LeaseAndFlagsAreTold(own: seq<Packet>)
    requires own != []
    ensures forall n ::
              0 < n <= |own| && own[n - 1].lease.Some? && own[n - 1].lease.value != 0.0 && NoLeaseIn(own[n..])
              ==> Describe(own).lease == own[n - 1].lease.value
    ensures NoLeaseIn(own) ==> Describe(own).lease == if own[0].lease.Some? then 0.0 else 20.0
    ensures forall n ::
              0 <= n < |own| && own[n].builtin.Some? && own[n].builtin.value.flags != [] && NoFlagsIn(own[..n])
              ==> Describe(own).builtin == own[n].builtin.value
    ensures NoFlagsIn(own) ==> Describe(own).builtin == if own[0].builtin.Some? then own[0].builtin.value
                                                        else Builtin("unknown", [])
  {
    var lease, builtin := OrElse(own[0].lease, DEFAULT_LEASE), OrElse(own[0].builtin, NO_BUILTIN);
    forall n | 0 < n <= |own| && own[n - 1].lease.Some? && own[n - 1].lease.value != 0.0 && NoLeaseIn(own[n..])
      ensures Describe(own).lease == own[n - 1].lease.value
    {
      LastLeaseIsTold(own, lease, n);
    }
    if NoLeaseIn(own) {
      NoLeaseIsTold(own, lease);
    }
    forall n | 0 <= n < |own| && own[n].builtin.Some? && own[n].builtin.value.flags != [] && NoFlagsIn(own[..n])
      ensures Describe(own).builtin == own[n].builtin.value
    {
      if n > 0 {
        assert own[..n][0] == own[0];
        FirstFlagsAreTold(own, builtin, n);
      }
    }
    if NoFlagsIn(own) {
      NoFlagsAreTold(own, builtin);
    }
  }

  lemma DescribedIsRecorded(own: seq<Packet>)
    requires own != []
    ensures Records(Describe(own), own)
  {
    LeaseAndFlagsAreTold(own);
    AddNewKeeps([], AllLocators(own));
    forall l ensures l in AllLocators(own) <==> exists i :: 0 <= i < |own| && l in own[i].locators {
      LocatorsOfAll(own, l);
    }
  }

  /** A participant is reported exactly if a packet carries its prefix, and what is reported is what they say of it. */
  lemma ParticipantsAreRecorded(packets: seq<Packet>, k: string)
    requires k != ""
    ensures k in Run(EMPTY, packets).participants <==> exists i :: 0 <= i < |packets| && Carries(packets[i], k)
    ensures k in Run(EMPTY, packets).participants ==>
              && PacketsOf(packets, k) != []
              && Records(Run(EMPTY, packets).participants[k], PacketsOf(packets, k))
  {
    var own := PacketsOf(packets, k);
    ParticipantsAreMergedFromTheirPackets(packets, k);
    if own != [] {
      OwnPacketsCarryThePrefix(packets, k, own[0]);
      DescribedIsRecorded(own);
    }
    if i :| 0 <= i < |packets| && Carries(packets[i], k) {
      OwnPacketsCarryThePrefix(packets, k, packets[i]);
    }
  }

  /** The record of an endpoint: the candidate with the address of its packet, unnamed policies at their defaults. */
  predicate Restates(e: Endpoint, c: Candidate, srcIp: string) {
    && e.topic == c.topic && e.typeName == c.typeName && e.guid == c.guid && e.kind == c.kind && e.srcIp == srcIp
    && e.reliability == (if c.reliability.Some? then c.reliability.value else "BEST_EFFORT")
    && e.durability == (if c.durability.Some? then c.durability.value else "VOLATILE")
    && e.ownership == (if c.ownership.Some? then c.ownership.value else "SHARED")
  }

  /** The candidate has this GUID and topic, neither empty, and some type. */
  predicate Offers(c: Candidate, guid: string, topic: string) {
    c.guid == guid != "" && c.topic == topic != "" && c.typeName != ""
  }

  predicate OffersNone(candidates: seq<Candidate>, guid: string, topic: string) {
    forall j :: 0 <= j < |candidates| ==> !Offers(candidates[j], guid, topic)
  }

  predicate IsFirstOffer(candidates: seq<Candidate>, j: nat, guid: string, topic: string) {
    j < |candidates| && Offers(candidates[j], guid, topic) && OffersNone(candidates[..j], guid, topic)
  }

  lemma OfferOrNot(c: Candidate, guid: string, topic: string)
    ensures Offers(c, guid, topic) <==> Complete(c) && c.guid == guid && c.topic == topic
  {}

  lemma EndpointRestates(c: Candidate, srcIp: string)
    ensures Restates(EndpointOf(c, srcIp), c, srcIp)
  {}

  lemma {:induction false} FirstCandidateIs(candidates: seq<Candidate>, srcIp: string, guid: string, topic: string)
    returns (j: nat)
    ensures match FirstCandidate(candidates, srcIp, guid, topic)
            case Some(e) => IsFirstOffer(candidates, j, guid, topic) && Restates(e, candidates[j], srcIp)
            case None => OffersNone(candidates, guid, topic)
  {
    j := 0;
    if candidates != [] {
      var most, last := candidates[..|candidates| - 1], candidates[|candidates| - 1];
      j := FirstCandidateIs(most, srcIp, guid, topic);
      if FirstCandidate(most, srcIp, guid, topic).Some? {
        assert candidates[..j] == most[..j];
      } else {
        j := |most|;
        OfferOrNot(last, guid, topic);
        EndpointRestates(last, srcIp);
      }
    }
  }

  predicate NoneOffers(packets: seq<Packet>, guid: string, topic: string) {
    forall i :: 0 <= i < |packets| ==> OffersNone(packets[i].candidates, guid, topic)
  }

  /** Candidate `j` of packet `i` is the first offer of all. */
  predicate IsFirstOfAll(packets: seq<Packet>, i: nat, j: nat, guid: string, topic: string) {
    && i < |packets| && NoneOffers(packets[..i], guid, topic) && IsFirstOffer(packets[i].candidates, j, guid, topic)
  }

  lemma {:induction false} FirstSeenIs(packets: seq<Packet>, guid: string, topic: string) returns (i: nat, j: nat)
    ensures match FirstSeen(packets, guid, topic)
            case Some(e) => && IsFirstOfAll(packets, i, j, guid, topic)
                            && Restates(e, packets[i].candidates[j], packets[i].identity.srcIp)
            case None => NoneOffers(packets, guid, topic)
  {
    i, j := 0, 0;
    if packets != [] {
      var most, p := packets[..|packets| - 1], packets[|packets| - 1];
      i, j := FirstSeenIs(most, guid, topic);
      if FirstSeen(most, guid, topic).Some? {
        assert packets[..i] == most[..i];
      } else {
        i := |most|;
        j := FirstCandidateIs(p.candidates, p.identity.srcIp, guid, topic);
      }
    }
  }

  /**
    An endpoint is reported exactly if some packet offers it, and what is reported is the first
    offer: the first candidate of that GUID and topic with a type, in the first packet that has one.
   */
  lemma EndpointsAreFirstOffers(packets: seq<Packet>, guid: string, topic: string) returns (i: nat, j: nat)
    ensures match Lookup(Run(EMPTY, packets).endpoints, guid, topic)
            case Some(e) => && IsFirstOfAll(packets, i, j, guid, topic)
                            && Restates(e, packets[i].candidates[j], packets[i].identity.srcIp)
            case None => NoneOffers(packets, guid, topic)
  {
    EndpointsAreTheFirstSeen(packets, guid, topic);
    i, j := FirstSeenIs(packets, guid, topic);
  }

  // ----- packets seen again -----

  /** `p` has nothing left to add to `s`, its lease aside. */
  ghost predicate Absorbs(s: Summary, p: Packet) {
    && (Prefix(p) != "" ==>
          && Prefix(p) in s.participants
          && (GivesFlags(p) ==> s.participants[Prefix(p)].builtin.flags != [])
          && forall l :: l in p.locators ==> l in s.participants[Prefix(p)].locators)
    && forall c :: c in p.candidates && Complete(c) ==> Known(s.endpoints, c.guid, c.topic)
  }

  /** The same reports, leases aside. */
  ghost predicate SameButLeases(s: Summary, t: Summary) {
    && s.endpoints == t.endpoints
    && s.participants.Keys == t.participants.Keys
    && forall k :: k in s.participants ==> s.participants[k] == t.participants[k].(lease := s.participants[k].lease)
  }

  lemma StepAbsorbs(s: Summary, p: Packet)
    ensures Absorbs(Step(s, p), p)
  {
    forall c | c in p.candidates && Complete(c) ensures Known(Step(s, p).endpoints, c.guid, c.topic) {
      var i :| 0 <= i < |p.candidates| && p.candidates[i] == c;
      CandidatesKnown(s.endpoints, p.candidates, p.identity.srcIp, i);
    }
    AddNewKeeps([], p.locators);
    if Prefix(p) in s.participants {
      AddNewKeeps(s.participants[Prefix(p)].locators, p.locators);
    }
  }

  lemma AbsorbedStays(s: Summary, p: Packet, q: Packet)
    requires Absorbs(s, p)
    ensures Absorbs(Step(s, q), p)
  {
    EndpointsKept(s.endpoints, q.candidates, q.identity.srcIp);
    forall c | c in p.candidates && Complete(c) ensures Known(Step(s, q).endpoints, c.guid, c.topic) {
      KnownStays(s.endpoints, Step(s, q).endpoints, c.guid, c.topic);
    }
    if Prefix(q) in s.participants {
      AddNewKeeps(s.participants[Prefix(q)].locators, q.locators);
    }
  }

  lemma {:induction false} SeenIsAbsorbed(s: Summary, packets: seq<Packet>, p: Packet)
    requires Absorbs(s, p) || p in packets
    ensures Absorbs(Run(s, packets), p)
  {
    if packets != [] {
      var most, q := packets[..|packets| - 1], packets[|packets| - 1];
      assert packets == most + [q];
      if Absorbs(s, p) || p in most {
        SeenIsAbsorbed(s, most, p);
        AbsorbedStays(Run(s, most), p, q);
      } else {
        StepAbsorbs(Run(s, most), p);
      }
    }
  }

  lemma {:induction false} NoNewEndpoints(endpoints: seq<Endpoint>, candidates: seq<Candidate>, srcIp: string)
    requires forall c :: c in candidates && Complete(c) ==> Known(endpoints, c.guid, c.topic)
    ensures AddCandidates(endpoints, candidates, srcIp) == endpoints
  {
    if candidates != [] {
      NoNewEndpoints(endpoints, candidates[..|candidates| - 1], srcIp);
    }
  }

  lemma AbsorbedAddsNothing(s: Summary, p: Packet)
    requires Absorbs(s, p)
    ensures SameButLeases(s, Step(s, p))
  {
    NoNewEndpoints(s.endpoints, p.candidates, p.identity.srcIp);
    if Prefix(p) != "" {
      NothingNew(s.participants[Prefix(p)].locators, p.locators);
    }
  }

  /** Packets already seen, sent again in any order and number, can change nothing but leases. */
  lemma {:induction false} ReplayChangesOnlyLeases(s: Summary, packets: seq<Packet>, again: seq<Packet>)
    requires forall p :: p in again ==> p in packets
    ensures SameButLeases(Run(s, packets), Run(Run(s, packets), again))
  {
    var t := Run(s, packets);
    if again != [] {
      var most, p := again[..|again| - 1], again[|again| - 1];
      ReplayChangesOnlyLeases(s, packets, most);
      SeenIsAbsorbed(s, packets, p);
      SeenIsAbsorbed(t, most, p);
      AbsorbedAddsNothing(Run(t, most), p);
    }
  }

  lemma {:induction false} LeaseAfter(s: Summary, packets: seq<Packet>, k: string)
    requires k in s.participants && k != ""
    ensures k in Run(s, packets).participants
    ensures Run(s, packets).participants[k].lease == LastLease(PacketsOf(packets, k), s.participants[k].lease)
  {
    if packets != [] {
      var most, p := packets[..|packets| - 1], packets[|packets| - 1];
      LeaseAfter(s, most, k);
      if Prefix(p) == k {
        assert (PacketsOf(most, k) + [p])[..|PacketsOf(most, k)|] == PacketsOf(most, k);
      } else {
        assert PacketsOf(packets, k) == PacketsOf(most, k);
      }
    }
  }

  lemma {:induction false} LastLeaseAgain(own: seq<Packet>, a: real)
    ensures LastLease(own, LastLease(own, a)) == LastLease(own, a)
  {
    if own != [] {
      LastLeaseAgain(own[..|own| - 1], a);
    }
  }

  lemma LeaseSettles(packets: seq<Packet>, k: string)
    requires k in Run(EMPTY, packets).participants && k != ""
    ensures LastLease(PacketsOf(packets, k), Run(EMPTY, packets).participants[k].lease)
            == Run(EMPTY, packets).participants[k].lease
  {
    var own := PacketsOf(packets, k);
    ParticipantsAreMergedFromTheirPackets(packets, k);
    LastLeaseAgain(own, OrElse(own[0].lease, DEFAULT_LEASE));
  }

  /** Parsing the list twice in a row gives the same participants and endpoints as parsing it once. */
  lemma ParsingTwiceIsParsingOnce(packets: seq<Packet>)
    ensures Run(Run(EMPTY, packets), packets) == Run(EMPTY, packets)
  {
    var once := Run(EMPTY, packets);
    var twice := Run(once, packets);
    ReplayChangesOnlyLeases(EMPTY, packets, packets);
    NoNamelessParticipant(packets);
    forall k | k in once.participants ensures twice.participants[k] == once.participants[k] {
      ParticipantsAreMergedFromTheirPackets(packets, k);
      LeaseAfter(once, packets, k);
      LeaseSettles(packets, k);
    }
    assert twice.participants == once.participants;
  }
}
