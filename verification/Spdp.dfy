/**
  What the dissection tree of a packet says of its participant (`walk_tree` and
  `inspect_spdp_node` in discovery/rtps_discovery_sniffer.py), and the packet that
  `parse_discovery_data` goes on with.

  How values are decoded and shown is a parameter; a key stands once in a dictionary.
 */
module Spdp {
  import opened Bytes
  import opened Sequences
  import Discovery
  import Dissection

  type Json = Dissection.Json
  type Field = Dissection.Field

  /**
    `str.lower`; the first 24 characters of `format_guid`; `decode_vendor`, `decode_version`,
    `float` where it succeeds, `decode_builtin_endpoints`; how the address and the port of a
    locator are shown.
   */
  datatype Decoder = Decoder(
    lower: string -> string,
    prefix: Json -> string,
    vendor: Option<Json> -> (string, string),
    version: Option<Json> -> string,
    lease: Json -> Option<real>,
    builtin: Json -> Discovery.Builtin,
    ip: Json -> string,
    port: Json -> string
  )

  // ----- dictionaries -----

  /** `node.get(name)` */
  function Get(node: seq<Field>, name: string): Option<Json> {
    if node == [] then None else if node[0].name == name then Some(node[0].value) else Get(node[1..], name)
  }

  predicate Truthy(j: Json) {
    match j
    case Text(t) => t != ""
    case Dict(fields) => fields != []
    case List(items) => items != []
  }

  /** A value that counts as true, under the first name or else under the second. */
  function GetEither(node: seq<Field>, first: string, second: string): Option<Json> {
    var a, b := Get(node, first), Get(node, second);
    if a.Some? && Truthy(a.value) then a else if b.Some? && Truthy(b.value) then b else None
  }

  // ----- one key of one dictionary -----

  /** A key met on the walk, with the dictionary it stands in. */
  datatype Visit = Visit(node: seq<Field>, name: string, value: Json)

  function PrefixAt(d: Decoder, v: Visit): Option<string> {
    if Contains(d.lower(v.name), "pid_participant_guid") || v.name == "rtps.param.participant_guid" then
      Some(d.prefix(Discovery.OrElse(Get(v.node, "rtps.param.participant_guid"), v.value)))
    else None
  }

  function VendorAt(d: Decoder, v: Visit): Option<string> {
    if Contains(d.lower(v.name), "pid_vendor_id") || v.name == "rtps.vendorId" then
      Some(d.vendor(Some(Discovery.OrElse(Get(v.node, "rtps.vendorId"), v.value))).0)
    else None
  }

  function VersionAt(d: Decoder, v: Visit): Option<string> {
    if Contains(d.lower(v.name), "pid_protocol_version") || v.name == "rtps.version" then
      Some(d.version(Some(Discovery.OrElse(Get(v.node, "rtps.version"), v.value))))
    else None
  }

  function LeaseAt(d: Decoder, v: Visit): Option<real> {
    var seconds := Get(v.node, "rtps.param.ntpTime.sec");
    if Contains(d.lower(v.name), "lease_duration") && seconds.Some? then d.lease(seconds.value) else None
  }

  function BuiltinAt(d: Decoder, v: Visit): Option<Discovery.Builtin> {
    if Contains(d.lower(v.name), "builtin_endpoint_set") then
      Some(d.builtin(Discovery.OrElse(Get(v.node, "rtps.param.builtin_endpoint_set"), v.value)))
    else None
  }

  function LocatorAt(d: Decoder, v: Visit): Option<Discovery.Locator> {
    var name := d.lower(v.name);
    var ip := GetEither(v.node, "rtps.locator.ipv4", "rtps.locator_udp_v4.ip");
    var port := GetEither(v.node, "rtps.locator.port", "rtps.locator_udp_v4.port");
    if Contains(name, "locator") && ip.Some? && port.Some? then
      var kind := if Contains(name, "metatraffic") then "metatraffic_unicast"
                  else if Contains(name, "multicast") then "multicast"
                  else "unicast";
      Some(Discovery.Locator(kind, d.ip(ip.value), d.port(port.value)))
    else None
  }

  // ----- the walk -----

  datatype Found = Found(
    prefix: Option<string>,
    vendor: Option<string>,
    version: Option<string>,
    lease: Option<real>,
    builtin: Option<Discovery.Builtin>,
    locators: seq<Discovery.Locator>
  )

  const NOTHING := Found(None, None, None, None, None, [])

  function Note(d: Decoder, found: Found, v: Visit): Found {
    Found(Dissection.Later(PrefixAt(d, v), found.prefix), Dissection.Later(VendorAt(d, v), found.vendor),
          Dissection.Later(VersionAt(d, v), found.version), Dissection.Later(LeaseAt(d, v), found.lease),
          Dissection.Later(BuiltinAt(d, v), found.builtin),
          found.locators + match LocatorAt(d, v) case Some(l) => [l] case None => [])
  }

  function NoteAll(d: Decoder, found: Found, visits: seq<Visit>): Found {
    if visits == [] then found else Note(d, NoteAll(d, found, visits[..|visits| - 1]), visits[|visits| - 1])
  }

  /** The keys of one dictionary. */
  function Keys(node: seq<Field>): seq<Visit> {
    seq(|node|, i requires 0 <= i < |node| => Visit(node, node[i].name, node[i].value))
  }

  /** The keys of a tree in the order of the walk: all those of a dictionary before any below it. */
  function Visits(node: Json): seq<Visit>
    decreases node
  {
    match node
    case Text(_) => []
    case Dict(fields) => Keys(fields) + FieldVisits(fields)
    case List(items) => ItemVisits(items)
  }

  function FieldVisits(fields: seq<Field>): seq<Visit>
    decreases fields
  {
    if fields == [] then [] else Visits(fields[0].value) + FieldVisits(fields[1..])
  }

  function ItemVisits(items: seq<Json>): seq<Visit>
    decreases items
  {
    if items == [] then [] else Visits(items[0]) + ItemVisits(items[1..])
  }

  lemma {:induction false} NoteAllAppend(d: Decoder, found: Found, a: seq<Visit>, b: seq<Visit>)
    ensures NoteAll(d, found, a + b) == NoteAll(d, NoteAll(d, found, a), b)
  {
    if b == [] {
      assert a + b == a;
    } else {
      NoteAllAppend(d, found, a, b[..|b| - 1]);
      InitOfAppend(a, b);
    }
  }

  /** `inspect_spdp_node` */
  method InspectNode(d: Decoder, found0: Found, node: seq<Field>) returns (found: Found)
    ensures found == NoteAll(d, found0, Keys(node))
  {
    found := found0;
    for i := 0 to |node|
      invariant found == NoteAll(d, found0, Keys(node)[..i])
    {
      assert Keys(node)[..i + 1][..i] == Keys(node)[..i];
      found := Note(d, found, Visit(node, node[i].name, node[i].value));
    }
    assert Keys(node)[..|node|] == Keys(node);
  }

  /** `walk_tree`: the walk notes the keys of the tree one after the other. */
  method WalkTree(d: Decoder, found0: Found, node: Json) returns (found: Found)
    ensures found == NoteAll(d, found0, Visits(node))
    decreases node
  {
    match node {
      case Text(_) =>
        found := found0;
      case Dict(fields) =>
        found := InspectNode(d, found0, fields);
        NoteAllAppend(d, found0, Keys(fields), FieldVisits(fields));
        found := WalkFields(d, found, fields);
      case List(items) =>
        found := WalkItems(d, found0, items);
    }
  }

  method WalkFields(d: Decoder, found0: Found, fields: seq<Field>) returns (found: Found)
    ensures found == NoteAll(d, found0, FieldVisits(fields))
    decreases fields
  {
    if fields == [] {
      return found0;
    }
    found := WalkTree(d, found0, fields[0].value);
    NoteAllAppend(d, found0, Visits(fields[0].value), FieldVisits(fields[1..]));
    found := WalkFields(d, found, fields[1..]);
  }

  method WalkItems(d: Decoder, found0: Found, items: seq<Json>) returns (found: Found)
    ensures found == NoteAll(d, found0, ItemVisits(items))
    decreases items
  {
    if items == [] {
      return found0;
    }
    found := WalkTree(d, found0, items[0]);
    NoteAllAppend(d, found0, Visits(items[0]), ItemVisits(items[1..]));
    found := WalkItems(d, found, items[1..]);
  }

  // ----- what a tree says -----

  function Each<T>(visits: seq<Visit>, at: Visit -> Option<T>): seq<Option<T>> {
    seq(|visits|, i requires 0 <= i < |visits| => at(visits[i]))
  }

  lemma LastOfEach<T>(visits: seq<Visit>, at: Visit -> Option<T>)
    requires visits != []
    ensures var most, last := visits[..|visits| - 1], visits[|visits| - 1];
            Dissection.Last(Each(visits, at)) == Dissection.Later(at(last), Dissection.Last(Each(most, at)))
  {
    assert Each(visits, at)[..|visits| - 1] == Each(visits[..|visits| - 1], at);
  }

  /** Each field is what the last key says that says it at all; locators are collected. */
  lemma {:induction false} LastKeysWin(d: Decoder, visits: seq<Visit>)
    ensures var found := NoteAll(d, NOTHING, visits);
            && found.prefix == Dissection.Last(Each(visits, v => PrefixAt(d, v)))
            && found.vendor == Dissection.Last(Each(visits, v => VendorAt(d, v)))
            && found.version == Dissection.Last(Each(visits, v => VersionAt(d, v)))
            && found.lease == Dissection.Last(Each(visits, v => LeaseAt(d, v)))
            && found.builtin == Dissection.Last(Each(visits, v => BuiltinAt(d, v)))
  {
    if visits != [] {
      LastKeysWin(d, visits[..|visits| - 1]);
      LastOfEach(visits, v => PrefixAt(d, v));
      LastOfEach(visits, v => VendorAt(d, v));
      LastOfEach(visits, v => VersionAt(d, v));
      LastOfEach(visits, v => LeaseAt(d, v));
      LastOfEach(visits, v => BuiltinAt(d, v));
    }
  }

  /** The values present, in order. */
  function Present<T>(values: seq<Option<T>>): seq<T> {
    if values == [] then []
    else
      Present(values[..|values| - 1]) + match values[|values| - 1] case Some(x) => [x] case None => []
  }

  lemma {:induction false} IsPresent<T>(values: seq<Option<T>>, x: T)
    ensures x in Present(values) <==> Some(x) in values
  {
    if values != [] {
      IsPresent(values[..|values| - 1], x);
      InitAndLast(values);
    }
  }

  lemma {:induction false} LocatorsAreCollected(d: Decoder, visits: seq<Visit>)
    ensures NoteAll(d, NOTHING, visits).locators == Present(Each(visits, v => LocatorAt(d, v)))
  {
    if visits != [] {
      LocatorsAreCollected(d, visits[..|visits| - 1]);
      OneMorePresent(visits, v => LocatorAt(d, v));
    }
  }

  lemma OneMorePresent<T>(visits: seq<Visit>, at: Visit -> Option<T>)
    requires visits != []
    ensures var most, last := visits[..|visits| - 1], visits[|visits| - 1];
            Present(Each(visits, at)) == Present(Each(most, at)) + match at(last) case Some(x) => [x] case None => []
  {
    assert Each(visits, at)[..|visits| - 1] == Each(visits[..|visits| - 1], at);
  }

  // ----- what a packet says, in terms of its tree -----

  /** The key is this one, or its name in lower case has this word in it. */
  predicate Marked(d: Decoder, v: Visit, word: string, name: string) {
    v.name == name || Contains(d.lower(v.name), word)
  }

  /** What the dictionary has under this name, or else the value of the key itself. */
  function ValueOf(v: Visit, name: string): Json {
    match Get(v.node, name)
    case Some(value) => value
    case None => v.value
  }

  function When<T>(said: bool, value: T): Option<T> {
    if said then Some(value) else None
  }

  lemma SameEach<T>(visits: seq<Visit>, at: Visit -> Option<T>, at': Visit -> Option<T>)
    requires forall v :: at(v) == at'(v)
    ensures Each(visits, at) == Each(visits, at')
  {}

  function GuidSaid(d: Decoder): Visit -> Option<string> {
    (v: Visit) => When(Marked(d, v, "pid_participant_guid", "rtps.param.participant_guid"),
                       d.prefix(ValueOf(v, "rtps.param.participant_guid")))
  }

  function VendorSaid(d: Decoder): Visit -> Option<string> {
    (v: Visit) => When(Marked(d, v, "pid_vendor_id", "rtps.vendorId"),
                       d.vendor(Some(ValueOf(v, "rtps.vendorId"))).0)
  }

  function VersionSaid(d: Decoder): Visit -> Option<string> {
    (v: Visit) => When(Marked(d, v, "pid_protocol_version", "rtps.version"),
                       d.version(Some(ValueOf(v, "rtps.version"))))
  }

  function BuiltinSaid(d: Decoder): Visit -> Option<Discovery.Builtin> {
    (v: Visit) => When(Contains(d.lower(v.name), "builtin_endpoint_set"),
                       d.builtin(ValueOf(v, "rtps.param.builtin_endpoint_set")))
  }

  /** The seconds stand beside a key that speaks of a lease; what is no number says nothing. */
  function LeaseSaid(d: Decoder): Visit -> Option<real> {
    (v: Visit) => match Get(v.node, "rtps.param.ntpTime.sec")
                  case Some(seconds) => if Contains(d.lower(v.name), "lease_duration") then d.lease(seconds) else None
                  case None => None
  }

  /** `found` is what the keys of the tree say: of each field the last. */
  ghost predicate SaidBy(found: Found, d: Decoder, visits: seq<Visit>) {
    && found.prefix == Dissection.Last(Each(visits, GuidSaid(d)))
    && found.vendor == Dissection.Last(Each(visits, VendorSaid(d)))
    && found.version == Dissection.Last(Each(visits, VersionSaid(d)))
    && found.lease == Dissection.Last(Each(visits, LeaseSaid(d)))
    && found.builtin == Dissection.Last(Each(visits, BuiltinSaid(d)))
  }

  lemma ReadsTheValue(v: Visit)
    ensures forall name :: ValueOf(v, name) == Discovery.OrElse(Get(v.node, name), v.value)
  {}

  lemma PrefixIsSaid(d: Decoder, visits: seq<Visit>)
    ensures Each(visits, v => PrefixAt(d, v)) == Each(visits, GuidSaid(d))
  {
    forall v: Visit ensures PrefixAt(d, v) == GuidSaid(d)(v) {
      ReadsTheValue(v);
      var said := Marked(d, v, "pid_participant_guid", "rtps.param.participant_guid");
      assert GuidSaid(d)(v) == When(said, d.prefix(ValueOf(v, "rtps.param.participant_guid")));
    }
    SameEach(visits, v => PrefixAt(d, v), GuidSaid(d));
  }

  lemma VendorIsSaid(d: Decoder, visits: seq<Visit>)
    ensures Each(visits, v => VendorAt(d, v)) == Each(visits, VendorSaid(d))
  {
    forall v: Visit ensures VendorAt(d, v) == VendorSaid(d)(v) {
      ReadsTheValue(v);
      var said := Marked(d, v, "pid_vendor_id", "rtps.vendorId");
      assert VendorSaid(d)(v) == When(said, d.vendor(Some(ValueOf(v, "rtps.vendorId"))).0);
    }
    SameEach(visits, v => VendorAt(d, v), VendorSaid(d));
  }

  lemma VersionIsSaid(d: Decoder, visits: seq<Visit>)
    ensures Each(visits, v => VersionAt(d, v)) == Each(visits, VersionSaid(d))
  {
    forall v: Visit ensures VersionAt(d, v) == VersionSaid(d)(v) {
      ReadsTheValue(v);
      var said := Marked(d, v, "pid_protocol_version", "rtps.version");
      assert VersionSaid(d)(v) == When(said, d.version(Some(ValueOf(v, "rtps.version"))));
    }
    SameEach(visits, v => VersionAt(d, v), VersionSaid(d));
  }

  lemma LeaseIsSaid(d: Decoder, visits: seq<Visit>)
    ensures Each(visits, v => LeaseAt(d, v)) == Each(visits, LeaseSaid(d))
  {
    SameEach(visits, v => LeaseAt(d, v), LeaseSaid(d));
  }

  lemma BuiltinIsSaid(d: Decoder, visits: seq<Visit>)
    ensures Each(visits, v => BuiltinAt(d, v)) == Each(visits, BuiltinSaid(d))
  {
    SameEach(visits, v => BuiltinAt(d, v), BuiltinSaid(d));
  }

  lemma NotedIsSaid(d: Decoder, visits: seq<Visit>)
    ensures SaidBy(NoteAll(d, NOTHING, visits), d, visits)
  {
    LastKeysWin(d, visits);
    PrefixIsSaid(d, visits);
    VendorIsSaid(d, visits);
    VersionIsSaid(d, visits);
    LeaseIsSaid(d, visits);
    BuiltinIsSaid(d, visits);
  }

  /** The dictionary has a value other than nothing under the first name, or else under the second. */
  predicate Has(node: seq<Field>, first: string, second: string, value: Json) {
    && Truthy(value)
    && (Get(node, first) == Some(value)
        || ((Get(node, first).None? || !Truthy(Get(node, first).value)) && Get(node, second) == Some(value)))
  }

  /** The locator that stands beside a key: its address, its port, and its kind by the name of the key. */
  ghost predicate LocatorSaid(d: Decoder, v: Visit, l: Discovery.Locator) {
    var name := d.lower(v.name);
    && Contains(name, "locator")
    && (exists ip :: Has(v.node, "rtps.locator.ipv4", "rtps.locator_udp_v4.ip", ip) && l.ip == d.ip(ip))
    && (exists port :: Has(v.node, "rtps.locator.port", "rtps.locator_udp_v4.port", port) && l.port == d.port(port))
    && (Contains(name, "metatraffic") ==> l.kind == "metatraffic_unicast")
    && (!Contains(name, "metatraffic") && Contains(name, "multicast") ==> l.kind == "multicast")
    && (!Contains(name, "metatraffic") && !Contains(name, "multicast") ==> l.kind == "unicast")
  }

  lemma EitherIsHad(node: seq<Field>, first: string, second: string)
    ensures forall value :: GetEither(node, first, second) == Some(value) <==> Has(node, first, second, value)
  {}

  lemma LocatorIsSaid(d: Decoder, v: Visit)
    ensures forall l :: LocatorAt(d, v) == Some(l) <==> LocatorSaid(d, v, l)
  {
    EitherIsHad(v.node, "rtps.locator.ipv4", "rtps.locator_udp_v4.ip");
    EitherIsHad(v.node, "rtps.locator.port", "rtps.locator_udp_v4.port");
    var ip := GetEither(v.node, "rtps.locator.ipv4", "rtps.locator_udp_v4.ip");
    var port := GetEither(v.node, "rtps.locator.port", "rtps.locator_udp_v4.port");
    if ip.Some? {
      assert Has(v.node, "rtps.locator.ipv4", "rtps.locator_udp_v4.ip", ip.value);
    }
    if port.Some? {
      assert Has(v.node, "rtps.locator.port", "rtps.locator_udp_v4.port", port.value);
    }
  }

  // ----- the packet -----

  /** A captured packet: its source address and the dissection of its `rtps` layer. */
  datatype Captured = Captured(srcIp: string, rtps: seq<Field>)

  function HeaderPrefix(d: Decoder, rtps: seq<Field>): string {
    var guid := if Get(rtps, "rtps.guidPrefix").Some? then Get(rtps, "rtps.guidPrefix")
                else Get(rtps, "rtps.guidPrefix.src");
    if guid.Some? && Truthy(guid.value) then d.prefix(guid.value) else ""
  }

  /** What was found comes before the header; the vendor is decoded once more either way. */
  function IdentityOf(d: Decoder, found: Found, p: Captured): Discovery.Identity {
    var vendor := if found.vendor.Some? && found.vendor.value != "" then Some(Dissection.Text(found.vendor.value))
                  else Get(p.rtps, "rtps.vendorId");
    var version := if found.version.Some? && found.version.value != "" then found.version.value
                   else d.version(Get(p.rtps, "rtps.version"));
    Discovery.Identity(p.srcIp, d.vendor(vendor).0, d.vendor(vendor).1, version)
  }

  function PacketFrom(d: Decoder, e: Dissection.Decoder, found: Found, p: Captured): Discovery.Packet {
    Discovery.Packet(Discovery.OrElse(found.prefix, ""), HeaderPrefix(d, p.rtps), IdentityOf(d, found, p),
                     found.lease, found.builtin, found.locators, Dissection.Extract(e, Dissection.Dict(p.rtps)))
  }

  function PacketOf(d: Decoder, e: Dissection.Decoder, p: Captured): Discovery.Packet {
    PacketFrom(d, e, NoteAll(d, NOTHING, Visits(Dissection.Dict(p.rtps))), p)
  }

  function PacketsOf(d: Decoder, e: Dissection.Decoder, captured: seq<Captured>): (packets: seq<Discovery.Packet>)
    ensures |packets| == |captured|
  {
    seq(|captured|, i requires 0 <= i < |captured| => PacketOf(d, e, captured[i]))
  }

  method ReadPacket(d: Decoder, e: Dissection.Decoder, p: Captured) returns (packet: Discovery.Packet)
    ensures packet == PacketOf(d, e, p)
  {
    var found := WalkTree(d, NOTHING, Dissection.Dict(p.rtps));
    packet := PacketFrom(d, e, found, p);
  }

  /** The prefix in the header: of its two names the second only where the first is missing. */
  function HeaderGuid(rtps: seq<Field>): Option<Json> {
    match Get(rtps, "rtps.guidPrefix")
    case Some(guid) => Some(guid)
    case None => Get(rtps, "rtps.guidPrefix.src")
  }

  /** Of a text that may be missing, one that is there and not empty. */
  predicate IsSaid(text: Option<string>) {
    text.Some? && text.value != ""
  }

  /**
    A packet is what the keys of its tree say, each field on its own: of prefix, vendor, version,
    lease and built-in endpoints the last key that says it, where the vendor and the version not
    said come from the header, and the prefix of the header is kept beside the one said; and the
    locators of all keys in order.
   */
  lemma WhatACaptureSays(d: Decoder, e: Dissection.Decoder, p: Captured)
    ensures var visits, packet := Visits(Dissection.Dict(p.rtps)), PacketOf(d, e, p);
            var vendor := Dissection.Last(Each(visits, VendorSaid(d)));
            var version := Dissection.Last(Each(visits, VersionSaid(d)));
            var prefix := Dissection.Last(Each(visits, GuidSaid(d)));
            && packet.foundPrefix == (if prefix.Some? then prefix.value else "")
            && packet.headerPrefix == (match HeaderGuid(p.rtps)
                                       case Some(guid) => if Truthy(guid) then d.prefix(guid) else ""
                                       case None => "")
            && packet.identity.srcIp == p.srcIp
            && (packet.identity.vendorId, packet.identity.vendorName)
               == d.vendor(if IsSaid(vendor) then Some(Dissection.Text(vendor.value)) else Get(p.rtps, "rtps.vendorId"))
            && packet.identity.version
               == (if IsSaid(version) then version.value else d.version(Get(p.rtps, "rtps.version")))
            && packet.lease == Dissection.Last(Each(visits, LeaseSaid(d)))
            && packet.builtin == Dissection.Last(Each(visits, BuiltinSaid(d)))
            && packet.locators == Present(Each(visits, v => LocatorAt(d, v)))
            && packet.candidates == Dissection.Extract(e, Dissection.Dict(p.rtps))
  {
    var visits := Visits(Dissection.Dict(p.rtps));
    NotedIsSaid(d, visits);
    LocatorsAreCollected(d, visits);
  }

  lemma RunNext(packets: seq<Discovery.Packet>, i: nat)
    requires i < |packets|
    ensures Discovery.Run(Discovery.EMPTY, packets[..i + 1])
            == Discovery.Step(Discovery.Run(Discovery.EMPTY, packets[..i]), packets[i])
  {
    assert packets[..i + 1][..i] == packets[..i];
  }

  /** `parse_discovery_data`, from the dissection trees on. */
  method ParseCapture(d: Decoder, e: Dissection.Decoder, captured: seq<Captured>)
    returns (accumulator: Discovery.Accumulator)
    ensures fresh(accumulator) && accumulator.View() == Discovery.Run(Discovery.EMPTY, PacketsOf(d, e, captured))
  {
    accumulator := new Discovery.Accumulator();
    ghost var packets := PacketsOf(d, e, captured);
    for i := 0 to |captured|
      invariant fresh(accumulator) && accumulator.View() == Discovery.Run(Discovery.EMPTY, packets[..i])
    {
      RunNext(packets, i);
      var p := ReadPacket(d, e, captured[i]);
      accumulator.Absorb(p);
    }
    assert packets[..|packets|] == packets;
  }

  // ----- from the trees to the report -----

  /** Some dictionary in the tree gives this locator. */
  ghost predicate Gives(d: Decoder, p: Captured, l: Discovery.Locator) {
    var visits := Visits(Dissection.Dict(p.rtps));
    exists i :: 0 <= i < |visits| && LocatorSaid(d, visits[i], l)
  }

  lemma GivesWhatIsSaid(d: Decoder, p: Captured, l: Discovery.Locator)
    ensures Gives(d, p, l) <==> Some(l) in Each(Visits(Dissection.Dict(p.rtps)), v => LocatorAt(d, v))
  {
    var visits := Visits(Dissection.Dict(p.rtps));
    var each := Each(visits, v => LocatorAt(d, v));
    forall i | 0 <= i < |visits| ensures each[i] == Some(l) <==> LocatorSaid(d, visits[i], l) {
      LocatorIsSaid(d, visits[i]);
    }
    if i :| 0 <= i < |visits| && LocatorSaid(d, visits[i], l) {
      assert each[i] == Some(l);
    }
  }

  ghost predicate SomeCarries(packets: seq<Discovery.Packet>, k: string, l: Discovery.Locator) {
    exists i :: 0 <= i < |packets| && CarriesFor(packets[i], k, l)
  }

  lemma {:induction false} LocatorsOfOwnPackets(packets: seq<Discovery.Packet>, k: string, l: Discovery.Locator)
    ensures l in Discovery.AllLocators(Discovery.PacketsOf(packets, k)) <==> SomeCarries(packets, k, l)
  {
    if packets != [] {
      var most, last := packets[..|packets| - 1], packets[|packets| - 1];
      LocatorsOfOwnPackets(most, k, l);
      LocatorsOfOneMore(Discovery.PacketsOf(most, k), last);
      CarriedByOneMore(most, last, k, l);
      InitAndLast(packets);
      assert Discovery.PacketsOf(most, k) + [] == Discovery.PacketsOf(most, k);
    }
  }

  lemma CarriedByOneMore(most: seq<Discovery.Packet>, last: Discovery.Packet, k: string, l: Discovery.Locator)
    ensures SomeCarries(most + [last], k, l) <==> SomeCarries(most, k, l) || CarriesFor(last, k, l)
  {
    var packets := most + [last];
    assert packets[|most|] == last;
    if i :| 0 <= i < |most| && CarriesFor(most[i], k, l) {
      assert packets[i] == most[i];
    }
    if i :| 0 <= i < |packets| && CarriesFor(packets[i], k, l) {
      assert i < |most| ==> packets[i] == most[i];
    }
  }

  predicate CarriesFor(p: Discovery.Packet, k: string, l: Discovery.Locator) {
    Discovery.Prefix(p) == k && l in p.locators
  }

  lemma LocatorsOfOneMore(own: seq<Discovery.Packet>, p: Discovery.Packet)
    ensures Discovery.AllLocators(own + [p]) == Discovery.AllLocators(own) + p.locators
  {
    assert (own + [p])[..|own|] == own;
  }

  /**
    A locator is reported for a participant exactly if a captured packet under that prefix has it
    somewhere in its tree, whatever part of the packet it belongs to.
   */
  lemma LocatorsComeFromTheTrees(d: Decoder, e: Dissection.Decoder, captured: seq<Captured>, k: string,
                                 l: Discovery.Locator)
    requires k != ""
    ensures var participants := Discovery.Run(Discovery.EMPTY, PacketsOf(d, e, captured)).participants;
            (k in participants && l in participants[k].locators) <==>
            exists i :: 0 <= i < |captured| && Discovery.Prefix(PacketOf(d, e, captured[i])) == k
                        && Gives(d, captured[i], l)
  {
    var packets := PacketsOf(d, e, captured);
    var own := Discovery.PacketsOf(packets, k);
    Discovery.ParticipantsAreMergedFromTheirPackets(packets, k);
    LocatorsOfOwnPackets(packets, k, l);
    AddNewKeeps([], Discovery.AllLocators(own));
    forall i | 0 <= i < |captured|
      ensures CarriesFor(packets[i], k, l) <==>
              Discovery.Prefix(PacketOf(d, e, captured[i])) == k && Gives(d, captured[i], l)
    {
      var visits := Visits(Dissection.Dict(captured[i].rtps));
      LocatorsAreCollected(d, visits);
      IsPresent(Each(visits, v => LocatorAt(d, v)), l);
      GivesWhatIsSaid(d, captured[i], l);
    }
    if i :| 0 <= i < |captured| && Discovery.Prefix(PacketOf(d, e, captured[i])) == k && Gives(d, captured[i], l) {
      assert CarriesFor(packets[i], k, l);
    }
  }
}
