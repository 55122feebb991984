/**
  How the candidate endpoints of a packet are taken from its dissection tree
  (`extract_sedp_endpoints` in discovery/rtps_discovery_sniffer.py).

  How values are shown as text and decoded is a parameter.  The sniffer searches the words
  that mark an endpoint in a serialised subtree; here they are searched in its names and texts, as
  they hold no character that serialising adds or escapes.
 */
module Dissection {
  import opened Bytes
  import opened Sequences
  import Discovery

  datatype Json = Text(text: string) | Dict(fields: seq<Field>) | List(items: seq<Json>)

  datatype Field = Field(name: string, value: Json)

  const TOPIC := "rtps.param.topicName"
  const TYPE := "rtps.param.typeName"
  const GUID := "rtps.param.endpoint_guid"
  const PID_GUID := "PID_ENDPOINT_GUID"
  const RELIABILITY := "rtps.reliability_kind"
  const DURABILITY := "rtps.durability"
  const OWNERSHIP := "rtps.ownership"

  /** `str`, `format_guid`, the kind named by a GUID, and the decoding of the policy named first. */
  datatype Decoder = Decoder(
    show: Json -> string,
    guid: Json -> string,
    kind: string -> string,
    policy: (string, Json) -> string
  )

  // ----- the candidate of a subtree -----

  /** What has been found of a candidate so far. */
  datatype Found = Found(
    topic: Option<string>,
    typeName: Option<string>,
    guid: Option<string>,
    reliability: Option<string>,
    durability: Option<string>,
    ownership: Option<string>
  )

  const NOTHING := Found(None, None, None, None, None, None)

  datatype Kind = TopicField | TypeField | GuidField | ReliabilityField | DurabilityField | OwnershipField | OtherField

  function KindOf(name: string): Kind {
    if name == TOPIC then TopicField
    else if name == TYPE then TypeField
    else if name == GUID then GuidField
    else if name == RELIABILITY then ReliabilityField
    else if name == DURABILITY then DurabilityField
    else if name == OWNERSHIP then OwnershipField
    else OtherField
  }

  /** One field, by name; a later one of the same name replaces an earlier. */
  function Note(d: Decoder, found: Found, f: Field): Found {
    NoteKind(d, found, KindOf(f.name), f.value)
  }

  function NoteKind(d: Decoder, found: Found, kind: Kind, v: Json): Found {
    match kind
    case TopicField => found.(topic := Some(d.show(v)))
    case TypeField => found.(typeName := Some(d.show(v)))
    case GuidField => if |d.guid(v)| >= 24 then found.(guid := Some(d.guid(v))) else found
    case ReliabilityField => found.(reliability := Some(d.policy(RELIABILITY, v)))
    case DurabilityField => found.(durability := Some(d.policy(DURABILITY, v)))
    case OwnershipField => found.(ownership := Some(d.policy(OWNERSHIP, v)))
    case OtherField => found
  }

  /** `inspect_cand`: every field of the subtree, in order, each before what is below it. */
  function Inspect(d: Decoder, found: Found, node: Json): Found
    decreases node
  {
    match node
    case Text(_) => found
    case Dict(fields) => InspectFields(d, found, fields)
    case List(items) => InspectItems(d, found, items)
  }

  function InspectFields(d: Decoder, found: Found, fields: seq<Field>): Found
    decreases fields
  {
    if fields == [] then found
    else InspectFields(d, Inspect(d, Note(d, found, fields[0]), fields[0].value), fields[1..])
  }

  function InspectItems(d: Decoder, found: Found, items: seq<Json>): Found
    decreases items
  {
    if items == [] then found else InspectItems(d, Inspect(d, found, items[0]), items[1..])
  }

  /** A candidate; an absent name counts as an empty one, which makes it incomplete. */
  function CandidateOf(d: Decoder, found: Found): Discovery.Candidate {
    Discovery.Candidate(Discovery.OrElse(found.topic, ""), Discovery.OrElse(found.typeName, ""),
                        Discovery.OrElse(found.guid, ""),
                        if found.guid.Some? then d.kind(found.guid.value) else "",
                        found.reliability, found.durability, found.ownership)
  }

  /** The word stands in some name or text of the subtree. */
  predicate Mentions(node: Json, word: string)
    decreases node
  {
    match node
    case Text(t) => Contains(t, word)
    case Dict(fields) =>
      exists i :: 0 <= i < |fields| && (Contains(fields[i].name, word) || Mentions(fields[i].value, word))
    case List(items) => exists i :: 0 <= i < |items| && Mentions(items[i], word)
  }

  predicate Announces(node: Json) {
    Mentions(node, TOPIC) && (Mentions(node, GUID) || Mentions(node, PID_GUID))
  }

  /** `extract_sedp_endpoints`: the outermost complete candidates, from left to right. */
  function Extract(d: Decoder, node: Json): seq<Discovery.Candidate>
    decreases node
  {
    match node
    case Text(_) => []
    case List(items) => ExtractItems(d, items)
    case Dict(fields) =>
      var c := CandidateOf(d, Inspect(d, NOTHING, node));
      if Announces(node) && Discovery.Complete(c) then [c] else ExtractFields(d, fields)
  }

  function ExtractFields(d: Decoder, fields: seq<Field>): seq<Discovery.Candidate>
    decreases fields
  {
    if fields == [] then [] else Extract(d, fields[0].value) + ExtractFields(d, fields[1..])
  }

  function ExtractItems(d: Decoder, items: seq<Json>): seq<Discovery.Candidate>
    decreases items
  {
    if items == [] then [] else Extract(d, items[0]) + ExtractItems(d, items[1..])
  }

  // ----- the last value of a name wins -----

  /** The fields of a subtree in the order in which they are inspected. */
  function Visited(node: Json): seq<Field>
    decreases node
  {
    match node
    case Text(_) => []
    case Dict(fields) => VisitedFields(fields)
    case List(items) => VisitedItems(items)
  }

  function VisitedFields(fields: seq<Field>): seq<Field>
    decreases fields
  {
    if fields == [] then [] else [fields[0]] + (Visited(fields[0].value) + VisitedFields(fields[1..]))
  }

  function VisitedItems(items: seq<Json>): seq<Field>
    decreases items
  {
    if items == [] then [] else Visited(items[0]) + VisitedItems(items[1..])
  }

  function NoteAll(d: Decoder, found: Found, fields: seq<Field>): Found {
    if fields == [] then found else Note(d, NoteAll(d, found, fields[..|fields| - 1]), fields[|fields| - 1])
  }

  lemma {:induction false} NoteAllAppend(d: Decoder, found: Found, a: seq<Field>, b: seq<Field>)
    ensures NoteAll(d, found, a + b) == NoteAll(d, NoteAll(d, found, a), b)
  {
    if b == [] {
      assert a + b == a;
    } else {
      NoteAllAppend(d, found, a, b[..|b| - 1]);
      InitOfAppend(a, b);
    }
  }

  lemma NoteAllOne(d: Decoder, found: Found, f: Field)
    ensures NoteAll(d, found, [f]) == Note(d, found, f)
  {
    assert [f][..0] == [];
  }

  /** Inspecting a subtree notes its fields one after the other. */
  lemma {:induction false} InspectNotesInOrder(d: Decoder, found: Found, node: Json)
    ensures Inspect(d, found, node) == NoteAll(d, found, Visited(node))
    decreases node
  {
    match node
    case Text(_) =>
    case Dict(fields) => FieldsNotedInOrder(d, found, fields);
    case List(items) => ItemsNotedInOrder(d, found, items);
  }

  lemma {:induction false} FieldsNotedInOrder(d: Decoder, found: Found, fields: seq<Field>)
    ensures InspectFields(d, found, fields) == NoteAll(d, found, VisitedFields(fields))
    decreases fields
  {
    if fields != [] {
      var f, rest := fields[0], VisitedFields(fields[1..]);
      var noted := Note(d, found, f);
      InspectNotesInOrder(d, noted, f.value);
      FieldsNotedInOrder(d, Inspect(d, noted, f.value), fields[1..]);
      NoteAllAppend(d, noted, Visited(f.value), rest);
      NoteAllOne(d, found, f);
      NoteAllAppend(d, found, [f], Visited(f.value) + rest);
    }
  }

  lemma {:induction false} ItemsNotedInOrder(d: Decoder, found: Found, items: seq<Json>)
    ensures InspectItems(d, found, items) == NoteAll(d, found, VisitedItems(items))
    decreases items
  {
    if items != [] {
      InspectNotesInOrder(d, found, items[0]);
      ItemsNotedInOrder(d, Inspect(d, found, items[0]), items[1..]);
      NoteAllAppend(d, found, Visited(items[0]), VisitedItems(items[1..]));
    }
  }

  /** `y` is what `x` says of topic, type and GUID, and where it says nothing, what `b` says. */
  predicate Overrides(y: Found, x: Found, b: Found) {
    && (y.topic == if x.topic.Some? then x.topic else b.topic)
    && (y.typeName == if x.typeName.Some? then x.typeName else b.typeName)
    && (y.guid == if x.guid.Some? then x.guid else b.guid)
  }

  lemma NoteOverrides(d: Decoder, y: Found, x: Found, b: Found, kind: Kind, v: Json)
    requires Overrides(y, x, b)
    ensures Overrides(NoteKind(d, y, kind, v), NoteKind(d, x, kind, v), b)
  {}

  /** What a subtree holds of topic, type and GUID it says itself, whatever was found before. */
  lemma {:induction false} LaterNotesWin(d: Decoder, b: Found, fields: seq<Field>)
    ensures Overrides(NoteAll(d, b, fields), NoteAll(d, NOTHING, fields), b)
  {
    if fields != [] {
      var most, last := fields[..|fields| - 1], fields[|fields| - 1];
      LaterNotesWin(d, b, most);
      NoteOverrides(d, NoteAll(d, b, most), NoteAll(d, NOTHING, most), b, KindOf(last.name), last.value);
    }
  }

  // ----- a packet announces at most one endpoint -----

  /** Whatever `a` has found of topic, type and GUID, `b` has found too. */
  predicate Covers(b: Found, a: Found) {
    (a.topic.Some? ==> b.topic.Some?) && (a.typeName.Some? ==> b.typeName.Some?) && (a.guid.Some? ==> b.guid.Some?)
  }

  lemma {:induction false} InspectKeeps(d: Decoder, a: Found, b: Found, node: Json)
    requires Covers(b, a)
    ensures Covers(Inspect(d, b, node), b) && Covers(Inspect(d, b, node), Inspect(d, a, node))
    decreases node
  {
    match node
    case Text(_) =>
    case Dict(fields) => InspectFieldsKeeps(d, a, b, fields);
    case List(items) => InspectItemsKeeps(d, a, b, items);
  }

  lemma NoteKeeps(d: Decoder, a: Found, b: Found, f: Field)
    requires Covers(b, a)
    ensures Covers(Note(d, b, f), b) && Covers(Note(d, b, f), Note(d, a, f))
  {
    NoteKindKeeps(d, a, b, KindOf(f.name), f.value);
  }

  lemma NoteKindKeeps(d: Decoder, a: Found, b: Found, kind: Kind, v: Json)
    requires Covers(b, a)
    ensures Covers(NoteKind(d, b, kind, v), b) && Covers(NoteKind(d, b, kind, v), NoteKind(d, a, kind, v))
  {}

  lemma {:induction false} InspectFieldsKeeps(d: Decoder, a: Found, b: Found, fields: seq<Field>)
    requires Covers(b, a)
    ensures Covers(InspectFields(d, b, fields), b)
    ensures Covers(InspectFields(d, b, fields), InspectFields(d, a, fields))
    decreases fields
  {
    if fields != [] {
      var f := fields[0];
      var a', b' := Note(d, a, f), Note(d, b, f);
      NoteKeeps(d, a, b, f);
      InspectKeeps(d, a', b', f.value);
      InspectFieldsKeeps(d, Inspect(d, a', f.value), Inspect(d, b', f.value), fields[1..]);
    }
  }

  lemma {:induction false} InspectItemsKeeps(d: Decoder, a: Found, b: Found, items: seq<Json>)
    requires Covers(b, a)
    ensures Covers(InspectItems(d, b, items), b)
    ensures Covers(InspectItems(d, b, items), InspectItems(d, a, items))
    decreases items
  {
    if items != [] {
      InspectKeeps(d, a, b, items[0]);
      InspectItemsKeeps(d, Inspect(d, a, items[0]), Inspect(d, b, items[0]), items[1..]);
    }
  }

  /** What is found in a field or an item is found in the whole. */
  lemma {:induction false} FieldsCover(d: Decoder, found: Found, fields: seq<Field>, k: nat)
    requires k < |fields|
    ensures Covers(InspectFields(d, found, fields), Inspect(d, NOTHING, fields[k].value))
    decreases fields
  {
    var f := fields[0];
    var noted := Note(d, found, f);
    InspectKeeps(d, NOTHING, noted, f.value);
    if k == 0 {
      InspectFieldsKeeps(d, NOTHING, Inspect(d, noted, f.value), fields[1..]);
    } else {
      FieldsCover(d, Inspect(d, noted, f.value), fields[1..], k - 1);
    }
  }

  lemma {:induction false} ItemsCover(d: Decoder, found: Found, items: seq<Json>, k: nat)
    requires k < |items|
    ensures Covers(InspectItems(d, found, items), Inspect(d, NOTHING, items[k]))
    decreases items
  {
    InspectKeeps(d, NOTHING, found, items[0]);
    if k == 0 {
      InspectItemsKeeps(d, NOTHING, Inspect(d, found, items[0]), items[1..]);
    } else {
      ItemsCover(d, Inspect(d, found, items[0]), items[1..], k - 1);
    }
  }

  /** The subtree announces an endpoint and holds a topic, a type and a GUID. */
  predicate Holds(d: Decoder, node: Json) {
    var found := Inspect(d, NOTHING, node);
    Announces(node) && found.topic.Some? && found.typeName.Some? && found.guid.Some?
  }

  /** Topic or type, as found last, are shown as an empty text. */
  predicate Nameless(d: Decoder, node: Json) {
    var found := Inspect(d, NOTHING, node);
    found.topic == Some("") || found.typeName == Some("")
  }

  predicate LongGuid(found: Found) {
    found.guid.Some? ==> |found.guid.value| >= 24
  }

  lemma {:induction false} GuidsAreLong(d: Decoder, found: Found, fields: seq<Field>)
    requires LongGuid(found)
    ensures LongGuid(NoteAll(d, found, fields))
  {
    if fields != [] {
      GuidsAreLong(d, found, fields[..|fields| - 1]);
    }
  }

  lemma CompleteWhenFound(d: Decoder, node: Json)
    ensures Discovery.Complete(CandidateOf(d, Inspect(d, NOTHING, node))) <==>
            var found := Inspect(d, NOTHING, node);
            found.topic.Some? && found.typeName.Some? && found.guid.Some? && !Nameless(d, node)
  {
    InspectNotesInOrder(d, NOTHING, node);
    GuidsAreLong(d, NOTHING, Visited(node));
  }

  /** A subtree in which nothing can be completed yields nothing. */
  lemma {:induction false} NothingToExtract(d: Decoder, node: Json)
    requires !Holds(d, node)
    ensures Extract(d, node) == []
    decreases node
  {
    match node
    case Text(_) =>
    case Dict(fields) =>
      CompleteWhenFound(d, node);
      forall k | 0 <= k < |fields| ensures !Holds(d, fields[k].value) {
        FieldsCover(d, NOTHING, fields, k);
      }
      NothingInFields(d, fields);
    case List(items) =>
      forall k | 0 <= k < |items| ensures !Holds(d, items[k]) {
        ItemsCover(d, NOTHING, items, k);
      }
      NothingInItems(d, items);
  }

  lemma {:induction false} NothingInFields(d: Decoder, fields: seq<Field>)
    requires forall i :: 0 <= i < |fields| ==> !Holds(d, fields[i].value)
    ensures ExtractFields(d, fields) == []
    decreases fields
  {
    if fields != [] {
      NothingToExtract(d, fields[0].value);
      NothingInFields(d, fields[1..]);
    }
  }

  lemma {:induction false} NothingInItems(d: Decoder, items: seq<Json>)
    requires forall i :: 0 <= i < |items| ==> !Holds(d, items[i])
    ensures ExtractItems(d, items) == []
    decreases items
  {
    if items != [] {
      NothingToExtract(d, items[0]);
      NothingInItems(d, items[1..]);
    }
  }

  /**
    A packet - a dictionary at the top - that does not announce an endpoint or lacks a topic, a
    type or a GUID gives no candidate, and any other gives one: the merge of everything in it.
    Only if the topic or the type found last is empty are its parts looked at one by one.
   */
  lemma APacketIsOneCandidate(d: Decoder, fields: seq<Field>)
    ensures var packet := Dict(fields);
            Extract(d, packet) == if !Holds(d, packet) then []
                                  else if Nameless(d, packet) then ExtractFields(d, fields)
                                  else [CandidateOf(d, Inspect(d, NOTHING, packet))]
  {
    CompleteWhenFound(d, Dict(fields));
    if !Holds(d, Dict(fields)) {
      NothingToExtract(d, Dict(fields));
    }
  }

  // ----- what is merged of the parts of a packet -----

  /** A field that names nothing of an endpoint itself. */
  predicate Plain(f: Field) {
    KindOf(f.name) == OtherField
  }

  /** The last value present. */
  function Last<T>(values: seq<Option<T>>): Option<T> {
    if values == [] then None
    else if values[|values| - 1].Some? then values[|values| - 1]
    else Last(values[..|values| - 1])
  }

  function Topics(d: Decoder, fields: seq<Field>): seq<Option<string>> {
    seq(|fields|, i requires 0 <= i < |fields| => Inspect(d, NOTHING, fields[i].value).topic)
  }

  function Types(d: Decoder, fields: seq<Field>): seq<Option<string>> {
    seq(|fields|, i requires 0 <= i < |fields| => Inspect(d, NOTHING, fields[i].value).typeName)
  }

  function Guids(d: Decoder, fields: seq<Field>): seq<Option<string>> {
    seq(|fields|, i requires 0 <= i < |fields| => Inspect(d, NOTHING, fields[i].value).guid)
  }

  lemma {:induction false} FieldsInit(d: Decoder, found: Found, fields: seq<Field>)
    requires fields != []
    ensures var most, f := fields[..|fields| - 1], fields[|fields| - 1];
            InspectFields(d, found, fields) == Inspect(d, Note(d, InspectFields(d, found, most), f), f.value)
    decreases |fields|
  {
    var next := Inspect(d, Note(d, found, fields[0]), fields[0].value);
    if |fields| == 1 {
      assert fields[1..] == [] && fields[..0] == [];
    } else {
      FieldsInit(d, next, fields[1..]);
      assert fields[1..][..|fields| - 2] == fields[..|fields| - 1][1..];
    }
  }

  /**
    Of the parts of a packet each name is taken from the last part that has it, topic, type and
    GUID one by one.
   */
  lemma {:induction false} EachNameFromItsLastPart(d: Decoder, fields: seq<Field>)
    requires forall i :: 0 <= i < |fields| ==> Plain(fields[i])
    ensures var found := Inspect(d, NOTHING, Dict(fields));
            && found.topic == Last(Topics(d, fields))
            && found.typeName == Last(Types(d, fields))
            && found.guid == Last(Guids(d, fields))
    decreases |fields|
  {
    if fields != [] {
      var n := |fields| - 1;
      var most, last := fields[..n], fields[n].value;
      EachNameFromItsLastPart(d, most);
      FieldsInit(d, NOTHING, fields);
      var found := InspectFields(d, NOTHING, most);
      InspectNotesInOrder(d, found, last);
      InspectNotesInOrder(d, NOTHING, last);
      LaterNotesWin(d, found, Visited(last));
      OneMorePart(d, fields);
    }
  }

  function Later<T>(value: Option<T>, before: Option<T>): Option<T> {
    if value.Some? then value else before
  }

  lemma OneMorePart(d: Decoder, fields: seq<Field>)
    requires fields != []
    ensures var most, last := fields[..|fields| - 1], Inspect(d, NOTHING, fields[|fields| - 1].value);
            && Last(Topics(d, fields)) == Later(last.topic, Last(Topics(d, most)))
            && Last(Types(d, fields)) == Later(last.typeName, Last(Types(d, most)))
            && Last(Guids(d, fields)) == Later(last.guid, Last(Guids(d, most)))
  {
    var n := |fields| - 1;
    assert Topics(d, fields)[..n] == Topics(d, fields[..n]);
    assert Types(d, fields)[..n] == Types(d, fields[..n]);
    assert Guids(d, fields)[..n] == Guids(d, fields[..n]);
  }

  lemma PartAnnounces(fields: seq<Field>, k: nat)
    requires k < |fields| && Announces(fields[k].value)
    ensures Announces(Dict(fields))
  {}

  /** Of any number of endpoints announced in one packet only the last is reported. */
  lemma TheLastAnnouncementWins(d: Decoder, fields: seq<Field>)
    requires fields != [] && forall i :: 0 <= i < |fields| ==> Plain(fields[i])
    requires Holds(d, fields[|fields| - 1].value) && !Nameless(d, fields[|fields| - 1].value)
    ensures var reported, last := Extract(d, Dict(fields)), Inspect(d, NOTHING, fields[|fields| - 1].value);
            |reported| == 1 && Names(reported[0], last)
  {
    var n := |fields| - 1;
    EachNameFromItsLastPart(d, fields);
    OneMorePart(d, fields);
    PartAnnounces(fields, n);
    APacketIsOneCandidate(d, fields);
    SameNames(d, Inspect(d, NOTHING, Dict(fields)), Inspect(d, NOTHING, fields[n].value));
  }

  lemma SameNames(d: Decoder, whole: Found, part: Found)
    requires part.topic.Some? && part.typeName.Some? && part.guid.Some?
    requires whole.topic == part.topic && whole.typeName == part.typeName && whole.guid == part.guid
    ensures Names(CandidateOf(d, whole), part)
  {}

  /** The candidate has the topic, type and GUID found. */
  predicate Names(c: Discovery.Candidate, found: Found) {
    found.topic == Some(c.topic) && found.typeName == Some(c.typeName) && found.guid == Some(c.guid)
  }

  // ----- what a packet reports, field by field -----

  /** The values of the fields of this name as shown, one place for each field. */
  function Shown(d: Decoder, fields: seq<Field>, name: string): seq<Option<string>> {
    seq(|fields|, i requires 0 <= i < |fields| =>
      if fields[i].name == name then Some(d.show(fields[i].value)) else None)
  }

  /** GUIDs of fewer than 24 characters do not count. */
  function LongGuids(d: Decoder, fields: seq<Field>): seq<Option<string>> {
    seq(|fields|, i requires 0 <= i < |fields| =>
      if fields[i].name == "rtps.param.endpoint_guid" && |d.guid(fields[i].value)| >= 24
      then Some(d.guid(fields[i].value)) else None)
  }

  function Policies(d: Decoder, fields: seq<Field>, name: string): seq<Option<string>> {
    seq(|fields|, i requires 0 <= i < |fields| =>
      if fields[i].name == name then Some(d.policy(name, fields[i].value)) else None)
  }

  /** The kinds tell the names apart. */
  lemma KindIsNamed(name: string)
    ensures name == "rtps.param.topicName" <==> KindOf(name) == TopicField
    ensures name == "rtps.param.typeName" <==> KindOf(name) == TypeField
    ensures name == "rtps.param.endpoint_guid" <==> KindOf(name) == GuidField
    ensures name == "rtps.reliability_kind" <==> KindOf(name) == ReliabilityField
    ensures name == "rtps.durability" <==> KindOf(name) == DurabilityField
    ensures name == "rtps.ownership" <==> KindOf(name) == OwnershipField
  {
    var topic, typeName, guid := TOPIC, TYPE, GUID;
    var reliability, durability, ownership := RELIABILITY, DURABILITY, OWNERSHIP;
    assert topic[5] == 'p' && typeName[5] == 'p' && guid[5] == 'p' && topic[11] == 't' && guid[11] == 'e';
    assert topic[12] == 'o' && typeName[12] == 'y';
    assert reliability[5] == 'r' && durability[5] == 'd' && ownership[5] == 'o';
  }

  lemma LastOfOneMore<T>(all: seq<Option<T>>, most: seq<Option<T>>, last: Option<T>)
    requires all != [] && all[..|all| - 1] == most && all[|all| - 1] == last
    ensures Last(all) == Later(last, Last(most))
  {}

  /** What is noted of some fields is, name by name, the last value that counts. */
  lemma {:induction false} TheLastFieldIsNoted(d: Decoder, fields: seq<Field>)
    ensures var found := NoteAll(d, NOTHING, fields);
            && found.topic == Last(Shown(d, fields, "rtps.param.topicName"))
            && found.typeName == Last(Shown(d, fields, "rtps.param.typeName"))
            && found.guid == Last(LongGuids(d, fields))
            && found.reliability == Last(Policies(d, fields, "rtps.reliability_kind"))
            && found.durability == Last(Policies(d, fields, "rtps.durability"))
            && found.ownership == Last(Policies(d, fields, "rtps.ownership"))
  {
    if fields != [] {
      var n := |fields| - 1;
      TheLastFieldIsNoted(d, fields[..n]);
      KindIsNamed(fields[n].name);
      OneMoreShown(d, fields, "rtps.param.topicName");
      OneMoreShown(d, fields, "rtps.param.typeName");
      OneMoreGuid(d, fields);
      OneMorePolicy(d, fields, "rtps.reliability_kind");
      OneMorePolicy(d, fields, "rtps.durability");
      OneMorePolicy(d, fields, "rtps.ownership");
    }
  }

  lemma OneMoreShown(d: Decoder, fields: seq<Field>, name: string)
    requires fields != []
    ensures var most, f := fields[..|fields| - 1], fields[|fields| - 1];
            Last(Shown(d, fields, name))
            == if f.name == name then Some(d.show(f.value)) else Last(Shown(d, most, name))
  {
    var all := Shown(d, fields, name);
    LastOfOneMore(all, Shown(d, fields[..|fields| - 1], name), all[|all| - 1]);
  }

  lemma OneMoreGuid(d: Decoder, fields: seq<Field>)
    requires fields != []
    ensures var most, f := fields[..|fields| - 1], fields[|fields| - 1];
            Last(LongGuids(d, fields))
            == if f.name == "rtps.param.endpoint_guid" && |d.guid(f.value)| >= 24 then Some(d.guid(f.value))
               else Last(LongGuids(d, most))
  {
    var all := LongGuids(d, fields);
    LastOfOneMore(all, LongGuids(d, fields[..|fields| - 1]), all[|all| - 1]);
  }

  lemma OneMorePolicy(d: Decoder, fields: seq<Field>, name: string)
    requires fields != []
    ensures var most, f := fields[..|fields| - 1], fields[|fields| - 1];
            Last(Policies(d, fields, name))
            == if f.name == name then Some(d.policy(name, f.value)) else Last(Policies(d, most, name))
  {
    var all := Policies(d, fields, name);
    LastOfOneMore(all, Policies(d, fields[..|fields| - 1], name), all[|all| - 1]);
  }

  // ----- the words are always there -----

  /** What is found is found in a field of that name. */
  lemma {:induction false} FoundInAField(d: Decoder, fields: seq<Field>)
    ensures NoteAll(d, NOTHING, fields).topic.Some? ==> HasField(fields, TOPIC)
    ensures NoteAll(d, NOTHING, fields).guid.Some? ==> HasField(fields, GUID)
  {
    if fields != [] {
      var most, f := fields[..|fields| - 1], fields[|fields| - 1];
      FoundInAField(d, most);
      InitAndLast(fields);
      HasFieldInEither(most, [f], TOPIC);
      HasFieldInEither(most, [f], GUID);
      assert f.name == TOPIC ==> [f][0].name == TOPIC;
      assert f.name == GUID ==> [f][0].name == GUID;
    }
  }

  predicate HasField(fields: seq<Field>, name: string) {
    exists i :: 0 <= i < |fields| && fields[i].name == name
  }

  lemma HasFieldInEither(a: seq<Field>, b: seq<Field>, name: string)
    ensures HasField(a + b, name) <==> HasField(a, name) || HasField(b, name)
  {
    if i :| 0 <= i < |a| && a[i].name == name {
      assert (a + b)[i].name == name;
    }
    if i :| 0 <= i < |b| && b[i].name == name {
      assert (a + b)[|a| + i].name == name;
    }
  }

  /** A name that is visited is mentioned. */
  lemma {:induction false} VisitedIsMentioned(node: Json, name: string)
    requires HasField(Visited(node), name)
    ensures Mentions(node, name)
    decreases node
  {
    match node
    case Text(_) =>
    case Dict(fields) => VisitedFieldIsMentioned(fields, name);
    case List(items) => VisitedItemIsMentioned(items, name);
  }

  lemma {:induction false} VisitedFieldIsMentioned(fields: seq<Field>, name: string)
    requires HasField(VisitedFields(fields), name)
    ensures exists i :: 0 <= i < |fields| && (Contains(fields[i].name, name) || Mentions(fields[i].value, name))
    decreases fields
  {
    var f := fields[0];
    HasFieldInEither([f], Visited(f.value) + VisitedFields(fields[1..]), name);
    HasFieldInEither(Visited(f.value), VisitedFields(fields[1..]), name);
    if HasField([f], name) {
      NamesItself(name);
      assert Contains(fields[0].name, name);
    } else if HasField(Visited(f.value), name) {
      VisitedIsMentioned(f.value, name);
      assert Mentions(fields[0].value, name);
    } else {
      VisitedFieldIsMentioned(fields[1..], name);
      var i :| 0 <= i < |fields[1..]|
               && (Contains(fields[1..][i].name, name) || Mentions(fields[1..][i].value, name));
      assert fields[1..][i] == fields[i + 1];
      assert Contains(fields[i + 1].name, name) || Mentions(fields[i + 1].value, name);
    }
  }

  lemma {:induction false} VisitedItemIsMentioned(items: seq<Json>, name: string)
    requires HasField(VisitedItems(items), name)
    ensures exists i :: 0 <= i < |items| && Mentions(items[i], name)
    decreases items
  {
    HasFieldInEither(Visited(items[0]), VisitedItems(items[1..]), name);
    if HasField(Visited(items[0]), name) {
      VisitedIsMentioned(items[0], name);
      assert Mentions(items[0], name);
    } else {
      VisitedItemIsMentioned(items[1..], name);
      var i :| 0 <= i < |items[1..]| && Mentions(items[1..][i], name);
      assert Mentions(items[i + 1], name);
    }
  }

  /** The search for the words that mark an endpoint never holds a subtree back that has the values. */
  lemma WordsAreThere(d: Decoder, node: Json)
    ensures var found := Inspect(d, NOTHING, node);
            found.topic.Some? && found.guid.Some? ==> Announces(node)
  {
    InspectNotesInOrder(d, NOTHING, node);
    FoundInAField(d, Visited(node));
    if HasField(Visited(node), TOPIC) && HasField(Visited(node), GUID) {
      VisitedIsMentioned(node, TOPIC);
      VisitedIsMentioned(node, GUID);
    }
  }

  /**
    Of everything in a packet, at any depth, the last topic, the last type and the last GUID that is
    long enough make the one endpoint it reports, with the last reliability, durability and
    ownership; if one of the three is missing it reports none, and its parts are looked at one by
    one only if all are there and the topic or the type is empty.
   */
  lemma WhatAPacketReports(d: Decoder, fields: seq<Field>)
    ensures var all := Visited(Dict(fields));
            var topic := Last(Shown(d, all, "rtps.param.topicName"));
            var typeName := Last(Shown(d, all, "rtps.param.typeName"));
            var guid := Last(LongGuids(d, all));
            Extract(d, Dict(fields)) ==
            if topic.None? || typeName.None? || guid.None? then []
            else if topic == Some("") || typeName == Some("") then ExtractFields(d, fields)
            else [Discovery.Candidate(topic.value, typeName.value, guid.value, d.kind(guid.value),
                                      Last(Policies(d, all, "rtps.reliability_kind")),
                                      Last(Policies(d, all, "rtps.durability")),
                                      Last(Policies(d, all, "rtps.ownership")))]
  {
    InspectNotesInOrder(d, NOTHING, Dict(fields));
    TheLastFieldIsNoted(d, Visited(Dict(fields)));
    WordsAreThere(d, Dict(fields));
    APacketIsOneCandidate(d, fields);
  }

  // ----- packets -----

  /** A part that names a topic and a type, one that names a GUID, and one that names all three. */
  function Named(topic: string, typeName: string): Json {
    Dict([Field(TOPIC, Text(topic)), Field(TYPE, Text(typeName))])
  }

  function Identified(guid: string): Json {
    Dict([Field(GUID, Text(guid))])
  }

  function Announcement(topic: string, typeName: string, guid: string): Json {
    Dict([Field(TOPIC, Text(topic)), Field(TYPE, Text(typeName)), Field(GUID, Text(guid))])
  }

  /** A packet with two parts. */
  function Packet(first: Json, second: Json): seq<Field> {
    [Field("first", first), Field("second", second)]
  }

  lemma KindsOfNames()
    ensures KindOf(TOPIC) == TopicField && KindOf(TYPE) == TypeField && KindOf(GUID) == GuidField
    ensures KindOf("first") == OtherField && KindOf("second") == OtherField
  {
    var topic, typeName, guid := TOPIC, TYPE, GUID;
    assert topic[11] == 't' && typeName[11] == 't' && guid[11] == 'e' && topic[12] == 'o' && typeName[12] == 'y';
  }

  lemma NamesItself(word: string)
    ensures Contains(word, word)
  {
    assert word[0..0 + |word|] == word;
    assert PartAt(word, word, 0);
  }

  lemma NextText(d: Decoder, found: Found, name: string, value: string, rest: seq<Field>)
    ensures InspectFields(d, found, [Field(name, Text(value))] + rest)
            == InspectFields(d, NoteKind(d, found, KindOf(name), Text(value)), rest)
  {
    assert ([Field(name, Text(value))] + rest)[1..] == rest;
  }

  lemma NamedIsFound(d: Decoder, topic: string, typeName: string)
    ensures Inspect(d, NOTHING, Named(topic, typeName))
            == NOTHING.(topic := Some(d.show(Text(topic))), typeName := Some(d.show(Text(typeName))))
  {
    KindsOfNames();
    var second := [Field(TYPE, Text(typeName))];
    NextText(d, NOTHING, TOPIC, topic, second);
    NextText(d, NOTHING.(topic := Some(d.show(Text(topic)))), TYPE, typeName, []);
    assert second + [] == second;
    assert [Field(TOPIC, Text(topic))] + second == [Field(TOPIC, Text(topic)), Field(TYPE, Text(typeName))];
  }

  lemma IdentifiedIsFound(d: Decoder, guid: string)
    requires |d.guid(Text(guid))| >= 24
    ensures Inspect(d, NOTHING, Identified(guid)) == NOTHING.(guid := Some(d.guid(Text(guid))))
  {
    KindsOfNames();
    NextText(d, NOTHING, GUID, guid, []);
    assert [Field(GUID, Text(guid))] + [] == [Field(GUID, Text(guid))];
  }

  lemma AnnouncementIsFound(d: Decoder, topic: string, typeName: string, guid: string)
    requires |d.guid(Text(guid))| >= 24
    ensures var part := Announcement(topic, typeName, guid);
            && Announces(part)
            && Inspect(d, NOTHING, part) == NOTHING.(topic := Some(d.show(Text(topic))),
                                                     typeName := Some(d.show(Text(typeName))),
                                                     guid := Some(d.guid(Text(guid))))
  {
    KindsOfNames();
    var fields := [Field(TOPIC, Text(topic)), Field(TYPE, Text(typeName)), Field(GUID, Text(guid))];
    var one := NOTHING.(topic := Some(d.show(Text(topic))));
    NextText(d, NOTHING, TOPIC, topic, fields[1..]);
    NextText(d, one, TYPE, typeName, fields[2..]);
    NextText(d, one.(typeName := Some(d.show(Text(typeName)))), GUID, guid, []);
    assert [fields[0]] + fields[1..] == fields && [fields[1]] + fields[2..] == fields[1..];
    assert [fields[2]] + [] == fields[2..];
    NamesItself(TOPIC);
    NamesItself(GUID);
    assert Contains(fields[0].name, TOPIC) && Contains(fields[2].name, GUID);
  }

  /** Of a packet that announces two endpoints the sniffer reports the second, and nothing of the first. */
  lemma OneOfTwoIsReported(d: Decoder, topic1: string, typeName1: string, guid1: string,
                           topic2: string, typeName2: string, guid2: string)
    requires |d.guid(Text(guid1))| >= 24 && |d.guid(Text(guid2))| >= 24
    requires d.show(Text(topic2)) != "" && d.show(Text(typeName2)) != ""
    ensures var first, second := Announcement(topic1, typeName1, guid1), Announcement(topic2, typeName2, guid2);
            && Holds(d, first) && Holds(d, second)
            && var reported := Extract(d, Dict(Packet(first, second)));
               && |reported| == 1 && reported[0].topic == d.show(Text(topic2))
               && reported[0].typeName == d.show(Text(typeName2)) && reported[0].guid == d.guid(Text(guid2))
  {
    KindsOfNames();
    AnnouncementIsFound(d, topic1, typeName1, guid1);
    AnnouncementIsFound(d, topic2, typeName2, guid2);
    TheLastAnnouncementWins(d, Packet(Announcement(topic1, typeName1, guid1), Announcement(topic2, typeName2, guid2)));
  }

  /**
    A packet of which no part gives a candidate is reported as an endpoint all the same, with the
    topic and type of one part and the GUID of another.
   */
  lemma PartsAreMixed(d: Decoder, topic: string, typeName: string, guid: string)
    requires |d.guid(Text(guid))| >= 24 && d.show(Text(topic)) != "" && d.show(Text(typeName)) != ""
    ensures var first, second := Named(topic, typeName), Identified(guid);
            && Extract(d, first) == [] && Extract(d, second) == []
            && var reported := Extract(d, Dict(Packet(first, second)));
               && |reported| == 1 && reported[0].topic == d.show(Text(topic))
               && reported[0].typeName == d.show(Text(typeName)) && reported[0].guid == d.guid(Text(guid))
  {
    var first, second := Named(topic, typeName), Identified(guid);
    KindsOfNames();
    NamedIsFound(d, topic, typeName);
    IdentifiedIsFound(d, guid);
    NothingToExtract(d, first);
    NothingToExtract(d, second);
    TwoParts(d, first, second);
    MentionedInParts(topic, typeName, guid);
    APacketIsOneCandidate(d, Packet(first, second));
  }

  /** What is found in two parts of which only the first has topic and type and only the second a GUID. */
  lemma TwoParts(d: Decoder, first: Json, second: Json)
    requires Plain(Field("first", first)) && Plain(Field("second", second))
    requires Inspect(d, NOTHING, first).guid.None?
    requires Inspect(d, NOTHING, second).topic.None? && Inspect(d, NOTHING, second).typeName.None?
    ensures var found := Inspect(d, NOTHING, Dict(Packet(first, second)));
            && found.topic == Inspect(d, NOTHING, first).topic
            && found.typeName == Inspect(d, NOTHING, first).typeName
            && found.guid == Inspect(d, NOTHING, second).guid
  {
    var fields := Packet(first, second);
    EachNameFromItsLastPart(d, fields);
    LastOfTwo(Topics(d, fields));
    LastOfTwo(Types(d, fields));
    LastOfTwo(Guids(d, fields));
  }

  lemma LastOfTwo<T>(values: seq<Option<T>>)
    requires |values| == 2
    ensures Last(values) == if values[1].Some? then values[1] else values[0]
  {
    assert values[..1] == [values[0]] && [values[0]][..0] == [];
    assert Last([values[0]]) == values[0];
  }

  lemma MentionedInParts(topic: string, typeName: string, guid: string)
    ensures Announces(Dict(Packet(Named(topic, typeName), Identified(guid))))
  {
    NamesItself(TOPIC);
    NamesItself(GUID);
    var first, second := Named(topic, typeName), Identified(guid);
    assert Contains(first.fields[0].name, TOPIC) && Contains(second.fields[0].name, GUID);
    var fields := Packet(first, second);
    assert Mentions(fields[0].value, TOPIC) && Mentions(fields[1].value, GUID);
  }
}
