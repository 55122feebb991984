/**
  `MatchNotifier` (srcRs/HDDS/src/main.rs): endpoint lists that only grow, a set of
  topics marked incompatible, and the lines printed for the test harness.

  Each call of the listener is one atomic step.  What the discovery library answers
  (`find_*_for_topic`, `is_endpoint_participant_confirmed`) comes in as a parameter.
 */
module Notifier {
  import opened Bytes
  import opened Sequences
  import Glob

  // ----- quality of service -----

  datatype Reliability = BestEffort | Reliable
  datatype Ownership = Shared | Exclusive
  datatype Durability = Volatile | TransientLocal | Transient | Persistent
  /** `Infinite` is the default period, which the code reads as "no constraint". */
  datatype Deadline = Infinite | Period(nanoseconds: nat)

  datatype QoS = QoS(
    dataRepresentation: seq<int>,
    reliability: Reliability,
    ownership: Ownership,
    deadline: Deadline,
    durability: Durability,
    partition: seq<seq<byte>>
  )

  datatype Policy =
    | DataRepresentation | ReliabilityPolicy | OwnershipPolicy | DeadlinePolicy | DurabilityPolicy | Partition

  function DurabilityRank(d: Durability): nat {
    match d
    case Volatile => 0
    case TransientLocal => 1
    case Transient => 2
    case Persistent => 3
  }

  predicate NamesMatch(w: seq<byte>, r: seq<byte>) {
    w == r || Glob.LiteralFirst(w, r) || Glob.LiteralFirst(r, w)
  }

  predicate PartitionsIntersect(ws: seq<seq<byte>>, rs: seq<seq<byte>>) {
    if ws == [] || rs == [] then ws == rs
    else exists i, j :: 0 <= i < |ws| && 0 <= j < |rs| && NamesMatch(ws[i], rs[j])
  }

  function WriterOwnership(qos: QoS, explicitOwnership: bool, strengthKnown: bool): Ownership {
    if explicitOwnership then qos.ownership
    else if strengthKnown then Exclusive
    else Shared
  }

  predicate HaveCommonForm(ws: seq<int>, rs: seq<int>) {
    exists i :: 0 <= i < |ws| && ws[i] in rs
  }

  /** `check_writer_reader_compat`: the first policy that fails, or `None`. */
  function Compat(writer: QoS, reader: QoS, explicitOwnership: bool, strengthKnown: bool): Option<Policy> {
    if writer.dataRepresentation != [] && reader.dataRepresentation != []
       && !HaveCommonForm(writer.dataRepresentation, reader.dataRepresentation) then Some(DataRepresentation)
    else if writer.reliability == BestEffort && reader.reliability == Reliable then Some(ReliabilityPolicy)
    else if WriterOwnership(writer, explicitOwnership, strengthKnown) != reader.ownership then Some(OwnershipPolicy)
    else if writer.deadline.Period? && reader.deadline.Period?
            && writer.deadline.nanoseconds > reader.deadline.nanoseconds then Some(DeadlinePolicy)
    else if DurabilityRank(writer.durability) < DurabilityRank(reader.durability) then Some(DurabilityPolicy)
    else if !PartitionsIntersect(writer.partition, reader.partition) then Some(Partition)
    else None
  }

  /** Two names intersect by the declarative reading when one of them matches the other as a pattern. */
  predicate NamesMatchDeclaratively(w: seq<byte>, r: seq<byte>) {
    w == r || Glob.Matches(w, r) || Glob.Matches(r, w)
  }

  /** The partition check is the declarative one whenever not both names are patterns with stars. */
  lemma PartitionNamesAreMatchedRightly(w: seq<byte>, r: seq<byte>)
    ensures NamesMatch(w, r) ==> NamesMatchDeclaratively(w, r)
    ensures Glob.STAR !in w || Glob.STAR !in r ==> (NamesMatch(w, r) <==> NamesMatchDeclaratively(w, r))
  {
    Glob.AgreeWithoutFacingStars(w, r);
    Glob.AgreeWithoutFacingStars(r, w);
  }

  /** Endpoints with one and the same QoS always match, whatever wildcards their partitions hold. */
  lemma SameQosMatches(qos: QoS, strengthKnown: bool)
    ensures Compat(qos, qos, true, strengthKnown) == None
  {
    var names, forms := qos.partition, qos.dataRepresentation;
    assert PartitionsIntersect(names, names) by {
      if names != [] {
        assert NamesMatch(names[0], names[0]);
      }
    }
    if forms != [] {
      assert forms[0] in forms;
    }
  }

  predicate RepresentationsCover(wider: seq<int>, narrower: seq<int>) {
    if narrower == [] then wider == [] else forall d :: d in narrower ==> d in wider
  }

  predicate Tighter(a: Deadline, b: Deadline) {
    match b
    case Infinite => a == Infinite
    case Period(n) => a.Period? && a.nanoseconds <= n
  }

  predicate OffersAtLeast(stronger: QoS, offer: QoS) {
    && RepresentationsCover(stronger.dataRepresentation, offer.dataRepresentation)
    && (offer.reliability == Reliable ==> stronger.reliability == Reliable)
    && stronger.ownership == offer.ownership && stronger.partition == offer.partition
    && Tighter(stronger.deadline, offer.deadline)
    && DurabilityRank(stronger.durability) >= DurabilityRank(offer.durability)
  }

  predicate RequestsAtMost(weaker: QoS, request: QoS) {
    && RepresentationsCover(weaker.dataRepresentation, request.dataRepresentation)
    && (weaker.reliability == Reliable ==> request.reliability == Reliable)
    && weaker.ownership == request.ownership && weaker.partition == request.partition
    && (weaker.deadline == Infinite || Tighter(request.deadline, weaker.deadline))
    && DurabilityRank(weaker.durability) <= DurabilityRank(request.durability)
  }

  /** A match survives a stronger offer and a weaker request. */
  lemma MatchesAreMonotone(writer: QoS, reader: QoS, stronger: QoS, weaker: QoS, explicitOwnership: bool,
                           strengthKnown: bool)
    requires Compat(writer, reader, explicitOwnership, strengthKnown) == None
    requires OffersAtLeast(stronger, writer) && RequestsAtMost(weaker, reader)
    ensures Compat(stronger, weaker, explicitOwnership, strengthKnown) == None
  {
    if writer.dataRepresentation != [] && reader.dataRepresentation != [] {
      var i :| 0 <= i < |writer.dataRepresentation| && writer.dataRepresentation[i] in reader.dataRepresentation;
      var d := writer.dataRepresentation[i];
      assert d in stronger.dataRepresentation && d in weaker.dataRepresentation;
    }
  }

  /** Section 2.2.3.7 of DDS 1.4: the offered period is at most the requested one, infinity being the longest. */
  predicate DeadlineMeets(offered: Deadline, requested: Deadline) {
    requested == Infinite || (offered.Period? && offered.nanoseconds <= requested.nanoseconds)
  }

  /**
    Where all other policies agree, the check decides the deadline as the standard does, except
    exactly when an infinite period is offered to a reader that asks for a finite one: it matches.
   */
  lemma DeadlinesAreStandardExactlyWhen(writer: QoS, reader: QoS, explicitOwnership: bool, strengthKnown: bool)
    requires Compat(writer, reader.(deadline := Infinite), explicitOwnership, strengthKnown) == None
    ensures (Compat(writer, reader, explicitOwnership, strengthKnown) == None <==>
             DeadlineMeets(writer.deadline, reader.deadline))
            <==> !(writer.deadline == Infinite && reader.deadline.Period?)
  {}

  /** Two endpoints that differ only in that: the standard refuses them, the check does not. */
  lemma InfiniteOfferMatches(qos: QoS, period: nat, strengthKnown: bool)
    ensures var writer, reader := qos.(deadline := Infinite), qos.(deadline := Period(period));
            Compat(writer, reader, true, strengthKnown) == None && !DeadlineMeets(writer.deadline, reader.deadline)
  {
    SameQosMatches(qos.(deadline := Infinite), strengthKnown);
  }

  // ----- the rules, one by one -----

  function Place(p: Policy): nat {
    match p
    case DataRepresentation => 0
    case ReliabilityPolicy => 1
    case OwnershipPolicy => 2
    case DeadlinePolicy => 3
    case DurabilityPolicy => 4
    case Partition => 5
  }

  /** The rule of one policy, read off what is offered and what is requested. */
  ghost predicate Meets(p: Policy, offered: QoS, requested: QoS, explicitOwnership: bool, strengthKnown: bool) {
    match p
    case DataRepresentation =>
      || offered.dataRepresentation == [] || requested.dataRepresentation == []
      || exists form :: form in offered.dataRepresentation && form in requested.dataRepresentation
    case ReliabilityPolicy => requested.reliability == Reliable ==> offered.reliability == Reliable
    case OwnershipPolicy =>
      if explicitOwnership then offered.ownership == requested.ownership
      else requested.ownership == Exclusive <==> strengthKnown
    case DeadlinePolicy =>
      forall a, b :: offered.deadline == Period(a) && requested.deadline == Period(b) ==> a <= b
    case DurabilityPolicy =>
      (match requested.durability
       case Volatile => true
       case TransientLocal => offered.durability != Volatile
       case Transient => offered.durability in {Transient, Persistent}
       case Persistent => offered.durability == Persistent)
    case Partition =>
      || (offered.partition == [] && requested.partition == [])
      || exists w, r :: w in offered.partition && r in requested.partition
                        && (w == r || Glob.LiteralFirst(w, r) || Glob.LiteralFirst(r, w))
  }

  ghost predicate AllMet(offered: QoS, requested: QoS, explicitOwnership: bool, strengthKnown: bool) {
    forall p :: Meets(p, offered, requested, explicitOwnership, strengthKnown)
  }

  ghost predicate FirstBroken(p: Policy, offered: QoS, requested: QoS, explicitOwnership: bool, strengthKnown: bool) {
    && !Meets(p, offered, requested, explicitOwnership, strengthKnown)
    && forall q :: Place(q) < Place(p) ==> Meets(q, offered, requested, explicitOwnership, strengthKnown)
  }

  /** The check accepts exactly if every rule is met, and otherwise names the first that is not. */
  lemma TheFirstBrokenRuleIsNamed(writer: QoS, reader: QoS, explicitOwnership: bool, strengthKnown: bool)
    ensures Compat(writer, reader, explicitOwnership, strengthKnown) == None <==>
            AllMet(writer, reader, explicitOwnership, strengthKnown)
    ensures forall p :: Compat(writer, reader, explicitOwnership, strengthKnown) == Some(p) <==>
                        FirstBroken(p, writer, reader, explicitOwnership, strengthKnown)
  {
    forall p ensures Meets(p, writer, reader, explicitOwnership, strengthKnown) <==>
                     Passes(p, writer, reader, explicitOwnership, strengthKnown)
    {
      RuleIsTested(p, writer, reader, explicitOwnership, strengthKnown);
    }
    FirstFailureIsNamed(writer, reader, explicitOwnership, strengthKnown);
  }

  lemma RuleIsTested(p: Policy, writer: QoS, reader: QoS, explicitOwnership: bool, strengthKnown: bool)
    ensures Meets(p, writer, reader, explicitOwnership, strengthKnown) <==>
            Passes(p, writer, reader, explicitOwnership, strengthKnown)
  {
    match p {
      case DataRepresentation => FormsAreShared(writer.dataRepresentation, reader.dataRepresentation);
      case DeadlinePolicy =>
        if writer.deadline.Period? && reader.deadline.Period? {
          assert writer.deadline == Period(writer.deadline.nanoseconds);
          assert reader.deadline == Period(reader.deadline.nanoseconds);
        }
      case Partition => NamesAreShared(writer.partition, reader.partition);
      case _ =>
    }
  }

  lemma FirstFailureIsNamed(writer: QoS, reader: QoS, explicitOwnership: bool, strengthKnown: bool)
    ensures Compat(writer, reader, explicitOwnership, strengthKnown) == None <==>
            forall p :: Passes(p, writer, reader, explicitOwnership, strengthKnown)
    ensures forall p :: Compat(writer, reader, explicitOwnership, strengthKnown) == Some(p) <==>
                        && !Passes(p, writer, reader, explicitOwnership, strengthKnown)
                        && forall q :: Place(q) < Place(p) ==>
                                         Passes(q, writer, reader, explicitOwnership, strengthKnown)
  {
    var verdict := Compat(writer, reader, explicitOwnership, strengthKnown);
    if verdict.Some? {
      assert !Passes(verdict.value, writer, reader, explicitOwnership, strengthKnown);
    }
  }

  /** What the check tests for one policy. */
  predicate Passes(p: Policy, writer: QoS, reader: QoS, explicitOwnership: bool, strengthKnown: bool) {
    match p
    case DataRepresentation =>
      || writer.dataRepresentation == [] || reader.dataRepresentation == []
      || HaveCommonForm(writer.dataRepresentation, reader.dataRepresentation)
    case ReliabilityPolicy => writer.reliability == Reliable || reader.reliability == BestEffort
    case OwnershipPolicy => WriterOwnership(writer, explicitOwnership, strengthKnown) == reader.ownership
    case DeadlinePolicy =>
      writer.deadline.Period? && reader.deadline.Period? ==>
        writer.deadline.nanoseconds <= reader.deadline.nanoseconds
    case DurabilityPolicy => DurabilityRank(writer.durability) >= DurabilityRank(reader.durability)
    case Partition => PartitionsIntersect(writer.partition, reader.partition)
  }

  lemma FormsAreShared(ws: seq<int>, rs: seq<int>)
    ensures HaveCommonForm(ws, rs) <==> exists form :: form in ws && form in rs
  {
    if HaveCommonForm(ws, rs) {
      var i :| 0 <= i < |ws| && ws[i] in rs;
      var form := ws[i];
      assert form in ws && form in rs;
    } else {
      forall form | form in ws ensures form !in rs {
        var i :| 0 <= i < |ws| && ws[i] == form;
      }
    }
  }

  lemma NamesAreShared(ws: seq<seq<byte>>, rs: seq<seq<byte>>)
    ensures PartitionsIntersect(ws, rs) <==>
            || (ws == [] && rs == [])
            || exists w, r :: w in ws && r in rs && (w == r || Glob.LiteralFirst(w, r) || Glob.LiteralFirst(r, w))
  {
    if w, r :| w in ws && r in rs && (w == r || Glob.LiteralFirst(w, r) || Glob.LiteralFirst(r, w)) {
      var i :| 0 <= i < |ws| && ws[i] == w;
      var j :| 0 <= j < |rs| && rs[j] == r;
      assert NamesMatch(ws[i], rs[j]);
    }
    if i, j :| 0 <= i < |ws| && 0 <= j < |rs| && NamesMatch(ws[i], rs[j]) {
      assert ws[i] in ws && rs[j] in rs;
    }
  }

  // ----- the notifier's state -----

  datatype LocalEndpoint = LocalEndpoint(topic: string, qos: QoS)

  datatype Kind = Reader | Writer

  datatype Remote = Remote(
    prefix: seq<byte>,
    kind: Kind,
    topic: string,
    typeName: string,
    qos: QoS,
    explicitOwnership: bool,
    strengthKnown: bool,
    confirmed: bool
  )

  datatype Line =
    | OfferedIncompatible(topic: string, policy: Policy)
    | RequestedIncompatible(topic: string, policy: Policy)
    | PublicationMatched(topic: string, typeName: string)
    | SubscriptionMatched(topic: string, typeName: string)

  datatype State = State(
    writers: seq<LocalEndpoint>,
    readers: seq<LocalEndpoint>,
    incompatible: set<string>,
    output: seq<Line>
  )

  const INITIAL := State([], [], {}, [])

  datatype Call =
    | AddWriter(endpoint: LocalEndpoint, found: seq<Remote>)
    | AddReader(endpoint: LocalEndpoint, found: seq<Remote>)
    | Discovered(remote: Remote)

  /** The outcome of pairing one local endpoint with one remote endpoint. */
  function PairCompat(ep: LocalEndpoint, remote: Remote): Option<Policy> {
    if remote.kind == Reader then Compat(ep.qos, remote.qos, true, true)
    else Compat(remote.qos, ep.qos, remote.explicitOwnership, remote.strengthKnown)
  }

  function IncompatibleLine(ep: LocalEndpoint, kind: Kind, policy: Policy): Line {
    if kind == Reader then OfferedIncompatible(ep.topic, policy) else RequestedIncompatible(ep.topic, policy)
  }

  function MatchedLine(ep: LocalEndpoint, remote: Remote): Line {
    if remote.kind == Reader then PublicationMatched(ep.topic, remote.typeName)
    else SubscriptionMatched(ep.topic, remote.typeName)
  }

  /** Whether a compatible pair is announced: catch-up on readers is silent, marked topics are not published. */
  predicate Announced(st: State, ep: LocalEndpoint, remote: Remote, catchUp: bool) {
    remote.kind == Writer || (!catchUp && ep.topic !in st.incompatible)
  }

  function Pair(st: State, ep: LocalEndpoint, remote: Remote, catchUp: bool): State {
    match PairCompat(ep, remote)
    case None =>
      if Announced(st, ep, remote, catchUp) then st.(output := st.output + [MatchedLine(ep, remote)]) else st
    case Some(Partition) => st
    case Some(policy) =>
      st.(incompatible := st.incompatible + {ep.topic},
          output := st.output + [IncompatibleLine(ep, remote.kind, policy)])
  }

  function CatchUp(st: State, ep: LocalEndpoint, found: seq<Remote>, local: seq<byte>): State {
    if found == [] then st
    else
      var n := |found| - 1;
      var before := CatchUp(st, ep, found[..n], local);
      if found[n].prefix == local || !found[n].confirmed then before else Pair(before, ep, found[n], true)
  }

  function PairAll(st: State, eps: seq<LocalEndpoint>, remote: Remote): State {
    if eps == [] then st
    else
      var n := |eps| - 1;
      var before := PairAll(st, eps[..n], remote);
      if eps[n].topic == remote.topic then Pair(before, eps[n], remote, false) else before
  }

  /** `find_readers_for_topic` and `find_writers_for_topic` answer with that kind, on that topic. */
  predicate FoundFor(found: seq<Remote>, kind: Kind, topic: string) {
    forall i :: 0 <= i < |found| ==> found[i].kind == kind && found[i].topic == topic
  }

  predicate WellTyped(call: Call) {
    match call
    case AddWriter(ep, found) => FoundFor(found, Reader, ep.topic)
    case AddReader(ep, found) => FoundFor(found, Writer, ep.topic)
    case Discovered(_) => true
  }

  function Step(st: State, call: Call, local: seq<byte>): State {
    match call
    case AddWriter(ep, found) => CatchUp(st.(writers := st.writers + [ep]), ep, found, local)
    case AddReader(ep, found) => CatchUp(st.(readers := st.readers + [ep]), ep, found, local)
    case Discovered(remote) =>
      if remote.prefix == local then st
      else PairAll(st, if remote.kind == Reader then st.writers else st.readers, remote)
  }

  function Run(calls: seq<Call>, local: seq<byte>): State {
    if calls == [] then INITIAL
    else Step(Run(calls[..|calls| - 1], local), calls[|calls| - 1], local)
  }

  // ----- the listener object -----

  class MatchNotifier {
    const localPrefix: seq<byte>
    var writerEndpoints: seq<LocalEndpoint>
    var readerEndpoints: seq<LocalEndpoint>
    var incompatibleTopics: set<string>
    var output: seq<Line>

    function View(): State
      reads this
    {
      State(writerEndpoints, readerEndpoints, incompatibleTopics, output)
    }

    constructor (localPrefix: seq<byte>)
      ensures View() == INITIAL && this.localPrefix == localPrefix
    {
      this.localPrefix := localPrefix;
      writerEndpoints, readerEndpoints, incompatibleTopics, output := [], [], {}, [];
    }

    /** `mark_incompatible` and the line that goes with it. */
    method ReportIncompatible(ep: LocalEndpoint, kind: Kind, policy: Policy)
      modifies this`incompatibleTopics, this`output
      ensures incompatibleTopics == old(incompatibleTopics) + {ep.topic}
      ensures output == old(output) + [IncompatibleLine(ep, kind, policy)]
    {
      incompatibleTopics := incompatibleTopics + {ep.topic};
      output := output + [if kind == Reader then OfferedIncompatible(ep.topic, policy)
                          else RequestedIncompatible(ep.topic, policy)];
    }

    method AddWriterTopic(topic: string, qos: QoS, found: seq<Remote>)
      requires FoundFor(found, Reader, topic)
      modifies this
      ensures View() == Step(old(View()), AddWriter(LocalEndpoint(topic, qos), found), localPrefix)
    {
      var ep := LocalEndpoint(topic, qos);
      writerEndpoints := writerEndpoints + [ep];
      ghost var start := View();
      for i := 0 to |found|
        invariant View() == CatchUp(start, ep, found[..i], localPrefix)
      {
        assert found[..i + 1][..i] == found[..i];
        var remote := found[i];
        if remote.prefix == localPrefix {
          continue;
        }
        if !remote.confirmed {
          continue;
        }
        var policy := Compat(ep.qos, remote.qos, true, true);
        if policy.Some? && policy.value != Partition {
          ReportIncompatible(ep, Reader, policy.value);
        }
      }
      assert found[..|found|] == found;
    }

    method AddReaderTopic(topic: string, qos: QoS, found: seq<Remote>)
      requires FoundFor(found, Writer, topic)
      modifies this
      ensures View() == Step(old(View()), AddReader(LocalEndpoint(topic, qos), found), localPrefix)
    {
      var ep := LocalEndpoint(topic, qos);
      readerEndpoints := readerEndpoints + [ep];
      ghost var start := View();
      for i := 0 to |found|
        invariant View() == CatchUp(start, ep, found[..i], localPrefix)
      {
        assert found[..i + 1][..i] == found[..i];
        var remote := found[i];
        if remote.prefix == localPrefix {
          continue;
        }
        if !remote.confirmed {
          continue;
        }
        match Compat(remote.qos, ep.qos, remote.explicitOwnership, remote.strengthKnown) {
          case Some(Partition) =>
          case Some(policy) => ReportIncompatible(ep, Writer, policy);
          case None => output := output + [SubscriptionMatched(ep.topic, remote.typeName)];
        }
      }
      assert found[..|found|] == found;
    }

    /** A remote reader against the local writers. */
    method OnReaderDiscovered(remote: Remote)
      requires remote.kind == Reader
      modifies this`incompatibleTopics, this`output
      ensures View() == PairAll(old(View()), writerEndpoints, remote)
    {
      ghost var start := View();
      for i := 0 to |writerEndpoints|
        invariant View() == PairAll(start, writerEndpoints[..i], remote)
      {
        assert writerEndpoints[..i + 1][..i] == writerEndpoints[..i];
        var ep := writerEndpoints[i];
        if ep.topic == remote.topic {
          match Compat(ep.qos, remote.qos, true, true) {
            case Some(Partition) =>
            case Some(policy) => ReportIncompatible(ep, Reader, policy);
            case None =>
              if ep.topic in incompatibleTopics {
                continue;
              }
              output := output + [PublicationMatched(ep.topic, remote.typeName)];
          }
        }
      }
      assert writerEndpoints[..|writerEndpoints|] == writerEndpoints;
    }

    /** A remote writer against the local readers. */
    method OnWriterDiscovered(remote: Remote)
      requires remote.kind == Writer
      modifies this`incompatibleTopics, this`output
      ensures View() == PairAll(old(View()), readerEndpoints, remote)
    {
      ghost var start := View();
      for i := 0 to |readerEndpoints|
        invariant View() == PairAll(start, readerEndpoints[..i], remote)
      {
        assert readerEndpoints[..i + 1][..i] == readerEndpoints[..i];
        var ep := readerEndpoints[i];
        if ep.topic == remote.topic {
          match Compat(remote.qos, ep.qos, remote.explicitOwnership, remote.strengthKnown) {
            case Some(Partition) =>
            case Some(policy) => ReportIncompatible(ep, Writer, policy);
            case None => output := output + [SubscriptionMatched(ep.topic, remote.typeName)];
          }
        }
      }
      assert readerEndpoints[..|readerEndpoints|] == readerEndpoints;
    }

    method OnEndpointDiscovered(remote: Remote)
      modifies this`incompatibleTopics, this`output
      ensures View() == Step(old(View()), Discovered(remote), localPrefix)
    {
      if remote.prefix == localPrefix {
        return;
      }
      if remote.kind == Reader {
        OnReaderDiscovered(remote);
      } else {
        OnWriterDiscovered(remote);
      }
    }
  }

  // ----- what every run keeps -----

  predicate Marks(line: Line, topic: string) {
    (line.OfferedIncompatible? || line.RequestedIncompatible?) && line.topic == topic
  }

  predicate Publishes(line: Line, topic: string) {
    line.PublicationMatched? && line.topic == topic
  }

  /** A topic is marked exactly when a line said so. */
  ghost predicate MarkedExactlyWhenReported(st: State) {
    forall topic :: topic in st.incompatible <==> exists i :: 0 <= i < |st.output| && Marks(st.output[i], topic)
  }

  ghost predicate NoPublicationAfterMark(st: State) {
    forall i, j, topic :: 0 <= i < j < |st.output| && Marks(st.output[i], topic) ==> !Publishes(st.output[j], topic)
  }

  /** Every rule is met between the two, the local one offering to a reader and requesting of a writer. */
  ghost predicate PairMeets(ep: LocalEndpoint, remote: Remote) {
    if remote.kind == Reader then AllMet(ep.qos, remote.qos, true, true)
    else AllMet(remote.qos, ep.qos, remote.explicitOwnership, remote.strengthKnown)
  }

  ghost predicate PairBreaks(ep: LocalEndpoint, remote: Remote, p: Policy) {
    if remote.kind == Reader then FirstBroken(p, ep.qos, remote.qos, true, true)
    else FirstBroken(p, remote.qos, ep.qos, remote.explicitOwnership, remote.strengthKnown)
  }

  /** The line says of this pair of endpoints what their QoS say. */
  ghost predicate Explains(ep: LocalEndpoint, remote: Remote, line: Line) {
    && ep.topic == remote.topic == line.topic
    && match line
       case PublicationMatched(_, typeName) =>
         remote.kind == Reader && typeName == remote.typeName && PairMeets(ep, remote)
       case SubscriptionMatched(_, typeName) =>
         remote.kind == Writer && typeName == remote.typeName && PairMeets(ep, remote)
       case OfferedIncompatible(_, p) => remote.kind == Reader && p != Partition && PairBreaks(ep, remote, p)
       case RequestedIncompatible(_, p) => remote.kind == Writer && p != Partition && PairBreaks(ep, remote, p)
  }

  lemma VerdictOfThePair(ep: LocalEndpoint, remote: Remote)
    ensures PairCompat(ep, remote) == None <==> PairMeets(ep, remote)
    ensures forall p :: PairCompat(ep, remote) == Some(p) <==> PairBreaks(ep, remote, p)
  {
    if remote.kind == Reader {
      TheFirstBrokenRuleIsNamed(ep.qos, remote.qos, true, true);
    } else {
      TheFirstBrokenRuleIsNamed(remote.qos, ep.qos, remote.explicitOwnership, remote.strengthKnown);
    }
  }

  function RemotesOf(call: Call): seq<Remote> {
    match call
    case AddWriter(_, found) => found
    case AddReader(_, found) => found
    case Discovered(remote) => [remote]
  }

  function Endpoints(st: State, kind: Kind): seq<LocalEndpoint> {
    if kind == Reader then st.writers else st.readers
  }

  ghost predicate Heard(calls: seq<Call>, local: seq<byte>, remote: Remote) {
    remote.prefix != local && exists k :: 0 <= k < |calls| && remote in RemotesOf(calls[k])
  }

  ghost predicate Justified(line: Line, st: State, calls: seq<Call>, local: seq<byte>) {
    exists ep: LocalEndpoint, remote: Remote ::
      ep in Endpoints(st, remote.kind) && Heard(calls, local, remote) && Explains(ep, remote, line)
  }

  ghost predicate StateInvariant(st: State) {
    MarkedExactlyWhenReported(st) && NoPublicationAfterMark(st)
  }

  lemma PairKeepsInvariant(st: State, ep: LocalEndpoint, remote: Remote, catchUp: bool)
    requires StateInvariant(st)
    ensures StateInvariant(Pair(st, ep, remote, catchUp))
  {
    var after := Pair(st, ep, remote, catchUp);
    var n := |st.output|;
    if |after.output| == n + 1 {
      assert after.output[..n] == st.output;
      forall topic ensures topic in after.incompatible <==>
                           exists i :: 0 <= i <= n && Marks(after.output[i], topic)
      {
        if i :| 0 <= i < n && Marks(st.output[i], topic) {
          assert Marks(after.output[i], topic);
        }
        if i :| 0 <= i <= n && Marks(after.output[i], topic) {
          assert i < n ==> Marks(st.output[i], topic);
        }
        assert topic == ep.topic && topic in after.incompatible - st.incompatible ==> Marks(after.output[n], topic);
      }
    }
  }

  lemma {:induction false} CatchUpKeepsInvariant(st: State, ep: LocalEndpoint, found: seq<Remote>, local: seq<byte>)
    requires StateInvariant(st)
    ensures StateInvariant(CatchUp(st, ep, found, local))
  {
    if found != [] {
      var n := |found| - 1;
      CatchUpKeepsInvariant(st, ep, found[..n], local);
      PairKeepsInvariant(CatchUp(st, ep, found[..n], local), ep, found[n], true);
    }
  }

  lemma {:induction false} PairAllKeepsInvariant(st: State, eps: seq<LocalEndpoint>, remote: Remote)
    requires StateInvariant(st)
    ensures StateInvariant(PairAll(st, eps, remote))
  {
    if eps != [] {
      var n := |eps| - 1;
      PairAllKeepsInvariant(st, eps[..n], remote);
      PairKeepsInvariant(PairAll(st, eps[..n], remote), eps[n], remote, false);
    }
  }

  /**
    After any run of calls, a topic is marked exactly when an incompatible-QoS line was printed
    for it, and no on_publication_matched line for a topic follows its mark.
   */
  lemma {:induction false} MarksAndPublications(calls: seq<Call>, local: seq<byte>)
    ensures MarkedExactlyWhenReported(Run(calls, local))
    ensures NoPublicationAfterMark(Run(calls, local))
  {
    if calls != [] {
      var before := Run(calls[..|calls| - 1], local);
      MarksAndPublications(calls[..|calls| - 1], local);
      match calls[|calls| - 1] {
        case AddWriter(ep, found) => CatchUpKeepsInvariant(before.(writers := before.writers + [ep]), ep, found, local);
        case AddReader(ep, found) => CatchUpKeepsInvariant(before.(readers := before.readers + [ep]), ep, found, local);
        case Discovered(remote) =>
          PairAllKeepsInvariant(before, Endpoints(before, remote.kind), remote);
      }
    }
  }

  // ----- why each line was printed -----

  ghost predicate Verdict(line: Line, eps: seq<LocalEndpoint>, remotes: seq<Remote>, local: seq<byte>) {
    exists ep: LocalEndpoint, remote: Remote ::
      ep in eps && remote in remotes && remote.prefix != local && Explains(ep, remote, line)
  }

  /** From `st` to `after` only lines were added, each a verdict on a pair from `eps` and `remotes`. */
  ghost predicate AddsVerdicts(st: State, after: State, eps: seq<LocalEndpoint>, remotes: seq<Remote>,
                               local: seq<byte>) {
    && after.writers == st.writers && after.readers == st.readers
    && st.output <= after.output && st.incompatible <= after.incompatible
    && forall i :: |st.output| <= i < |after.output| ==> Verdict(after.output[i], eps, remotes, local)
  }

  lemma PairAddsVerdict(st: State, ep: LocalEndpoint, remote: Remote, catchUp: bool, local: seq<byte>)
    requires ep.topic == remote.topic && remote.prefix != local
    ensures AddsVerdicts(st, Pair(st, ep, remote, catchUp), [ep], [remote], local)
  {
    var after := Pair(st, ep, remote, catchUp);
    VerdictOfThePair(ep, remote);
    if |after.output| == |st.output| + 1 {
      assert Explains(ep, remote, after.output[|st.output|]);
    }
  }

  lemma AddsVerdictsInSequence(a: State, b: State, c: State, eps: seq<LocalEndpoint>, remotes: seq<Remote>,
                               eps1: seq<LocalEndpoint>, remotes1: seq<Remote>,
                               eps2: seq<LocalEndpoint>, remotes2: seq<Remote>, local: seq<byte>)
    requires AddsVerdicts(a, b, eps1, remotes1, local) && AddsVerdicts(b, c, eps2, remotes2, local)
    requires forall ep :: ep in eps1 || ep in eps2 ==> ep in eps
    requires forall r :: r in remotes1 || r in remotes2 ==> r in remotes
    ensures AddsVerdicts(a, c, eps, remotes, local)
  {
    forall i | |a.output| <= i < |c.output| ensures Verdict(c.output[i], eps, remotes, local) {
      if i < |b.output| {
        assert c.output[i] == b.output[i];
        assert Verdict(b.output[i], eps1, remotes1, local);
      } else {
        assert Verdict(c.output[i], eps2, remotes2, local);
      }
    }
  }

  lemma {:induction false} CatchUpAddsVerdicts(st: State, ep: LocalEndpoint, found: seq<Remote>, local: seq<byte>)
    requires forall i :: 0 <= i < |found| ==> found[i].topic == ep.topic
    ensures AddsVerdicts(st, CatchUp(st, ep, found, local), [ep], found, local)
  {
    if found != [] {
      var n := |found| - 1;
      var before := CatchUp(st, ep, found[..n], local);
      CatchUpAddsVerdicts(st, ep, found[..n], local);
      if found[n].prefix != local && found[n].confirmed {
        PairAddsVerdict(before, ep, found[n], true, local);
        AddsVerdictsInSequence(st, before, CatchUp(st, ep, found, local), [ep], found,
                               [ep], found[..n], [ep], [found[n]], local);
      }
    }
  }

  lemma {:induction false} PairAllAddsVerdicts(st: State, eps: seq<LocalEndpoint>, remote: Remote, local: seq<byte>)
    requires remote.prefix != local
    ensures AddsVerdicts(st, PairAll(st, eps, remote), eps, [remote], local)
  {
    if eps != [] {
      var n := |eps| - 1;
      var before := PairAll(st, eps[..n], remote);
      PairAllAddsVerdicts(st, eps[..n], remote, local);
      if eps[n].topic == remote.topic {
        PairAddsVerdict(before, eps[n], remote, false, local);
        AddsVerdictsInSequence(st, before, PairAll(st, eps, remote), eps, [remote],
                               eps[..n], [remote], [eps[n]], [remote], local);
      }
    }
  }

  lemma JustifiedFromVerdict(line: Line, st: State, calls: seq<Call>, local: seq<byte>,
                             eps: seq<LocalEndpoint>, remotes: seq<Remote>, kind: Kind)
    requires Verdict(line, eps, remotes, local)
    requires forall r :: r in remotes ==> r.kind == kind
    requires forall ep :: ep in eps ==> ep in Endpoints(st, kind)
    requires calls != [] && forall r :: r in remotes ==> r in RemotesOf(calls[|calls| - 1])
    ensures Justified(line, st, calls, local)
  {
    var ep: LocalEndpoint, remote: Remote :|
      ep in eps && remote in remotes && remote.prefix != local && Explains(ep, remote, line);
    assert Heard(calls, local, remote);
  }

  lemma JustifiedLater(line: Line, st: State, calls: seq<Call>, local: seq<byte>, st': State, calls': seq<Call>)
    requires Justified(line, st, calls, local)
    requires st.writers <= st'.writers && st.readers <= st'.readers && calls <= calls'
    ensures Justified(line, st', calls', local)
  {
    var ep, remote: Remote :|
      ep in Endpoints(st, remote.kind) && Heard(calls, local, remote) && Explains(ep, remote, line);
    var k :| 0 <= k < |calls| && remote in RemotesOf(calls[k]);
    assert calls'[k] == calls[k];
    var i :| 0 <= i < |Endpoints(st, remote.kind)| && Endpoints(st, remote.kind)[i] == ep;
    assert Endpoints(st', remote.kind)[i] == ep;
  }

  lemma StepAddsVerdicts(st: State, call: Call, local: seq<byte>) returns (eps: seq<LocalEndpoint>, kind: Kind)
    requires WellTyped(call)
    ensures var after := Step(st, call, local);
            && st.writers <= after.writers && st.readers <= after.readers && st.output <= after.output
            && (forall ep :: ep in eps ==> ep in Endpoints(after, kind))
            && (forall r :: r in RemotesOf(call) ==> r.kind == kind)
            && forall i :: |st.output| <= i < |after.output| ==> Verdict(after.output[i], eps, RemotesOf(call), local)
  {
    match call {
      case AddWriter(ep, found) =>
        eps, kind := [ep], Reader;
        CatchUpAddsVerdicts(st.(writers := st.writers + [ep]), ep, found, local);
        assert (st.writers + [ep])[|st.writers|] == ep;
      case AddReader(ep, found) =>
        eps, kind := [ep], Writer;
        CatchUpAddsVerdicts(st.(readers := st.readers + [ep]), ep, found, local);
        assert (st.readers + [ep])[|st.readers|] == ep;
      case Discovered(remote) =>
        eps, kind := Endpoints(st, remote.kind), remote.kind;
        if remote.prefix != local {
          PairAllAddsVerdicts(st, eps, remote, local);
        }
    }
  }

  /**
    After any run, every printed line is the compatibility verdict on a registered local endpoint
    and a remote endpoint of the same topic that a call brought in, never one of our own.
   */
  lemma {:induction false} EveryLineIsJustified(calls: seq<Call>, local: seq<byte>, i: nat)
    requires forall k :: 0 <= k < |calls| ==> WellTyped(calls[k])
    requires i < |Run(calls, local).output|
    ensures Justified(Run(calls, local).output[i], Run(calls, local), calls, local)
  {
    var n := |calls| - 1;
    var before, after := Run(calls[..n], local), Run(calls, local);
    var eps, kind := StepAddsVerdicts(before, calls[n], local);
    if i < |before.output| {
      EveryLineIsJustified(calls[..n], local, i);
      JustifiedLater(before.output[i], before, calls[..n], local, after, calls);
    } else {
      JustifiedFromVerdict(after.output[i], after, calls, local, eps, RemotesOf(calls[n]), kind);
    }
  }

  /** From output position `since` on, some line says what the QoS of the pair say. */
  ghost predicate Told(since: nat, output: seq<Line>, ep: LocalEndpoint, remote: Remote) {
    exists i :: since <= i < |output| && Explains(ep, remote, output[i])
  }

  /**
    The pair got the line its QoS call for, unless their partitions alone keep them apart or the
    topic of a local writer is marked.
   */
  ghost predicate Answered(since: nat, after: State, ep: LocalEndpoint, remote: Remote) {
    || Told(since, after.output, ep, remote)
    || PairBreaks(ep, remote, Partition)
    || (remote.kind == Reader && PairMeets(ep, remote) && ep.topic in after.incompatible)
  }

  lemma AnsweredLater(since: nat, a: State, b: State, ep: LocalEndpoint, remote: Remote)
    requires Answered(since, a, ep, remote) && a.output <= b.output && a.incompatible <= b.incompatible
    ensures Answered(since, b, ep, remote)
  {
    if i :| since <= i < |a.output| && Explains(ep, remote, a.output[i]) {
      assert b.output[i] == a.output[i];
    }
  }

  lemma PairAnswers(st: State, ep: LocalEndpoint, remote: Remote)
    requires ep.topic == remote.topic
    ensures Answered(|st.output|, Pair(st, ep, remote, false), ep, remote)
  {
    VerdictOfThePair(ep, remote);
    var after := Pair(st, ep, remote, false);
    if |after.output| == |st.output| + 1 {
      assert Explains(ep, remote, after.output[|st.output|]);
    }
  }

  /** A discovered endpoint gets an answer from every local endpoint of its topic. */
  lemma {:induction false} DiscoveryAnswersEveryEndpoint(st: State, eps: seq<LocalEndpoint>, remote: Remote, k: nat)
    requires k < |eps| && eps[k].topic == remote.topic
    ensures Answered(|st.output|, PairAll(st, eps, remote), eps[k], remote)
  {
    var n := |eps| - 1;
    var before, after := PairAll(st, eps[..n], remote), PairAll(st, eps, remote);
    PairAllGrows(st, eps[..n], remote);
    if k < n {
      DiscoveryAnswersEveryEndpoint(st, eps[..n], remote, k);
      AnsweredLater(|st.output|, before, after, eps[k], remote);
    } else {
      PairAnswers(before, eps[n], remote);
    }
  }

  lemma {:induction false} PairAllGrows(st: State, eps: seq<LocalEndpoint>, remote: Remote)
    ensures st.output <= PairAll(st, eps, remote).output
  {
    if eps != [] {
      PairAllGrows(st, eps[..|eps| - 1], remote);
    }
  }

  // ----- catching up on endpoints discovered before -----

  /** Own, unconfirmed and other-partition endpoints are passed over. */
  predicate PassedOver(ep: LocalEndpoint, remote: Remote, local: seq<byte>) {
    remote.prefix == local || !remote.confirmed || PairCompat(ep, remote) == Some(Partition)
  }

  function Counting(ep: LocalEndpoint, found: seq<Remote>, local: seq<byte>): seq<Remote> {
    if found == [] then []
    else
      var last := found[|found| - 1];
      Counting(ep, found[..|found| - 1], local) + if PassedOver(ep, last, local) then [] else [last]
  }

  /** Catching up with the endpoints found is catching up with those that count. */
  lemma {:induction false} CatchUpPassesOver(st: State, ep: LocalEndpoint, found: seq<Remote>, local: seq<byte>)
    ensures CatchUp(st, ep, found, local) == CatchUp(st, ep, Counting(ep, found, local), local)
  {
    if found != [] {
      var most, last := found[..|found| - 1], found[|found| - 1];
      CatchUpPassesOver(st, ep, most, local);
      if !PassedOver(ep, last, local) {
        InitOfAppend(Counting(ep, most, local), [last]);
        assert [last][..0] == [] && Counting(ep, most, local) + [] == Counting(ep, most, local);
      } else {
        assert Counting(ep, found, local) == Counting(ep, most, local);
      }
    }
  }

  /** Registering an endpoint next to none that counts only lists it. */
  lemma AddingAmongPassedOverIsSilent(st: State, ep: LocalEndpoint, found: seq<Remote>, local: seq<byte>)
    requires forall i :: 0 <= i < |found| ==> PassedOver(ep, found[i], local)
    ensures Step(st, AddWriter(ep, found), local) == st.(writers := st.writers + [ep])
    ensures Step(st, AddReader(ep, found), local) == st.(readers := st.readers + [ep])
  {
    NoneCounts(ep, found, local);
    CatchUpPassesOver(st.(writers := st.writers + [ep]), ep, found, local);
    CatchUpPassesOver(st.(readers := st.readers + [ep]), ep, found, local);
  }

  lemma {:induction false} NoneCounts(ep: LocalEndpoint, found: seq<Remote>, local: seq<byte>)
    requires forall i :: 0 <= i < |found| ==> PassedOver(ep, found[i], local)
    ensures Counting(ep, found, local) == []
  {
    if found != [] {
      NoneCounts(ep, found[..|found| - 1], local);
    }
  }

  /** As `Answered`, but a compatible reader is not announced to a writer that is being added. */
  ghost predicate AnsweredOnAdding(since: nat, after: State, ep: LocalEndpoint, remote: Remote) {
    (remote.kind == Reader && PairMeets(ep, remote)) || Answered(since, after, ep, remote)
  }

  lemma {:induction false} CatchUpGrows(st: State, ep: LocalEndpoint, found: seq<Remote>, local: seq<byte>)
    ensures st.output <= CatchUp(st, ep, found, local).output
  {
    if found != [] {
      CatchUpGrows(st, ep, found[..|found| - 1], local);
    }
  }

  lemma PairAnswersOnAdding(st: State, ep: LocalEndpoint, remote: Remote)
    requires ep.topic == remote.topic
    ensures AnsweredOnAdding(|st.output|, Pair(st, ep, remote, true), ep, remote)
  {
    VerdictOfThePair(ep, remote);
    var after := Pair(st, ep, remote, true);
    if |after.output| == |st.output| + 1 {
      assert Explains(ep, remote, after.output[|st.output|]);
    }
  }

  lemma AnsweredEarlier(before: nat, since: nat, after: State, ep: LocalEndpoint, remote: Remote)
    requires before <= since && AnsweredOnAdding(since, after, ep, remote)
    ensures AnsweredOnAdding(before, after, ep, remote)
  {}

  /**
    Every confirmed foreign endpoint found when a local one is added gets its answer: a reader
    being added announces each compatible writer and reports each incompatible one, a writer
    being added only reports.
   */
  lemma {:induction false} AddingAnswersEveryEndpoint(st: State, ep: LocalEndpoint, found: seq<Remote>,
                                                      local: seq<byte>, k: nat)
    requires k < |found| && found[k].prefix != local && found[k].confirmed && found[k].topic == ep.topic
    ensures AnsweredOnAdding(|st.output|, CatchUp(st, ep, found, local), ep, found[k])
  {
    var n := |found| - 1;
    var before, after := CatchUp(st, ep, found[..n], local), CatchUp(st, ep, found, local);
    CatchUpGrows(st, ep, found[..n], local);
    if k < n {
      AddingAnswersEveryEndpoint(st, ep, found[..n], local, k);
      if Answered(|st.output|, before, ep, found[k]) {
        AnsweredLater(|st.output|, before, after, ep, found[k]);
      }
    } else {
      PairAnswersOnAdding(before, ep, found[n]);
      AnsweredEarlier(|st.output|, |before.output|, after, ep, found[n]);
    }
  }

  predicate NoCommonPartition(eps: seq<LocalEndpoint>, remote: Remote) {
    forall i :: 0 <= i < |eps| && eps[i].topic == remote.topic ==> PairCompat(eps[i], remote) == Some(Partition)
  }

  /** Our own endpoints, and remote ones in no common partition, leave no trace. */
  lemma OwnAndForeignPartitionsAreSilent(st: State, eps: seq<LocalEndpoint>, remote: Remote, local: seq<byte>)
    requires eps == Endpoints(st, remote.kind)
    requires remote.prefix == local || NoCommonPartition(eps, remote)
    ensures Step(st, Discovered(remote), local) == st
  {
    if remote.prefix != local {
      AllPartitionMismatches(st, eps, remote);
    }
  }

  lemma {:induction false} AllPartitionMismatches(st: State, eps: seq<LocalEndpoint>, remote: Remote)
    requires NoCommonPartition(eps, remote)
    ensures PairAll(st, eps, remote) == st
  {
    if eps != [] {
      AllPartitionMismatches(st, eps[..|eps| - 1], remote);
    }
  }

  // ----- all that a call prints -----

  function Concat(parts: seq<seq<Line>>): seq<Line> {
    if parts == [] then [] else Concat(parts[..|parts| - 1]) + parts[|parts| - 1]
  }

  /** The one line the pair calls for; none if partitions alone keep it apart, or if it matches and is to be silent. */
  ghost predicate Says(ep: LocalEndpoint, remote: Remote, silent: bool, lines: seq<Line>) {
    if PairBreaks(ep, remote, Partition) || (silent && PairMeets(ep, remote)) then lines == []
    else |lines| == 1 && Explains(ep, remote, lines[0])
  }

  ghost predicate MarksIn(lines: seq<Line>, topic: string) {
    exists i :: 0 <= i < |lines| && Marks(lines[i], topic)
  }

  /** From `st` to `after` these lines were printed, and the topic was marked if one of them says so. */
  ghost predicate Prints(st: State, after: State, topic: string, lines: seq<Line>) {
    && after.writers == st.writers && after.readers == st.readers && after.output == st.output + lines
    && after.incompatible == st.incompatible + (if MarksIn(lines, topic) then {topic} else {})
    && forall other :: other != topic ==> !MarksIn(lines, other)
  }

  lemma PairSays(st: State, ep: LocalEndpoint, remote: Remote, catchUp: bool) returns (lines: seq<Line>)
    requires ep.topic == remote.topic
    ensures Prints(st, Pair(st, ep, remote, catchUp), ep.topic, lines)
    ensures Says(ep, remote, remote.kind == Reader && (catchUp || ep.topic in st.incompatible), lines)
  {
    VerdictOfThePair(ep, remote);
    var after := Pair(st, ep, remote, catchUp);
    lines := after.output[|st.output|..];
    if |lines| == 1 {
      assert Marks(lines[0], ep.topic) || !MarksIn(lines, ep.topic);
    }
    if st.incompatible == after.incompatible {
      assert st.incompatible == st.incompatible + {};
    }
  }

  ghost predicate MarkedBy(st: State, parts: seq<seq<Line>>, n: nat, topic: string)
    requires n <= |parts|
  {
    topic in st.incompatible || exists j :: 0 <= j < n && MarksIn(parts[j], topic)
  }

  /** From `st` to `after` the parts were printed in order, and the topics they speak of were marked. */
  ghost predicate Spoken(st: State, after: State, parts: seq<seq<Line>>) {
    && after.writers == st.writers && after.readers == st.readers && after.output == st.output + Concat(parts)
    && forall topic :: topic in after.incompatible <==> MarkedBy(st, parts, |parts|, topic)
  }

  lemma NothingSpoken(st: State)
    ensures Spoken(st, st, [])
  {
    assert st.output + [] == st.output;
  }

  lemma OneMoreSpoken(st: State, before: State, after: State, most: seq<seq<Line>>, topic: string, lines: seq<Line>)
    requires Spoken(st, before, most) && Prints(before, after, topic, lines)
    ensures Spoken(st, after, most + [lines])
  {
    var parts := most + [lines];
    assert parts[..|most|] == most && parts[|most|] == lines;
    Assoc(st.output, Concat(most), lines);
    forall t ensures MarkedBy(st, parts, |parts|, t) <==> MarkedBy(st, most, |most|, t) || MarksIn(lines, t) {
      MarkedByOneMore(st, most, lines, t);
    }
  }

  lemma MarkedByOneMore(st: State, most: seq<seq<Line>>, lines: seq<Line>, topic: string)
    ensures MarkedBy(st, most + [lines], |most| + 1, topic) <==>
            MarkedBy(st, most, |most|, topic) || MarksIn(lines, topic)
  {
    var parts := most + [lines];
    assert parts[|most|] == lines;
    if j :| 0 <= j < |most| && MarksIn(most[j], topic) {
      assert parts[j] == most[j];
    }
    if j :| 0 <= j < |parts| && MarksIn(parts[j], topic) {
      assert j < |most| ==> parts[j] == most[j];
    }
  }

  lemma NothingPrinted(st: State, topic: string)
    ensures Prints(st, st, topic, [])
  {
    assert st.output + [] == st.output && st.incompatible + {} == st.incompatible;
  }

  ghost predicate SpeaksOnDiscovery(st: State, ep: LocalEndpoint, remote: Remote, parts: seq<seq<Line>>, k: nat)
    requires k < |parts|
  {
    if ep.topic != remote.topic then parts[k] == []
    else Says(ep, remote, remote.kind == Reader && MarkedBy(st, parts, k, remote.topic), parts[k])
  }

  lemma SpeaksStill(st: State, ep: LocalEndpoint, remote: Remote, parts: seq<seq<Line>>, more: seq<seq<Line>>, k: nat)
    requires k < |parts| && parts <= more && SpeaksOnDiscovery(st, ep, remote, parts, k)
    ensures SpeaksOnDiscovery(st, ep, remote, more, k)
  {
    assert forall j :: 0 <= j < |parts| ==> more[j] == parts[j];
    assert MarkedBy(st, more, k, remote.topic) <==> MarkedBy(st, parts, k, remote.topic);
  }

  /** What the endpoint that comes next says. */
  lemma NextSpeaks(st: State, before: State, most: seq<seq<Line>>, ep: LocalEndpoint, remote: Remote)
    returns (lines: seq<Line>)
    requires Spoken(st, before, most)
    ensures var after := if ep.topic == remote.topic then Pair(before, ep, remote, false) else before;
            Spoken(st, after, most + [lines]) && SpeaksOnDiscovery(st, ep, remote, most + [lines], |most|)
  {
    if ep.topic == remote.topic {
      lines := PairSays(before, ep, remote, false);
      OneMoreSpoken(st, before, Pair(before, ep, remote, false), most, ep.topic, lines);
    } else {
      lines := [];
      NothingPrinted(before, ep.topic);
      OneMoreSpoken(st, before, before, most, ep.topic, lines);
    }
    assert forall j :: 0 <= j < |most| ==> (most + [lines])[j] == most[j];
    assert MarkedBy(st, most + [lines], |most|, remote.topic) <==> MarkedBy(st, most, |most|, remote.topic);
  }

  /** A discovery is answered by the local endpoints in order, each with the one line its pair calls for. */
  lemma {:induction false} DiscoverySpeaksInOrder(st: State, eps: seq<LocalEndpoint>, remote: Remote)
    returns (parts: seq<seq<Line>>)
    ensures |parts| == |eps| && Spoken(st, PairAll(st, eps, remote), parts)
    ensures forall k :: 0 <= k < |eps| ==> SpeaksOnDiscovery(st, eps[k], remote, parts, k)
  {
    if eps == [] {
      parts := [];
      NothingSpoken(st);
    } else {
      var n := |eps| - 1;
      var most := DiscoverySpeaksInOrder(st, eps[..n], remote);
      var lines := NextSpeaks(st, PairAll(st, eps[..n], remote), most, eps[n], remote);
      parts := most + [lines];
      forall k | 0 <= k < n ensures SpeaksOnDiscovery(st, eps[k], remote, parts, k) {
        assert eps[..n][k] == eps[k];
        SpeaksStill(st, eps[k], remote, most, parts, k);
      }
    }
  }

  ghost predicate SpeaksOnAdding(ep: LocalEndpoint, remote: Remote, local: seq<byte>, lines: seq<Line>) {
    if remote.prefix == local || !remote.confirmed then lines == []
    else Says(ep, remote, remote.kind == Reader, lines)
  }

  lemma NextIsSpokenOf(st: State, before: State, most: seq<seq<Line>>, ep: LocalEndpoint, remote: Remote,
                       local: seq<byte>)
    returns (lines: seq<Line>)
    requires Spoken(st, before, most) && remote.topic == ep.topic
    ensures SpeaksOnAdding(ep, remote, local, lines)
    ensures Spoken(st, if remote.prefix == local || !remote.confirmed then before else Pair(before, ep, remote, true),
                   most + [lines])
  {
    if remote.prefix == local || !remote.confirmed {
      lines := [];
      NothingPrinted(before, ep.topic);
      OneMoreSpoken(st, before, before, most, ep.topic, lines);
    } else {
      lines := PairSays(before, ep, remote, true);
      OneMoreSpoken(st, before, Pair(before, ep, remote, true), most, ep.topic, lines);
    }
  }

  /** An endpoint being added says, for each one found in order, what its pair calls for; writers match silently. */
  lemma {:induction false} AddingSpeaksInOrder(st: State, ep: LocalEndpoint, found: seq<Remote>, local: seq<byte>)
    returns (parts: seq<seq<Line>>)
    requires forall i :: 0 <= i < |found| ==> found[i].topic == ep.topic
    ensures |parts| == |found| && Spoken(st, CatchUp(st, ep, found, local), parts)
    ensures forall k :: 0 <= k < |found| ==> SpeaksOnAdding(ep, found[k], local, parts[k])
  {
    if found == [] {
      parts := [];
      NothingSpoken(st);
    } else {
      var n := |found| - 1;
      var most := AddingSpeaksInOrder(st, ep, found[..n], local);
      var lines := NextIsSpokenOf(st, CatchUp(st, ep, found[..n], local), most, ep, found[n], local);
      parts := most + [lines];
      forall k | 0 <= k < n ensures SpeaksOnAdding(ep, found[k], local, parts[k]) {
        assert found[..n][k] == found[k] && parts[k] == most[k];
      }
    }
  }

  /** The lists a call extends, and the pairs it speaks of. */
  lemma EveryCallSpeaksInOrder(st: State, call: Call, local: seq<byte>) returns (parts: seq<seq<Line>>)
    requires WellTyped(call)
    ensures Step(st, call, local).output == st.output + Concat(parts)
    ensures forall topic :: topic in Step(st, call, local).incompatible <==> MarkedBy(st, parts, |parts|, topic)
    ensures var after := Step(st, call, local);
            match call
            case AddWriter(ep, found) =>
              && after.writers == st.writers + [ep] && after.readers == st.readers && |parts| == |found|
              && forall k :: 0 <= k < |found| ==> SpeaksOnAdding(ep, found[k], local, parts[k])
            case AddReader(ep, found) =>
              && after.writers == st.writers && after.readers == st.readers + [ep] && |parts| == |found|
              && forall k :: 0 <= k < |found| ==> SpeaksOnAdding(ep, found[k], local, parts[k])
            case Discovered(remote) =>
              && after.writers == st.writers && after.readers == st.readers
              && if remote.prefix == local then parts == []
                 else
                   var eps := if remote.kind == Reader then st.writers else st.readers;
                   |parts| == |eps| && forall k :: 0 <= k < |eps| ==> SpeaksOnDiscovery(st, eps[k], remote, parts, k)
  {
    match call {
      case AddWriter(ep, found) =>
        parts := AddingSpeaksInOrder(st.(writers := st.writers + [ep]), ep, found, local);
      case AddReader(ep, found) =>
        parts := AddingSpeaksInOrder(st.(readers := st.readers + [ep]), ep, found, local);
      case Discovered(remote) =>
        if remote.prefix == local {
          parts := [];
        } else {
          parts := DiscoverySpeaksInOrder(st, Endpoints(st, remote.kind), remote);
        }
    }
  }
}
