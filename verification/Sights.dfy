/**
  What the drivers of interoperability_report.py see of their applications, over whole runs: each
  return code says what its process found last, and a publisher gives up waiting only at the end
  of its application's output.
 */
module Sights {
  import opened Bytes
  import opened Sequences
  import opened ReturnCodes
  import opened Harness
  import opened Protocol

  datatype Pattern =
    | TopicCreated | WriterCreated | ReaderCreated | FilterFailed | Matched | Sample
    | OfferedIncompatible | RequestedIncompatible | OfferedDeadlineMissed | RequestedDeadlineMissed
    | NotSupported | Output | Timeout | Eof

  /** A pattern, a sample line that cannot be read, or what the check function returns. */
  datatype Sight = Saw(pattern: Pattern) | Unreadable | Checked(verdict: ReturnCode)

  // ----- the patterns waited for -----

  /** The lists handed to `expect`, in order. */
  function PubPatterns(pc: PubPc): seq<Pattern> {
    match pc
    case PubTopic => [TopicCreated, NotSupported, Timeout, Eof]
    case PubWriter => [WriterCreated, NotSupported, Timeout, Eof]
    case PubMatch => [Matched, OfferedIncompatible, NotSupported, Timeout, Eof]
    case PubFirstSample => [Sample, OfferedDeadlineMissed, NotSupported, Timeout, Eof]
    case PubSample(_) => [Sample, OfferedDeadlineMissed, NotSupported, Timeout, Eof]
    case _ => []
  }

  function SubPatterns(pc: SubPc): seq<Pattern> {
    match pc
    case SubTopic => [TopicCreated, NotSupported, Timeout, Eof]
    case SubReader => [ReaderCreated, FilterFailed, NotSupported, Timeout, Eof]
    case SubData => [Sample, RequestedIncompatible, RequestedDeadlineMissed, NotSupported, Timeout, Eof]
    case _ => []
  }

  /** What a read of the polling loop yields. */
  const POLL := [Output, Timeout, Eof]

  function SightOf(p: Process, index: nat, verdict: ReturnCode): seq<Sight> {
    match p
    case NotStarted => []
    case Pub(pc, _) =>
      if index < |PubPatterns(pc)| then [Saw(PubPatterns(pc)[index])]
      else if pc.PubSample? then [Unreadable]
      else []
    case Sub(pc) =>
      if pc == SubCheck then [Checked(verdict)]
      else if index < |SubPatterns(pc)| then [Saw(SubPatterns(pc)[index])]
      else []
  }

  /** All that process `i` finds in its scripted phases, in a run from `s`. */
  function History(c: Config, s: State, actions: seq<Action>, i: nat): seq<Sight>
    requires RunFrom(c, s, actions).Some?
    decreases |actions|
  {
    if actions == [] then []
    else
      var a := actions[0];
      (if a.Proceed? && a.i == i < |s.procs| then SightOf(s.procs[i], a.index, a.verdict) else [])
      + History(c, Next(c, s, a).value, actions[1..], i)
  }

  /** All that publisher `i` reads while it polls; it reads nothing once every event is set. */
  function Polled(c: Config, s: State, actions: seq<Action>, i: nat): seq<Pattern>
    requires RunFrom(c, s, actions).Some?
    decreases |actions|
  {
    if actions == [] then []
    else
      var a := actions[0];
      (if a.Proceed? && a.i == i < |s.procs| then ReadOf(s, s.procs[i], a.index) else [])
      + Polled(c, Next(c, s, a).value, actions[1..], i)
  }

  function ReadOf(s: State, p: Process, index: nat): seq<Pattern> {
    if p.Pub? && p.ppc == PubPoll && !AllSet(s.subFinished) && index < |POLL| then [POLL[index]] else []
  }

  // ----- what a code says -----

  /** What a driver has to find, step by step, to get on; a publisher that saves samples finds samples in the end. */
  function SubGoal(step: nat): Pattern {
    if step == 0 then TopicCreated else if step == 1 then ReaderCreated else Sample
  }

  function PubGoal(step: nat): Pattern {
    if step == 0 then TopicCreated else if step == 1 then WriterCreated else if step == 2 then Matched else Sample
  }

  ghost predicate Reads(h: seq<Sight>) {
    |h| <= 3 && forall j :: 0 <= j < |h| ==> h[j] == Saw(SubGoal(j))
  }

  ghost predicate Writes(saves: bool, h: seq<Sight>) {
    (|h| > 3 ==> saves) && forall j :: 0 <= j < |h| ==> h[j] == Saw(PubGoal(j))
  }

  /** What a subscriber that got `k` steps far found last explains the code. */
  predicate SubscriberLast(k: nat, last: Sight, code: ReturnCode) {
    match last
    case Checked(verdict) => k == 3 && code == verdict
    case Unreadable => false
    case Saw(p) =>
      && k < 3
      && match p
         case NotSupported => code == SubUnsupportedFeature
         case FilterFailed => k == 1 && code == FilterNotCreated
         case RequestedIncompatible => k == 2 && code == IncompatibleQos
         case RequestedDeadlineMissed => k == 2 && code == DeadlineMissed
         case Timeout | Eof =>
           code == if k == 0 then TopicNotCreated else if k == 1 then ReaderNotCreated else DataNotReceived
         case _ => false
  }

  /** What a publisher that got `k` steps far found last explains the code. */
  predicate PublisherLast(saves: bool, k: nat, last: Sight, code: ReturnCode) {
    match last
    case Checked(_) => false
    case Unreadable => k >= 4 && code == DataNotCorrect
    case Saw(p) =>
      match p
      case NotSupported => code == PubUnsupportedFeature
      case OfferedIncompatible => k == 2 && code == IncompatibleQos
      case OfferedDeadlineMissed => k >= 3 && code == DeadlineMissed
      case Matched => k == 2 && !saves && code == Ok
      case Sample => k == 3 + MAX_SAMPLES_SAVED && code == Ok
      case Timeout | Eof =>
        code == if k == 0 then TopicNotCreated else if k == 1 then WriterNotCreated
                else if k == 2 then ReaderNotMatched else DataNotSent
      case _ => false
  }

  ghost predicate SubscriberTold(h: seq<Sight>, code: ReturnCode) {
    h != [] && Reads(h[..|h| - 1]) && SubscriberLast(|h| - 1, h[|h| - 1], code)
  }

  ghost predicate PublisherTold(saves: bool, h: seq<Sight>, code: ReturnCode) {
    h != [] && Writes(saves, h[..|h| - 1]) && (|h| > 3 ==> saves) && PublisherLast(saves, |h| - 1, h[|h| - 1], code)
  }

  /** How many goals lie behind a scripted phase. */
  function SubDepth(pc: SubPc): nat {
    if pc == SubTopic then 0 else if pc == SubReader then 1 else if pc == SubData then 2 else 3
  }

  function PubDepth(pc: PubPc): nat {
    match pc
    case PubTopic => 0
    case PubWriter => 1
    case PubMatch => 2
    case PubSample(saved) => 4 + saved
    case _ => 3
  }

  /** Where a subscriber stands, and the code it has written, agree with what it found; likewise a publisher. */
  ghost predicate SubAlong(pc: SubPc, code: Option<ReturnCode>, h: seq<Sight>) {
    if Scripted(Sub(pc)) then |h| == SubDepth(pc) && Reads(h)
    else code.Some? && SubscriberTold(h, code.value)
  }

  ghost predicate PubAlong(pc: PubPc, saves: bool, code: Option<ReturnCode>, h: seq<Sight>) {
    if Scripted(Pub(pc, false)) then
      && |h| == PubDepth(pc) && Writes(saves, h) && (|h| >= 3 ==> saves)
      && (pc.PubSample? ==> pc.saved < MAX_SAMPLES_SAVED && code == Some(Ok))
    else code.Some? && PublisherTold(saves, h, code.value)
  }

  ghost predicate Along(c: Config, s: State, i: nat, h: seq<Sight>)
    requires Sized(c, s) && i < |c.roles|
  {
    match s.procs[i]
    case NotStarted => h == []
    case Sub(pc) => SubAlong(pc, s.codes[i], h)
    case Pub(pc, _) => PubAlong(pc, c.saves[i], s.codes[i], h)
  }

  lemma OneMoreSight(h: seq<Sight>, x: Sight)
    ensures (h + [x])[..|h|] == h && (h + [x])[|h|] == x
  {}

  lemma ReadsMore(h: seq<Sight>, x: Sight, code: ReturnCode)
    requires Reads(h)
    ensures |h| < 3 && x == Saw(SubGoal(|h|)) ==> Reads(h + [x])
    ensures SubscriberLast(|h|, x, code) ==> SubscriberTold(h + [x], code)
  {
    OneMoreSight(h, x);
  }

  /** What is found either leads on or explains the code that is written. */
  predicate SubSays(pc: SubPc, r: Outcome<SubPc>, x: Sight) {
    match r.code
    case None =>
      r.pc in {SubReader, SubData, SubCheck} && SubDepth(r.pc) == SubDepth(pc) + 1 && x == Saw(SubGoal(SubDepth(pc)))
    case Some(code) => r.pc == SubSet && SubscriberLast(SubDepth(pc), x, code)
  }

  lemma SubScriptSays(pc: SubPc, index: nat, verdict: ReturnCode)
    requires SubScript(pc, index, verdict).Some?
    ensures |SightOf(Sub(pc), index, verdict)| == 1
    ensures SubSays(pc, SubScript(pc, index, verdict).value, SightOf(Sub(pc), index, verdict)[0])
  {}

  lemma SubSaysTells(pc: SubPc, r: Outcome<SubPc>, x: Sight, code: Option<ReturnCode>, h: seq<Sight>)
    requires SubSays(pc, r, x) && Reads(h) && |h| == SubDepth(pc)
    ensures SubAlong(r.pc, if r.code.Some? then r.code else code, h + [x])
  {
    match r.code {
      case None => ReadsMore(h, x, Ok);
      case Some(written) => ReadsMore(h, x, written);
    }
  }

  /** A scripted step of a subscriber keeps its story. */
  lemma SubScriptTells(pc: SubPc, index: nat, verdict: ReturnCode, code: Option<ReturnCode>, h: seq<Sight>)
    requires SubScript(pc, index, verdict).Some? && SubAlong(pc, code, h)
    ensures var r, seen := SubScript(pc, index, verdict).value, SightOf(Sub(pc), index, verdict);
            |seen| == 1 && SubAlong(r.pc, if r.code.Some? then r.code else code, h + seen)
  {
    var r, seen := SubScript(pc, index, verdict).value, SightOf(Sub(pc), index, verdict);
    SubScriptSays(pc, index, verdict);
    SubSaysTells(pc, r, seen[0], code, h);
    assert seen == [seen[0]];
  }

  lemma SubStepAlong(c: Config, s: State, i: nat, index: nat, verdict: ReturnCode, h: seq<Sight>)
    requires Inv(c, s) && i < |s.procs| && s.procs[i].Sub? && c.roles[i] == Subscriber
    requires SubStep(c, s, i, index, verdict).Some? && Along(c, s, i, h)
    ensures var t := SubStep(c, s, i, index, verdict).value;
            Sized(c, t) && Along(c, t, i, h + SightOf(s.procs[i], index, verdict))
  {
    if Scripted(s.procs[i]) {
      SubScriptTells(s.procs[i].spc, index, verdict, s.codes[i], h);
    } else {
      SubStays(c, s, i, index, verdict, h);
    }
  }

  lemma SubStays(c: Config, s: State, i: nat, index: nat, verdict: ReturnCode, h: seq<Sight>)
    requires Inv(c, s) && i < |s.procs| && s.procs[i].Sub? && c.roles[i] == Subscriber
    requires SubStep(c, s, i, index, verdict).Some? && Along(c, s, i, h) && !Scripted(s.procs[i])
    ensures var t := SubStep(c, s, i, index, verdict).value;
            Sized(c, t) && Along(c, t, i, h + SightOf(s.procs[i], index, verdict))
  {
    assert h + [] == h;
  }

  lemma WritesMore(saves: bool, h: seq<Sight>, x: Sight, code: ReturnCode)
    requires Writes(saves, h) && (|h| >= 3 ==> saves)
    ensures x == Saw(PubGoal(|h|)) ==> Writes(saves, h + [x])
    ensures PublisherLast(saves, |h|, x, code) ==> PublisherTold(saves, h + [x], code)
  {
    OneMoreSight(h, x);
  }

  /** The same for a publisher; only the first sample writes a code and leads on. */
  predicate PubSays(pc: PubPc, saves: bool, r: Outcome<PubPc>, x: Sight) {
    if r.pc == PubPoll then
      && PublisherLast(saves, PubDepth(pc), x, if r.code.Some? then r.code.value else Ok)
      && (r.code.None? ==> pc.PubSample?)
    else
      && x == Saw(PubGoal(PubDepth(pc))) && PubDepth(r.pc) == PubDepth(pc) + 1
      && Scripted(Pub(r.pc, false)) && (r.pc.PubFirstSample? ==> saves)
      && (r.pc.PubSample? ==> r.pc.saved < MAX_SAMPLES_SAVED)
      && r.code == if pc.PubFirstSample? then Some(Ok) else None
  }

  lemma PubScriptSays(pc: PubPc, saves: bool, index: nat)
    requires PubScript(pc, saves, index).Some? && (pc.PubSample? ==> pc.saved < MAX_SAMPLES_SAVED)
    ensures |SightOf(Pub(pc, false), index, Ok)| == 1
    ensures PubSays(pc, saves, PubScript(pc, saves, index).value, SightOf(Pub(pc, false), index, Ok)[0])
  {}

  lemma PubSaysTells(pc: PubPc, saves: bool, r: Outcome<PubPc>, x: Sight, code: Option<ReturnCode>, h: seq<Sight>)
    requires PubSays(pc, saves, r, x) && Scripted(Pub(pc, false)) && PubAlong(pc, saves, code, h)
    ensures PubAlong(r.pc, saves, if r.code.Some? then r.code else code, h + [x])
  {
    if r.pc == PubPoll {
      WritesMore(saves, h, x, if r.code.Some? then r.code.value else Ok);
    } else {
      WritesMore(saves, h, x, Ok);
    }
  }

  /** A scripted step of a publisher keeps its story. */
  lemma PubScriptTells(pc: PubPc, saves: bool, index: nat, code: Option<ReturnCode>, h: seq<Sight>)
    requires PubScript(pc, saves, index).Some? && PubAlong(pc, saves, code, h)
    ensures var r, seen := PubScript(pc, saves, index).value, SightOf(Pub(pc, false), index, Ok);
            |seen| == 1 && PubAlong(r.pc, saves, if r.code.Some? then r.code else code, h + seen)
  {
    var r, seen := PubScript(pc, saves, index).value, SightOf(Pub(pc, false), index, Ok);
    PubScriptSays(pc, saves, index);
    PubSaysTells(pc, saves, r, seen[0], code, h);
    assert seen == [seen[0]];
  }

  lemma PubStepAlong(c: Config, s: State, i: nat, index: nat, h: seq<Sight>)
    requires Inv(c, s) && i < |s.procs| && s.procs[i].Pub? && c.roles[i] == Publisher
    requires PubStep(c, s, i, index).Some? && Along(c, s, i, h)
    ensures var t := PubStep(c, s, i, index).value;
            Sized(c, t) && Along(c, t, i, h + SightOf(s.procs[i], index, Ok))
  {
    if Scripted(s.procs[i]) {
      PubScriptTells(s.procs[i].ppc, c.saves[i], index, s.codes[i], h);
    } else {
      PubStays(c, s, i, index, h);
    }
  }

  lemma PubStays(c: Config, s: State, i: nat, index: nat, h: seq<Sight>)
    requires Inv(c, s) && i < |s.procs| && s.procs[i].Pub? && c.roles[i] == Publisher
    requires PubStep(c, s, i, index).Some? && Along(c, s, i, h) && !Scripted(s.procs[i])
    ensures var t := PubStep(c, s, i, index).value;
            Sized(c, t) && Along(c, t, i, h + SightOf(s.procs[i], index, Ok))
  {
    assert h + [] == h;
  }

  lemma StepAlong(c: Config, s: State, a: Action, i: nat, h: seq<Sight>)
    requires Inv(c, s) && Next(c, s, a).Some? && i < |c.roles| && Along(c, s, i, h)
    ensures var seen := if a.Proceed? && a.i == i then SightOf(s.procs[i], a.index, a.verdict) else [];
            Sized(c, Next(c, s, a).value) && Along(c, Next(c, s, a).value, i, h + seen)
  {
    if a.Proceed? && a.i == i {
      if s.procs[i].Pub? {
        PubStepAlong(c, s, i, a.index, h);
      } else {
        SubStepAlong(c, s, i, a.index, a.verdict, h);
      }
    } else {
      StepIsLocal(c, s, a, i);
      assert h + [] == h;
      StartsFresh(c, s, a, i);
    }
  }

  /** A process that does not move is where it was, or has just been launched. */
  lemma StartsFresh(c: Config, s: State, a: Action, i: nat)
    requires Inv(c, s) && Next(c, s, a).Some? && i < |c.roles| && !(a.Proceed? && a.i == i)
    ensures var t := Next(c, s, a).value;
            && Sized(c, t) && t.codes[i] == s.codes[i]
            && (t.procs[i] == s.procs[i]
                || (s.procs[i] == NotStarted && t.procs[i] in {Pub(PubTopic, false), Sub(SubTopic)}))
  {
    StepIsLocal(c, s, a, i);
  }

  lemma {:induction false} RunAlong(c: Config, s: State, actions: seq<Action>, i: nat, h: seq<Sight>)
    requires Inv(c, s) && RunFrom(c, s, actions).Some? && i < |c.roles| && Along(c, s, i, h)
    ensures var t := RunFrom(c, s, actions).value;
            Sized(c, t) && Along(c, t, i, h + History(c, s, actions, i))
    decreases |actions|
  {
    if actions == [] {
      assert h + [] == h;
    } else {
      var a, t := actions[0], Next(c, s, actions[0]).value;
      var seen := if a.Proceed? && a.i == i then SightOf(s.procs[i], a.index, a.verdict) else [];
      StepAlong(c, s, a, i, h);
      NextInv(c, s, a);
      RunAlong(c, t, actions[1..], i, h + seen);
      Assoc(h, seen, History(c, t, actions[1..], i));
    }
  }

  ghost predicate Told(role: Role, saves: bool, h: seq<Sight>, code: ReturnCode) {
    if role == Publisher then PublisherTold(saves, h, code) else SubscriberTold(h, code)
  }

  lemma FinishedTells(c: Config, s: State, i: nat, h: seq<Sight>)
    requires Inv(c, s) && Returned(c, s) && i < |c.roles| && Along(c, s, i, h)
    ensures s.codes[i].Some? && Told(c.roles[i], c.saves[i], h, s.codes[i].value)
  {
    assert ProcessOk(c, s, i);
  }

  /** In every finished run each code says what its process found. */
  lemma CodesSayWhatWasSeen(c: Config, actions: seq<Action>, s: State, i: nat)
    requires WellFormed(c) && RunFrom(c, Fresh(c), actions) == Some(s) && Returned(c, s) && i < |c.roles|
    ensures |s.codes| == |c.roles| && |c.saves| == |c.roles| && s.codes[i].Some?
    ensures Told(c.roles[i], c.saves[i], History(c, Fresh(c), actions, i), s.codes[i].value)
  {
    FreshInv(c);
    RunInv(c, Fresh(c), actions);
    RunAlong(c, Fresh(c), actions, i, []);
    var h := History(c, Fresh(c), actions, i);
    assert [] + h == h;
    FinishedTells(c, s, i, h);
  }

  /** What a story consists of: the steps taken and what was found last. */
  lemma LastOrBefore(h: seq<Sight>)
    requires h != []
    ensures forall x :: x in h <==> x in h[..|h| - 1] || x == h[|h| - 1]
  {
    InitAndLast(h);
  }

  lemma ReadsHold(h: seq<Sight>)
    requires Reads(h)
    ensures Saw(TopicCreated) in h <==> |h| > 0
    ensures Saw(ReaderCreated) in h <==> |h| > 1
    ensures Saw(Sample) in h <==> |h| > 2
    ensures forall x :: x in h ==> x in {Saw(TopicCreated), Saw(ReaderCreated), Saw(Sample)}
  {
    assert |h| > 0 ==> h[0] == Saw(SubGoal(0));
    assert |h| > 1 ==> h[1] == Saw(SubGoal(1));
    assert |h| > 2 ==> h[2] == Saw(SubGoal(2));
  }

  lemma WritesHold(saves: bool, h: seq<Sight>)
    requires Writes(saves, h)
    ensures Saw(TopicCreated) in h <==> |h| > 0
    ensures Saw(WriterCreated) in h <==> |h| > 1
    ensures Saw(Matched) in h <==> |h| > 2
    ensures forall x :: x in h ==> x in {Saw(TopicCreated), Saw(WriterCreated), Saw(Matched), Saw(Sample)}
  {
    assert |h| > 0 ==> h[0] == Saw(PubGoal(0));
    assert |h| > 1 ==> h[1] == Saw(PubGoal(1));
    assert |h| > 2 ==> h[2] == Saw(PubGoal(2));
  }

  /**
    Read the other way: the patterns found decide which code a subscriber has, and the check
    decides it exactly if data came.
   */
  lemma SubscriberCodesAreDecided(h: seq<Sight>, code: ReturnCode)
    requires SubscriberTold(h, code)
    ensures Saw(Sample) in h <==> h[|h| - 1] == Checked(code)
    ensures Saw(Sample) !in h ==>
              && (code == IncompatibleQos <==> Saw(RequestedIncompatible) in h)
              && (code == DeadlineMissed <==> Saw(RequestedDeadlineMissed) in h)
              && (code == SubUnsupportedFeature <==> Saw(NotSupported) in h)
              && (code == FilterNotCreated <==> Saw(FilterFailed) in h)
    ensures Saw(Sample) !in h ==>
              && (code in {TopicNotCreated, ReaderNotCreated, DataNotReceived} <==> Saw(Timeout) in h || Saw(Eof) in h)
              && (code == TopicNotCreated ==> Saw(TopicCreated) !in h)
              && (code == ReaderNotCreated ==> Saw(TopicCreated) in h && Saw(ReaderCreated) !in h)
              && (code == DataNotReceived ==> Saw(ReaderCreated) in h)
  {
    LastOrBefore(h);
    ReadsHold(h[..|h| - 1]);
  }

  /** The same for a publisher, which is content after a match, or if it saves samples, after 501 of them. */
  lemma PublisherCodesAreDecided(saves: bool, h: seq<Sight>, code: ReturnCode)
    requires PublisherTold(saves, h, code)
    ensures code == IncompatibleQos <==> Saw(OfferedIncompatible) in h
    ensures code == DeadlineMissed <==> Saw(OfferedDeadlineMissed) in h
    ensures code == PubUnsupportedFeature <==> Saw(NotSupported) in h
    ensures code == DataNotCorrect <==> Unreadable in h
    ensures code == Ok <==> if saves then |h| == 3 + 501 && h[|h| - 1] == Saw(Sample)
                            else Saw(Matched) in h
  {
    LastOrBefore(h);
    WritesHold(saves, h[..|h| - 1]);
  }

  /** Where a publisher ran out of time or output, the code says how far it had come. */
  lemma PublisherTimeoutsAreDecided(saves: bool, h: seq<Sight>, code: ReturnCode)
    requires PublisherTold(saves, h, code)
    ensures code in {TopicNotCreated, WriterNotCreated, ReaderNotMatched, DataNotSent} <==>
            Saw(Timeout) in h || Saw(Eof) in h
    ensures code == TopicNotCreated ==> Saw(TopicCreated) !in h
    ensures code == WriterNotCreated ==> Saw(TopicCreated) in h && Saw(WriterCreated) !in h
    ensures code == ReaderNotMatched ==> Saw(WriterCreated) in h && Saw(Matched) !in h
    ensures code == DataNotSent ==> saves && Saw(Matched) in h
  {
    LastOrBefore(h);
    WritesHold(saves, h[..|h| - 1]);
  }

  // ----- leaving the polling loop -----

  lemma StepPolls(c: Config, s: State, a: Action, i: nat)
    requires Inv(c, s) && Next(c, s, a).Some? && i < |c.roles|
    ensures Sized(c, Next(c, s, a).value)
    ensures var read := if a.Proceed? && a.i == i then ReadOf(s, s.procs[i], a.index) else [];
            HasEnded(Next(c, s, a).value.procs[i]) <==> HasEnded(s.procs[i]) || Eof in read
  {
    if a.Proceed? && a.i == i {
      assert ProcessOk(c, s, i);
    } else {
      StartsFresh(c, s, a, i);
    }
  }

  predicate HasEnded(p: Process) {
    p.Pub? && p.eof
  }

  lemma {:induction false} RunPolls(c: Config, s: State, actions: seq<Action>, i: nat)
    requires Inv(c, s) && RunFrom(c, s, actions).Some? && i < |c.roles|
    ensures var t := RunFrom(c, s, actions).value;
            Sized(c, t) && (HasEnded(t.procs[i]) <==> HasEnded(s.procs[i]) || Eof in Polled(c, s, actions, i))
    decreases |actions|
  {
    if actions != [] {
      StepPolls(c, s, actions[0], i);
      NextInv(c, s, actions[0]);
      RunPolls(c, Next(c, s, actions[0]).value, actions[1..], i);
    }
  }

  /**
    In every run, a publisher that is past its polling loop has found every subscriber finished,
    or has met the end of its application's output while it polled.
   */
  lemma PublishersWaitOrMeetTheEnd(c: Config, actions: seq<Action>, s: State, i: nat, j: nat)
    requires WellFormed(c) && RunFrom(c, Fresh(c), actions) == Some(s)
    requires i < |c.roles| == |s.procs| && j < |c.roles|
    ensures s.procs[i].Pub? && s.procs[i].ppc in {PubSet, PubStop, PubDone} ==>
              (c.roles[j] == Subscriber ==> Announced(s.procs[j])) || Eof in Polled(c, Fresh(c), actions, i)
  {
    FreshInv(c);
    RunPolls(c, Fresh(c), actions, i);
    assert Reachable(c, s);
    WaitsAreRespected(c, s, i, j);
  }
}
