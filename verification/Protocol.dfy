/**
  The run of one test as an interleaving of atomic steps (interoperability_report.py):
  `run_publisher_shape_main`, `run_subscriber_shape_main`, and the launch and join loops of
  `run_test`.
 */
module Protocol {
  import opened Bytes
  import opened ReturnCodes
  import opened Harness

  datatype PubPc =
    | PubTopic | PubWriter | PubMatch | PubFirstSample | PubSample(saved: nat)
    | PubPoll | PubSet | PubStop | PubDone

  datatype SubPc = SubTopic | SubReader | SubData | SubCheck | SubSet | SubWait(next: nat) | SubStop | SubDone

  /** `eof`: the publisher left its polling loop because the application had ended. */
  datatype Process = NotStarted | Pub(ppc: PubPc, eof: bool) | Sub(spc: SubPc)

  datatype Parent = Launching(next: nat) | Joining(next: nat)

  datatype State = State(
    parent: Parent,
    procs: seq<Process>,
    codes: seq<Option<ReturnCode>>,
    pubFinished: seq<bool>,
    subFinished: seq<bool>
  )

  /** One atomic step: of the parent, or of process `i`, which finds pattern `index` (a check yields `verdict`). */
  datatype Action = ParentStep | Proceed(i: nat, index: nat, verdict: ReturnCode)

  function Fresh(c: Config): State {
    State(Launching(0), seq(|c.roles|, _ => NotStarted), seq(|c.roles|, _ => None),
          seq(c.pubs, _ => false), seq(c.subs, _ => false))
  }

  // ----- the scripted phases: next program point and return code, if one is written -----

  datatype Outcome<Pc> = Outcome(pc: Pc, code: Option<ReturnCode>)

  /** `index` numbers the patterns as the source does; 5 stands for a sample line that does not parse. */
  function PubScript(pc: PubPc, saves: bool, index: nat): Option<Outcome<PubPc>> {
    match pc
    case PubTopic =>
      if index == 0 then Some(Outcome(PubWriter, None))
      else if index == 1 then Some(Outcome(PubPoll, Some(PubUnsupportedFeature)))
      else if index <= 3 then Some(Outcome(PubPoll, Some(TopicNotCreated)))
      else None
    case PubWriter =>
      if index == 0 then Some(Outcome(PubMatch, None))
      else if index == 1 then Some(Outcome(PubPoll, Some(PubUnsupportedFeature)))
      else if index <= 3 then Some(Outcome(PubPoll, Some(WriterNotCreated)))
      else None
    case PubMatch =>
      if index == 0 then Some(if saves then Outcome(PubFirstSample, None) else Outcome(PubPoll, Some(Ok)))
      else if index == 1 then Some(Outcome(PubPoll, Some(IncompatibleQos)))
      else if index == 2 then Some(Outcome(PubPoll, Some(PubUnsupportedFeature)))
      else if index <= 4 then Some(Outcome(PubPoll, Some(ReaderNotMatched)))
      else None
    case PubFirstSample =>
      if index == 0 then Some(Outcome(PubSample(0), Some(Ok)))
      else if index == 1 then Some(Outcome(PubPoll, Some(DeadlineMissed)))
      else if index == 2 then Some(Outcome(PubPoll, Some(PubUnsupportedFeature)))
      else if index <= 4 then Some(Outcome(PubPoll, Some(DataNotSent)))
      else None
    case PubSample(saved) =>
      if index == 0 then
        Some(Outcome(if saved + 1 < MAX_SAMPLES_SAVED then PubSample(saved + 1) else PubPoll, None))
      else if index == 1 then Some(Outcome(PubPoll, Some(DeadlineMissed)))
      else if index == 2 then Some(Outcome(PubPoll, Some(PubUnsupportedFeature)))
      else if index <= 4 then Some(Outcome(PubPoll, Some(DataNotSent)))
      else if index == 5 then Some(Outcome(PubPoll, Some(DataNotCorrect)))
      else None
    case _ => None
  }

  function SubScript(pc: SubPc, index: nat, verdict: ReturnCode): Option<Outcome<SubPc>> {
    match pc
    case SubTopic =>
      if index == 0 then Some(Outcome(SubReader, None))
      else if index == 1 then Some(Outcome(SubSet, Some(SubUnsupportedFeature)))
      else if index <= 3 then Some(Outcome(SubSet, Some(TopicNotCreated)))
      else None
    case SubReader =>
      if index == 0 then Some(Outcome(SubData, None))
      else if index == 1 then Some(Outcome(SubSet, Some(FilterNotCreated)))
      else if index == 2 then Some(Outcome(SubSet, Some(SubUnsupportedFeature)))
      else if index <= 4 then Some(Outcome(SubSet, Some(ReaderNotCreated)))
      else None
    case SubData =>
      if index == 0 then Some(Outcome(SubCheck, None))
      else if index == 1 then Some(Outcome(SubSet, Some(IncompatibleQos)))
      else if index == 2 then Some(Outcome(SubSet, Some(DeadlineMissed)))
      else if index == 3 then Some(Outcome(SubSet, Some(SubUnsupportedFeature)))
      else if index <= 5 then Some(Outcome(SubSet, Some(DataNotReceived)))
      else None
    case SubCheck => Some(Outcome(SubSet, Some(verdict)))
    case _ => None
  }

  // ----- steps -----

  predicate AllSet(events: seq<bool>) {
    forall k :: 0 <= k < |events| ==> events[k]
  }

  function SetCode(codes: seq<Option<ReturnCode>>, i: nat, code: Option<ReturnCode>): seq<Option<ReturnCode>>
    requires i < |codes|
  {
    if code.Some? then codes[i := code] else codes
  }

  predicate Scripted(p: Process) {
    match p
    case NotStarted => false
    case Pub(pc, _) => pc.PubTopic? || pc.PubWriter? || pc.PubMatch? || pc.PubFirstSample? || pc.PubSample?
    case Sub(pc) => pc.SubTopic? || pc.SubReader? || pc.SubData? || pc.SubCheck?
  }

  predicate Finished(p: Process) {
    p == Sub(SubDone) || (p.Pub? && p.ppc == PubDone)
  }

  predicate Sized(c: Config, s: State) {
    && |c.number| == |c.saves| == |c.roles| == |s.procs| == |s.codes|
    && |s.pubFinished| == c.pubs && |s.subFinished| == c.subs
    && forall i :: 0 <= i < |c.roles| ==> c.number[i] < Events(c, c.roles[i])
  }

  /** The step of publisher `i`; `None` where it cannot take one. */
  function PubStep(c: Config, s: State, i: nat, index: nat): Option<State>
    requires Sized(c, s) && i < |s.procs| && s.procs[i].Pub? && c.roles[i] == Publisher
  {
    var eof := s.procs[i].eof;
    match s.procs[i].ppc
    case PubPoll =>
      // checks the events; otherwise reads output (index 0), times out (1) or meets the end (2)
      if AllSet(s.subFinished) then Some(s.(procs := s.procs[i := Pub(PubSet, eof)]))
      else if index == 2 then Some(s.(procs := s.procs[i := Pub(PubSet, true)]))
      else Some(s)
    case PubSet =>
      Some(s.(procs := s.procs[i := Pub(PubStop, eof)], pubFinished := s.pubFinished[c.number[i] := true]))
    case PubStop => Some(s.(procs := s.procs[i := Pub(PubDone, eof)]))
    case PubDone => None
    case pc =>
      var r := PubScript(pc, c.saves[i], index);
      if r.None? then None
      else Some(s.(procs := s.procs[i := Pub(r.value.pc, eof)], codes := SetCode(s.codes, i, r.value.code)))
  }

  function SubStep(c: Config, s: State, i: nat, index: nat, verdict: ReturnCode): Option<State>
    requires Sized(c, s) && i < |s.procs| && s.procs[i].Sub? && c.roles[i] == Subscriber
  {
    match s.procs[i].spc
    case SubSet =>
      Some(s.(procs := s.procs[i := Sub(SubWait(0))], subFinished := s.subFinished[c.number[i] := true]))
    case SubWait(k) =>
      if k >= |s.pubFinished| then Some(s.(procs := s.procs[i := Sub(SubStop)]))
      else if s.pubFinished[k] then Some(s.(procs := s.procs[i := Sub(SubWait(k + 1))]))
      else None
    case SubStop => Some(s.(procs := s.procs[i := Sub(SubDone)]))
    case SubDone => None
    case pc =>
      var r := SubScript(pc, index, verdict);
      if r.None? then None
      else Some(s.(procs := s.procs[i := Sub(r.value.pc)], codes := SetCode(s.codes, i, r.value.code)))
  }

  function ParentNext(c: Config, s: State): Option<State>
    requires Sized(c, s)
  {
    match s.parent
    case Launching(i) =>
      if i >= |c.roles| then Some(s.(parent := Joining(0)))
      else Some(s.(parent := Launching(i + 1),
                   procs := s.procs[i := if c.roles[i] == Publisher then Pub(PubTopic, false) else Sub(SubTopic)]))
    case Joining(i) =>
      if i < |c.roles| && Finished(s.procs[i]) then Some(s.(parent := Joining(i + 1))) else None
  }

  function Next(c: Config, s: State, a: Action): Option<State>
    requires Sized(c, s)
  {
    match a
    case ParentStep => ParentNext(c, s)
    case Proceed(i, index, verdict) =>
      if i >= |s.procs| then None
      else if s.procs[i].Pub? && c.roles[i] == Publisher then PubStep(c, s, i, index)
      else if s.procs[i].Sub? && c.roles[i] == Subscriber then SubStep(c, s, i, index, verdict)
      else None
  }

  /** The codes a publisher driver can produce. */
  predicate PublisherCode(code: ReturnCode) {
    code in {Ok, TopicNotCreated, WriterNotCreated, ReaderNotMatched, IncompatibleQos,
             DeadlineMissed, DataNotSent, DataNotCorrect, PubUnsupportedFeature}
  }

  // ----- the invariant -----

  /** The point a process has reached agrees with its event, its return code and what it has waited for. */
  ghost predicate ProcessOk(c: Config, s: State, i: nat)
    requires Sized(c, s) && i < |c.roles|
  {
    && (!Scripted(s.procs[i]) && s.procs[i] != NotStarted ==> s.codes[i].Some?)
    && (s.procs[i] == NotStarted ==> s.codes[i].None?)
    && (c.roles[i] == Publisher && s.codes[i].Some? ==> PublisherCode(s.codes[i].value))
    && match s.procs[i]
       case NotStarted => !(if c.roles[i] == Publisher then s.pubFinished else s.subFinished)[c.number[i]]
       case Pub(pc, eof) =>
         && c.roles[i] == Publisher
         && (s.pubFinished[c.number[i]] <==> pc == PubStop || pc == PubDone)
         && (pc.PubSample? ==> pc.saved < MAX_SAMPLES_SAVED && s.codes[i] == Some(Ok))
         && ((pc == PubSet || pc == PubStop || pc == PubDone) && !eof ==> AllSet(s.subFinished))
       case Sub(pc) =>
         && c.roles[i] == Subscriber
         && (s.subFinished[c.number[i]] <==> pc.SubWait? || pc == SubStop || pc == SubDone)
         && (pc.SubWait? ==> pc.next <= c.pubs && forall k :: 0 <= k < pc.next ==> s.pubFinished[k])
         && (pc == SubStop || pc == SubDone ==> AllSet(s.pubFinished))
  }

  ghost predicate ParentOk(c: Config, s: State)
    requires Sized(c, s)
  {
    match s.parent
    case Launching(n) => n <= |c.roles| && forall i :: 0 <= i < |c.roles| ==> (s.procs[i] == NotStarted <==> n <= i)
    case Joining(n) =>
      && n <= |c.roles|
      && (forall i :: 0 <= i < |c.roles| ==> s.procs[i] != NotStarted)
      && forall i :: 0 <= i < n ==> Finished(s.procs[i])
  }

  ghost predicate Inv(c: Config, s: State) {
    && WellFormed(c) && Sized(c, s) && ParentOk(c, s)
    && forall i :: 0 <= i < |c.roles| ==> ProcessOk(c, s, i)
  }

  lemma FreshInv(c: Config)
    requires WellFormed(c)
    ensures Inv(c, Fresh(c))
  {}

  /** Events are only ever set, so a process that did not move stays as it was. */
  lemma OtherProcessOk(c: Config, s: State, t: State, j: nat)
    requires Sized(c, s) && Sized(c, t) && j < |c.roles| && ProcessOk(c, s, j)
    requires t.procs[j] == s.procs[j] && t.codes[j] == s.codes[j]
    requires forall k :: 0 <= k < c.pubs && s.pubFinished[k] ==> t.pubFinished[k]
    requires forall k :: 0 <= k < c.subs && s.subFinished[k] ==> t.subFinished[k]
    requires c.roles[j] == Publisher ==> t.pubFinished[c.number[j]] == s.pubFinished[c.number[j]]
    requires c.roles[j] == Subscriber ==> t.subFinished[c.number[j]] == s.subFinished[c.number[j]]
    ensures ProcessOk(c, t, j)
  {}

  /** From `s` to `t` only process `i` moved; it wrote no code but its own and set no event but its own. */
  ghost predicate MovesOnly(c: Config, s: State, t: State, i: nat)
    requires Sized(c, s) && i < |c.roles|
  {
    && t.parent == s.parent
    && |t.procs| == |s.procs| && t.procs == s.procs[i := t.procs[i]]
    && |t.codes| == |s.codes| && t.codes == s.codes[i := t.codes[i]]
    && (t.pubFinished == s.pubFinished
        || (c.roles[i] == Publisher && t.pubFinished == s.pubFinished[c.number[i] := true]))
    && (t.subFinished == s.subFinished
        || (c.roles[i] == Subscriber && t.subFinished == s.subFinished[c.number[i] := true]))
    && s.procs[i] != NotStarted && t.procs[i] != NotStarted && !Finished(s.procs[i])
  }

  /** If the process that moved is where its event and its code say, all of them are. */
  lemma MovesKeepInv(c: Config, s: State, t: State, i: nat)
    requires Inv(c, s) && i < |c.roles| && MovesOnly(c, s, t, i) && ProcessOk(c, t, i)
    ensures Inv(c, t)
  {
    forall j | 0 <= j < |c.roles| ensures ProcessOk(c, t, j) {
      if j != i {
        assert ProcessOk(c, s, j);
        assert c.roles[j] == c.roles[i] ==> c.number[j] != c.number[i];
        OtherProcessOk(c, s, t, j);
      }
    }
  }

  lemma PubStepMoves(c: Config, s: State, i: nat, index: nat)
    requires Inv(c, s) && i < |s.procs| && s.procs[i].Pub? && c.roles[i] == Publisher && PubStep(c, s, i, index).Some?
    ensures MovesOnly(c, s, PubStep(c, s, i, index).value, i)
  {}

  lemma PubStepOwn(c: Config, s: State, i: nat, index: nat)
    requires Inv(c, s) && i < |s.procs| && s.procs[i].Pub? && c.roles[i] == Publisher && PubStep(c, s, i, index).Some?
    ensures Sized(c, PubStep(c, s, i, index).value) && ProcessOk(c, PubStep(c, s, i, index).value, i)
  {
    assert ProcessOk(c, s, i);
  }

  lemma PubStepInv(c: Config, s: State, i: nat, index: nat)
    requires Inv(c, s) && i < |s.procs| && s.procs[i].Pub? && c.roles[i] == Publisher && PubStep(c, s, i, index).Some?
    ensures Inv(c, PubStep(c, s, i, index).value)
  {
    PubStepMoves(c, s, i, index);
    PubStepOwn(c, s, i, index);
    MovesKeepInv(c, s, PubStep(c, s, i, index).value, i);
  }

  lemma SubStepMoves(c: Config, s: State, i: nat, index: nat, verdict: ReturnCode)
    requires Inv(c, s) && i < |s.procs| && s.procs[i].Sub? && c.roles[i] == Subscriber
    requires SubStep(c, s, i, index, verdict).Some?
    ensures MovesOnly(c, s, SubStep(c, s, i, index, verdict).value, i)
  {}

  lemma SubStepOwn(c: Config, s: State, i: nat, index: nat, verdict: ReturnCode)
    requires Inv(c, s) && i < |s.procs| && s.procs[i].Sub? && c.roles[i] == Subscriber
    requires SubStep(c, s, i, index, verdict).Some?
    ensures var t := SubStep(c, s, i, index, verdict).value; Sized(c, t) && ProcessOk(c, t, i)
  {
    assert ProcessOk(c, s, i);
  }

  lemma SubStepInv(c: Config, s: State, i: nat, index: nat, verdict: ReturnCode)
    requires Inv(c, s) && i < |s.procs| && s.procs[i].Sub? && c.roles[i] == Subscriber
    requires SubStep(c, s, i, index, verdict).Some?
    ensures Inv(c, SubStep(c, s, i, index, verdict).value)
  {
    SubStepMoves(c, s, i, index, verdict);
    SubStepOwn(c, s, i, index, verdict);
    MovesKeepInv(c, s, SubStep(c, s, i, index, verdict).value, i);
  }

  lemma ParentStepInv(c: Config, s: State)
    requires Inv(c, s) && ParentNext(c, s).Some?
    ensures Inv(c, ParentNext(c, s).value)
  {
    var t := ParentNext(c, s).value;
    forall j | 0 <= j < |c.roles| ensures ProcessOk(c, t, j) {
      assert ProcessOk(c, s, j);
    }
  }

  lemma NextInv(c: Config, s: State, a: Action)
    requires Inv(c, s) && Next(c, s, a).Some?
    ensures Inv(c, Next(c, s, a).value)
  {
    match a {
      case ParentStep => ParentStepInv(c, s);
      case Proceed(i, index, verdict) =>
        if s.procs[i].Pub? {
          PubStepInv(c, s, i, index);
        } else {
          SubStepInv(c, s, i, index, verdict);
        }
    }
  }

  // ----- runs -----

  function RunFrom(c: Config, s: State, actions: seq<Action>): Option<State>
    decreases |actions|
  {
    if actions == [] then Some(s)
    else if !Sized(c, s) || Next(c, s, actions[0]).None? then None
    else RunFrom(c, Next(c, s, actions[0]).value, actions[1..])
  }

  ghost predicate Reachable(c: Config, s: State) {
    exists actions :: RunFrom(c, Fresh(c), actions) == Some(s)
  }

  lemma {:induction false} RunInv(c: Config, s: State, actions: seq<Action>)
    requires Inv(c, s) && RunFrom(c, s, actions).Some?
    ensures Inv(c, RunFrom(c, s, actions).value)
    decreases |actions|
  {
    if actions != [] {
      NextInv(c, s, actions[0]);
      RunInv(c, Next(c, s, actions[0]).value, actions[1..]);
    }
  }

  lemma ReachableInv(c: Config, s: State)
    requires WellFormed(c) && Reachable(c, s)
    ensures Inv(c, s)
  {
    var actions :| RunFrom(c, Fresh(c), actions) == Some(s);
    FreshInv(c);
    RunInv(c, Fresh(c), actions);
  }

  predicate Announced(p: Process) {
    match p
    case NotStarted => false
    case Pub(pc, _) => pc == PubStop || pc == PubDone
    case Sub(pc) => pc.SubWait? || pc == SubStop || pc == SubDone
  }

  /** An event is set exactly when its one owner has set it, so "all set" means all of them have. */
  lemma AllSetMeansAllAnnounced(c: Config, s: State, role: Role)
    requires Inv(c, s)
    ensures AllSet(if role == Publisher then s.pubFinished else s.subFinished) <==>
            forall i :: 0 <= i < |c.roles| && c.roles[i] == role ==> Announced(s.procs[i])
  {
    var events := if role == Publisher then s.pubFinished else s.subFinished;
    forall i | 0 <= i < |c.roles| && c.roles[i] == role ensures events[c.number[i]] <==> Announced(s.procs[i]) {
      assert ProcessOk(c, s, i);
    }
    if forall i :: 0 <= i < |c.roles| && c.roles[i] == role ==> Announced(s.procs[i]) {
      forall k | 0 <= k < |events| ensures events[k] {
        assert HasOwner(c, role, k);
        var i :| Owns(c, i, role, k);
      }
    }
  }

  /** In every reachable state: what it takes for a process to get past its wait. */
  lemma WaitsAreRespected(c: Config, s: State, i: nat, j: nat)
    requires WellFormed(c) && Reachable(c, s) && i < |s.procs| && j < |s.procs| && |c.roles| == |s.procs|
    ensures s.procs[i] in {Sub(SubStop), Sub(SubDone)} ==> c.roles[j] == Publisher ==> Announced(s.procs[j])
    ensures s.procs[i].Pub? && !s.procs[i].eof && s.procs[i].ppc in {PubSet, PubStop, PubDone} ==>
              c.roles[j] == Subscriber ==> Announced(s.procs[j])
  {
    ReachableInv(c, s);
    assert ProcessOk(c, s, i);
    AllSetMeansAllAnnounced(c, s, Publisher);
    AllSetMeansAllAnnounced(c, s, Subscriber);
  }

  /** A step of process `i` writes no return code and moves no process but its own. */
  lemma StepIsLocal(c: Config, s: State, a: Action, j: nat)
    requires Sized(c, s) && Next(c, s, a).Some? && j < |s.procs|
    ensures Sized(c, Next(c, s, a).value)
    ensures Next(c, s, a).value.codes[j] != s.codes[j] ==> a.Proceed? && a.i == j
    ensures Next(c, s, a).value.procs[j] != s.procs[j] ==> (a.Proceed? && a.i == j) || s.parent == Launching(j)
  {}

  // ----- no deadlock, and only finitely many steps that change anything -----

  predicate Returned(c: Config, s: State) {
    s.parent == Joining(|c.roles|)
  }

  function ProcessRank(c: Config, p: Process): nat {
    match p
    case NotStarted => MAX_SAMPLES_SAVED + c.pubs + 20
    case Pub(pc, _) =>
      (match pc
       case PubTopic => MAX_SAMPLES_SAVED + 9
       case PubWriter => MAX_SAMPLES_SAVED + 8
       case PubMatch => MAX_SAMPLES_SAVED + 7
       case PubFirstSample => MAX_SAMPLES_SAVED + 6
       case PubSample(saved) => 5 + if saved < MAX_SAMPLES_SAVED then MAX_SAMPLES_SAVED - saved else 0
       case PubPoll => 4
       case PubSet => 3
       case PubStop => 2
       case PubDone => 0)
    case Sub(pc) =>
      (match pc
       case SubTopic => c.pubs + 9
       case SubReader => c.pubs + 8
       case SubData => c.pubs + 7
       case SubCheck => c.pubs + 6
       case SubSet => c.pubs + 5
       case SubWait(k) => 2 + if k <= c.pubs then c.pubs - k else 0
       case SubStop => 1
       case SubDone => 0)
  }

  function TotalRank(c: Config, procs: seq<Process>): nat {
    if procs == [] then 0 else TotalRank(c, procs[..|procs| - 1]) + ProcessRank(c, procs[|procs| - 1])
  }

  function Rank(c: Config, s: State): nat {
    TotalRank(c, s.procs) +
    match s.parent
    case Launching(i) => |c.roles| + 1 + if i <= |c.roles| then |c.roles| - i else 0
    case Joining(i) => if i <= |c.roles| then |c.roles| - i else 0
  }

  lemma {:induction false} RankOfUpdate(c: Config, procs: seq<Process>, i: nat, p: Process)
    requires i < |procs|
    ensures TotalRank(c, procs[i := p]) == TotalRank(c, procs) - ProcessRank(c, procs[i]) + ProcessRank(c, p)
  {
    var n := |procs| - 1;
    if i < n {
      RankOfUpdate(c, procs[..n], i, p);
      assert procs[i := p][..n] == procs[..n][i := p];
    } else {
      assert procs[i := p][..n] == procs[..n];
    }
  }

  lemma PubStepDescends(c: Config, s: State, i: nat, index: nat)
    requires Sized(c, s) && i < |s.procs| && s.procs[i].Pub? && c.roles[i] == Publisher && PubStep(c, s, i, index).Some?
    requires s.procs[i].ppc.PubSample? ==> s.procs[i].ppc.saved < MAX_SAMPLES_SAVED
    ensures var t := PubStep(c, s, i, index).value;
            t == s || (t.parent == s.parent && t.procs == s.procs[i := t.procs[i]]
                       && ProcessRank(c, t.procs[i]) < ProcessRank(c, s.procs[i]))
  {}

  lemma SubStepDescends(c: Config, s: State, i: nat, index: nat, verdict: ReturnCode)
    requires Sized(c, s) && i < |s.procs| && s.procs[i].Sub? && c.roles[i] == Subscriber
    requires SubStep(c, s, i, index, verdict).Some?
    ensures var t := SubStep(c, s, i, index, verdict).value;
            t.parent == s.parent && t.procs == s.procs[i := t.procs[i]]
            && ProcessRank(c, t.procs[i]) < ProcessRank(c, s.procs[i])
  {}

  /** Every step either changes nothing (a publisher draining output) or brings the end nearer. */
  lemma StepsStutterOrDescend(c: Config, s: State, a: Action)
    requires Inv(c, s) && Next(c, s, a).Some?
    ensures Next(c, s, a).value == s || Rank(c, Next(c, s, a).value) < Rank(c, s)
  {
    var t := Next(c, s, a).value;
    match a {
      case Proceed(i, index, verdict) =>
        assert ProcessOk(c, s, i);
        if s.procs[i].Pub? {
          PubStepDescends(c, s, i, index);
        } else {
          SubStepDescends(c, s, i, index, verdict);
        }
        RankOfUpdate(c, s.procs, i, t.procs[i]);
      case ParentStep =>
        if s.parent.Launching? && s.parent.next < |c.roles| {
          RankOfUpdate(c, s.procs, s.parent.next, t.procs[s.parent.next]);
        }
    }
  }

  /** Program points from which the next step never waits. */
  predicate CanMove(p: Process) {
    p in {Sub(SubSet), Sub(SubStop)} || (p.Pub? && p.ppc in {PubSet, PubStop})
  }

  /** A process in a scripted phase, or past its waits, can go on. */
  lemma MoversMove(c: Config, s: State, i: nat)
    requires Inv(c, s) && i < |s.procs| && (Scripted(s.procs[i]) || CanMove(s.procs[i]))
    ensures Next(c, s, Proceed(i, 1, Ok)).Some? && Next(c, s, Proceed(i, 1, Ok)).value != s
  {
    assert ProcessOk(c, s, i);
    var t := Next(c, s, Proceed(i, 1, Ok)).value;
    assert t.procs[i] != s.procs[i];
  }

  /** When no process can simply go on, one whose wait is over can. */
  lemma WaitersMove(c: Config, s: State, n: nat) returns (i: nat)
    requires Inv(c, s) && s.parent == Joining(n) && n < |s.procs| && !Finished(s.procs[n])
    requires forall k :: 0 <= k < |s.procs| ==> !Scripted(s.procs[k]) && !CanMove(s.procs[k])
    ensures i < |s.procs| && Next(c, s, Proceed(i, 1, Ok)).Some? && Next(c, s, Proceed(i, 1, Ok)).value != s
  {
    forall k | 0 <= k < |c.roles| ensures c.roles[k] == Subscriber ==> Announced(s.procs[k]) {
      assert ProcessOk(c, s, k);
    }
    AllSetMeansAllAnnounced(c, s, Subscriber);
    if p :| 0 <= p < |s.procs| && s.procs[p].Pub? && s.procs[p].ppc == PubPoll {
      i := p;
    } else {
      forall k | 0 <= k < |c.roles| ensures c.roles[k] == Publisher ==> Announced(s.procs[k]) {
        assert ProcessOk(c, s, k);
      }
      AllSetMeansAllAnnounced(c, s, Publisher);
      i := n;
    }
    assert ProcessOk(c, s, i);
    var t := Next(c, s, Proceed(i, 1, Ok)).value;
    assert t.procs[i] != s.procs[i];
  }

  /** Mutual waits never deadlock: while the parent waits, some step brings the end nearer. */
  lemma NeverStuck(c: Config, s: State) returns (a: Action)
    requires Inv(c, s) && !Returned(c, s)
    ensures Next(c, s, a).Some? && Rank(c, Next(c, s, a).value) < Rank(c, s)
  {
    if s.parent.Launching? || Finished(s.procs[s.parent.next]) {
      a := ParentStep;
    } else if i :| 0 <= i < |s.procs| && (Scripted(s.procs[i]) || CanMove(s.procs[i])) {
      a := Proceed(i, 1, Ok);
      MoversMove(c, s, i);
    } else {
      var w := WaitersMove(c, s, s.parent.next);
      a := Proceed(w, 1, Ok);
    }
    StepsStutterOrDescend(c, s, a);
  }

  /** From every reachable state the test can still be brought to its end. */
  lemma {:induction false} CanAlwaysFinish(c: Config, s: State) returns (actions: seq<Action>)
    requires Inv(c, s)
    ensures RunFrom(c, s, actions).Some? && Returned(c, RunFrom(c, s, actions).value)
    decreases Rank(c, s)
  {
    if Returned(c, s) {
      actions := [];
    } else {
      var a := NeverStuck(c, s);
      NextInv(c, s, a);
      var rest := CanAlwaysFinish(c, Next(c, s, a).value);
      actions := [a] + rest;
      assert actions[1..] == rest;
    }
  }

  function Changes(c: Config, s: State, actions: seq<Action>): nat
    requires RunFrom(c, s, actions).Some?
    decreases |actions|
  {
    if actions == [] then 0
    else
      var t := Next(c, s, actions[0]).value;
      (if t == s then 0 else 1) + Changes(c, t, actions[1..])
  }

  /** However the steps interleave, at most `Rank` of them change the state. */
  lemma {:induction false} ChangesAreBounded(c: Config, s: State, actions: seq<Action>)
    requires Inv(c, s) && RunFrom(c, s, actions).Some?
    ensures Changes(c, s, actions) + Rank(c, RunFrom(c, s, actions).value) <= Rank(c, s)
    decreases |actions|
  {
    if actions != [] {
      StepsStutterOrDescend(c, s, actions[0]);
      NextInv(c, s, actions[0]);
      ChangesAreBounded(c, Next(c, s, actions[0]).value, actions[1..]);
    }
  }

  /** When `run_test` reads the results, every slot holds a code of its own process and every event is set. */
  lemma ResultsAreComplete(c: Config, s: State)
    requires WellFormed(c) && Reachable(c, s) && Returned(c, s)
    ensures |s.codes| == |c.roles| && AllSet(s.pubFinished) && AllSet(s.subFinished)
    ensures forall i :: 0 <= i < |c.roles| ==>
              s.codes[i].Some? && (c.roles[i] == Publisher ==> PublisherCode(s.codes[i].value))
  {
    ReachableInv(c, s);
    forall i | 0 <= i < |c.roles| ensures s.codes[i].Some? && Announced(s.procs[i])
                                          && (c.roles[i] == Publisher ==> PublisherCode(s.codes[i].value))
    {
      assert ProcessOk(c, s, i);
    }
    AllSetMeansAllAnnounced(c, s, Publisher);
    AllSetMeansAllAnnounced(c, s, Subscriber);
  }
}
