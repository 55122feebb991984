/** The test protocol and the report pipeline put together. */
module EndToEnd {
  import opened Bytes
  import opened ReturnCodes
  import opened Harness
  import Protocol
  import Sights
  import Outputs
  import Results
  import RoundTrip
  import Table
  import Verdict

  /** `entity_type`: the label of each entity, numbered within its role from 1. */
  function Labels(c: Config): (labels: seq<string>)
    requires |c.number| == |c.roles|
    ensures |labels| == |c.roles|
  {
    seq(|c.roles|, i requires 0 <= i < |c.roles| => Verdict.Label(c.roles[i] == Publisher, c.number[i] + 1))
  }

  /** The shared list as the parent reads it after the joins; no slot is empty by then. */
  function Codes(slots: seq<Option<ReturnCode>>): (codes: seq<ReturnCode>)
    ensures |codes| == |slots|
  {
    seq(|slots|, i requires 0 <= i < |slots| => if slots[i].Some? then slots[i].value else Ok)
  }

  /** The number that decimal digits stand for. */
  function NumberIn(s: string): int {
    if s == "" then 0 else 10 * NumberIn(s[..|s| - 1]) + (s[|s| - 1] as int - '0' as int)
  }

  lemma {:induction false} DigitsReadBack(n: nat)
    ensures NumberIn(Verdict.Digits(n)) == n
  {
    var s := Verdict.Digits(n);
    if n < 10 {
      assert s[..|s| - 1] == "";
    } else {
      DigitsReadBack(n / 10);
      assert s[..|s| - 1] == Verdict.Digits(n / 10);
    }
  }

  /** A label names the role, and counts the entities of that role up to here. */
  lemma LabelTells(c: Config, i: nat) returns (digits: string)
    requires |c.number| == |c.roles| && i < |c.roles| && c.number[i] == Count(c.roles, c.roles[i], i)
    ensures Labels(c)[i] == (if c.roles[i] == Publisher then "Publisher_" else "Subscriber_") + digits
    ensures NumberIn(digits) == Count(c.roles, c.roles[i], i + 1)
  {
    digits := Verdict.Digits(c.number[i] + 1);
    DigitsReadBack(c.number[i] + 1);
  }

  lemma SameLabel(publisher: bool, m: nat, otherPublisher: bool, n: nat)
    requires Verdict.Label(publisher, m) == Verdict.Label(otherPublisher, n)
    ensures publisher == otherPublisher && m == n
  {
    var prefix := if publisher then "Publisher_" else "Subscriber_";
    var otherPrefix := if otherPublisher then "Publisher_" else "Subscriber_";
    assert Verdict.Label(publisher, m)[0] == prefix[0] && Verdict.Label(otherPublisher, n)[0] == otherPrefix[0];
    assert Verdict.Label(publisher, m)[|prefix|..] == Verdict.Digits(m);
    assert Verdict.Label(otherPublisher, n)[|otherPrefix|..] == Verdict.Digits(n);
    DigitsReadBack(m);
    DigitsReadBack(n);
  }

  /** No two rows of the table carry the same role label. */
  lemma LabelsAreDistinct(c: Config, i: nat, j: nat)
    requires WellFormed(c) && i < j < |c.roles|
    ensures Labels(c)[i] != Labels(c)[j]
  {
    if Labels(c)[i] == Labels(c)[j] {
      SameLabel(c.roles[i] == Publisher, c.number[i] + 1, c.roles[j] == Publisher, c.number[j] + 1);
    }
  }

  /** The slot of process `k` holds the code that says what the process found. */
  ghost predicate CodeIsTold(c: Config, actions: seq<Protocol.Action>, slots: seq<Option<ReturnCode>>, k: nat)
    requires Protocol.RunFrom(c, Protocol.Fresh(c), actions).Some?
    requires k < |slots| == |c.roles| == |c.saves|
  {
    && slots[k] == Some(Codes(slots)[k])
    && Sights.Told(c.roles[k], c.saves[k], Sights.History(c, Protocol.Fresh(c), actions, k), Codes(slots)[k])
  }

  lemma CodesAreTold(c: Config, actions: seq<Protocol.Action>, s: Protocol.State)
    requires WellFormed(c) && Protocol.RunFrom(c, Protocol.Fresh(c), actions) == Some(s) && Protocol.Returned(c, s)
    ensures |s.codes| == |c.roles| == |c.saves| && forall k :: 0 <= k < |s.codes| ==> CodeIsTold(c, actions, s.codes, k)
  {
    forall k | 0 <= k < |s.codes| ensures |s.codes| == |c.roles| == |c.saves| && CodeIsTold(c, actions, s.codes, k) {
      assert Protocol.Reachable(c, s);
      Protocol.ResultsAreComplete(c, s);
      Sights.CodesSayWhatWasSeen(c, actions, s, k);
    }
    assert Protocol.Reachable(c, s);
    Protocol.ResultsAreComplete(c, s);
  }

  lemma LabelsAreReadable(c: Config)
    requires WellFormed(c)
    ensures Verdict.AreLabels(Labels(c))
  {
    forall k | 0 <= k < |c.roles| ensures Table.Token(Labels(c)[k]) && Labels(c)[k] != "Expected Code" {
      Verdict.LabelIsReadable(c.roles[k] == Publisher, c.number[k] + 1);
    }
  }

  /**
    Whatever the interleaving and whatever the applications print: each process of a finished test
    leaves the code that says what it found, and what is loaded from a file that holds the test is
    decided by these codes and by the rows that stand in single outputs.  The tag is decided by the
    codes alone, and so is the status of a test that passed or was skipped.  A failed test is loaded
    as unsupported exactly if some output shows an unsupported code, and otherwise by a most
    frequent mismatching code, that of the codes alone if no application prints a table cell.
   */
  lemma AnyRunIsLoadedByItsCodes(c: Config, actions: seq<Protocol.Action>, s: Protocol.State,
                                 expected: seq<ReturnCode>, outputs: seq<string>,
                                 results: Results.Loaded, suites: seq<Results.TestSuite>, i: nat, j: nat)
    requires WellFormed(c) && Protocol.RunFrom(c, Protocol.Fresh(c), actions) == Some(s) && Protocol.Returned(c, s)
    requires |expected| == |outputs| == |c.roles| == |s.codes|
    requires Results.Holds(results, suites) && i < |suites| && j < |suites[i].cases|
    requires RoundTrip.Carries(suites[i].cases[j],
                               Verdict.CaseOutcome(Labels(c), expected, Codes(s.codes), outputs))
    ensures |c.saves| == |c.roles| && forall k :: 0 <= k < |s.codes| ==> CodeIsTold(c, actions, s.codes, k)
    ensures var key, codes := Results.KeyOf(suites[i].name, suites[i].cases[j]), Codes(s.codes);
            && key in results
            && Verdict.Decides(Labels(c), expected, codes, outputs, results[key].status, results[key].rich)
            && results[key].rows == (if Verdict.AllExpected(expected, codes) then []
                                     else Verdict.ResultRows(Labels(c), expected, codes) + Outputs.RowsInAll(outputs))
  {
    CodesAreTold(c, actions, s);
    LabelsAreReadable(c);
    RoundTrip.LoadedTestIsDecided(results, suites, i, j, Labels(c), expected, Codes(s.codes), outputs);
  }

  /** Outputs without '<' and without escape characters are quiet, so for them the codes decide everything. */
  lemma PlainOutputsAreQuiet(outputs: seq<string>)
    requires forall i :: 0 <= i < |outputs| ==> '<' !in outputs[i] && Table.ESC !in outputs[i]
    ensures Outputs.QuietOutputs(outputs)
  {
    forall i | 0 <= i < |outputs| ensures Outputs.NoCell(Outputs.Shown(outputs[i])) {
      Outputs.PlainOutputIsQuiet(outputs[i]);
    }
  }
}
