/** The status evaluator, `sensuIfStatus` and its helpers `stringInSlice` and
    `checkIfBridge` (network-inerface-check.go, lines 181-270).

    The evaluator folds over the collected records with two accumulators: the
    problem summary and the exit code.  The specification below keeps the
    summary as a list of `Token`s, each of which renders to exactly the text
    the source appends; `SensuIfStatus` builds the text itself, as the source
    does, and is proved to agree with the fold. */
module Evaluator {
  import opened Text
  import opened Records

  /** The text every summary starts with. */
  const Header: string := "Problem interfaces: "

  // ---------------------------------------------------------------------
  // Helpers
  // ---------------------------------------------------------------------

  /** `stringInSlice(a, list)`: exact membership, no prefix or pattern match. */
  function StringInSlice(a: string, list: seq<string>): (r: bool)
    ensures r <==> a in list
  {
    if |list| == 0 then false
    else list[0] == a || StringInSlice(a, list[1..])
  }

  /** The ignore list is the `-ignoreif` flag split on commas. */
  function IgnoredIfs(ignoreif: string): seq<string> {
    Split(ignoreif, ',')
  }

  /** Some port of `brifs` is called `n`. */
  function InBridgeList(brifs: seq<BridgeInterfaces>, n: string): (r: bool)
    ensures r <==> exists j :: 0 <= j < |brifs| && brifs[j].name == n
  {
    if |brifs| == 0 then false
    else brifs[0].name == n || InBridgeList(brifs[1..], n)
  }

  /** `checkIfBridge(n)`: a reverse lookup over every collected record's
      bridge port list, whatever that record's own flags say. */
  function CheckIfBridge(infos: seq<InterfaceStatus>, n: string): (r: bool)
    ensures r <==> exists i, j :: 0 <= i < |infos| && 0 <= j < |infos[i].briflist|
                                  && infos[i].briflist[j].name == n
  {
    if |infos| == 0 then false
    else
      var here := InBridgeList(infos[0].briflist, n);
      var later := CheckIfBridge(infos[1..], n);
      assert later ==> exists i, j :: 0 <= i < |infos| && 0 <= j < |infos[i].briflist|
                                      && infos[i].briflist[j].name == n by {
        if later {
          var i, j :| 0 <= i < |infos[1..]| && 0 <= j < |infos[1..][i].briflist|
                      && infos[1..][i].briflist[j].name == n;
          assert infos[i + 1].briflist[j].name == n;
        }
      }
      here || later
  }

  /** The annotation after a token: it records a carrier that is not "1". */
  function CarrierSuffix(carrier: string): string {
    if carrier != "1" then "_carrier:down " else " "
  }

  // ---------------------------------------------------------------------
  // The summary as a list of findings
  // ---------------------------------------------------------------------

  /** One finding appended to the summary.  `suffix` is the carrier
      annotation of the record being evaluated. */
  datatype Token =
    | BridgeNonOperational(member: string, suffix: string)
    | BondMember(member: string, bond: string, suffix: string)
    | BondProblem(bond: string, suffix: string)
    | Unknown(name: string)
    | Down(name: string, suffix: string)

  /** The exact text the source appends for a finding.  The bond-problem
      token has no leading space and the unknown token no carrier suffix. */
  function Render(t: Token): string {
    match t
    case BridgeNonOperational(m, s) => " " + m + ":" + "bridge.interface.non-operational" + s
    case BondMember(m, b, s) => " " + m + "@" + b + ":bond.interface" + s
    case BondProblem(b, s) => b + ":bond.interface.problem" + s
    case Unknown(n) => " " + n + ":" + "unknown "
    case Down(n, s) => " " + n + ":" + "down" + s
  }

  function RenderAll(ts: seq<Token>): string {
    if |ts| == 0 then "" else RenderAll(ts[..|ts| - 1]) + Render(ts[|ts| - 1])
  }

  /** The two accumulators of the evaluation loop. */
  datatype Verdict = Verdict(tokens: seq<Token>, code: int)

  const Init: Verdict := Verdict([], 0)

  /** The summary text of a verdict. */
  function Summary(v: Verdict): string {
    Header + RenderAll(v.tokens)
  }

  /** Appending a finding appends its text to the summary. */
  lemma SummaryAppend(ts: seq<Token>, t: Token, c: int, c': int)
    ensures Summary(Verdict(ts + [t], c')) == Summary(Verdict(ts, c)) + Render(t)
  {
    assert (ts + [t])[..|ts|] == ts;
  }

  // ---------------------------------------------------------------------
  // One evaluation step
  // ---------------------------------------------------------------------

  /** The loop over a bridge member's own port list (lines 197-202): a port
      that is not forwarding is reported only while the run's exit code is
      still 0, and reporting it sets the code to 2. */
  function BridgeFindings(brifs: seq<BridgeInterfaces>, suffix: string, v: Verdict): Verdict {
    if |brifs| == 0 then v
    else
      var w := BridgeFindings(brifs[..|brifs| - 1], suffix, v);
      var b := brifs[|brifs| - 1];
      if b.state != "3" && w.code == 0
      then Verdict(w.tokens + [BridgeNonOperational(b.name, suffix)], 2)
      else w
  }

  /** The loop over a bond's slaves (lines 205-210): every slave that is not
      up is reported and sets the code to exactly 1. */
  function BondFindings(bonds: seq<BondInterfaces>, bond: string, suffix: string, v: Verdict): Verdict {
    if |bonds| == 0 then v
    else
      var w := BondFindings(bonds[..|bonds| - 1], bond, suffix, v);
      var b := bonds[|bonds| - 1];
      if b.state != "up"
      then Verdict(w.tokens + [BondMember(b.name, bond, suffix)], 1)
      else w
  }

  /** One iteration of the loop of lines 187-231: the ignore list first, then
      the first matching case of bridge member, bond and operational state. */
  function Step(all: seq<InterfaceStatus>, ignored: seq<string>, v: Verdict, item: InterfaceStatus): Verdict {
    if StringInSlice(item.name, ignored) then v
    else
      var suffix := CarrierSuffix(item.carrier);
      if CheckIfBridge(all, item.name) then
        BridgeFindings(item.briflist, suffix, v)
      else if item.isbond then
        if !item.bondoperst then BondFindings(item.bondiflist, item.name, suffix, v)
        else if item.operstate != "up" then Verdict(v.tokens + [BondProblem(item.name, suffix)], 2)
        else v
      else if item.operstate == "unknown" then
        Verdict(v.tokens + [Unknown(item.name)], if v.code == 0 then 1 else v.code)
      else if item.operstate == "down" then
        Verdict(v.tokens + [Down(item.name, suffix)], 2)
      else v
  }

  /** The loop over `items`, with the bridge lookup done in `all`. */
  function Run(all: seq<InterfaceStatus>, items: seq<InterfaceStatus>, ignored: seq<string>): Verdict {
    if |items| == 0 then Init
    else Step(all, ignored, Run(all, items[..|items| - 1], ignored), items[|items| - 1])
  }

  /** The result of `sensuIfStatus` on the collected records. */
  function Evaluate(infos: seq<InterfaceStatus>, ignoreif: string): Verdict {
    Run(infos, infos, IgnoredIfs(ignoreif))
  }

  // ---------------------------------------------------------------------
  // The evaluator itself
  // ---------------------------------------------------------------------

  /** The bridge-member case of `sensuIfStatus` (lines 197-202), continuing
      from the accumulators of verdict `v`. */
  method ReportBridgePorts(brifs: seq<BridgeInterfaces>, ifCarrier: string,
                           problems: string, exitCode: int, ghost v: Verdict)
    returns (problems': string, exitCode': int)
    requires problems == Summary(v) && exitCode == v.code
    ensures problems' == Summary(BridgeFindings(brifs, ifCarrier, v))
    ensures exitCode' == BridgeFindings(brifs, ifCarrier, v).code
  {
    problems', exitCode' := problems, exitCode;
    ghost var w := v;
    for j := 0 to |brifs|
      invariant w == BridgeFindings(brifs[..j], ifCarrier, v)
      invariant problems' == Summary(w) && exitCode' == w.code
    {
      assert brifs[..j + 1][..j] == brifs[..j];
      var brif := brifs[j];
      if brif.state != "3" && exitCode' == 0 {
        problems' := problems' + (" " + brif.name + ":" + "bridge.interface.non-operational" + ifCarrier);
        exitCode' := 2;
        SummaryAppend(w.tokens, BridgeNonOperational(brif.name, ifCarrier), w.code, 2);
        w := Verdict(w.tokens + [BridgeNonOperational(brif.name, ifCarrier)], 2);
      }
    }
    assert brifs[..|brifs|] == brifs;
  }

  /** The not-fully-operational bond case of `sensuIfStatus` (lines 205-210),
      continuing from the accumulators of verdict `v`. */
  method ReportBondSlaves(bonds: seq<BondInterfaces>, bond: string, ifCarrier: string,
                          problems: string, exitCode: int, ghost v: Verdict)
    returns (problems': string, exitCode': int)
    requires problems == Summary(v) && exitCode == v.code
    ensures problems' == Summary(BondFindings(bonds, bond, ifCarrier, v))
    ensures exitCode' == BondFindings(bonds, bond, ifCarrier, v).code
  {
    problems', exitCode' := problems, exitCode;
    ghost var w := v;
    for j := 0 to |bonds|
      invariant w == BondFindings(bonds[..j], bond, ifCarrier, v)
      invariant problems' == Summary(w) && exitCode' == w.code
    {
      assert bonds[..j + 1][..j] == bonds[..j];
      var boif := bonds[j];
      if boif.state != "up" {
        problems' := problems' + (" " + boif.name + "@" + bond + ":bond.interface" + ifCarrier);
        exitCode' := 1;
        SummaryAppend(w.tokens, BondMember(boif.name, bond, ifCarrier), w.code, 1);
        w := Verdict(w.tokens + [BondMember(boif.name, bond, ifCarrier)], 1);
      }
    }
    assert bonds[..|bonds|] == bonds;
  }

  /** `sensuIfStatus`: the summary and exit code of a run. */
  method SensuIfStatus(infos: seq<InterfaceStatus>, ignoreif: string) returns (problems: string, exitCode: int)
    ensures problems == Summary(Evaluate(infos, ignoreif))
    ensures exitCode == Evaluate(infos, ignoreif).code
  {
    problems := Header;
    exitCode := 0;
    var ignored := IgnoredIfs(ignoreif);
    ghost var v := Init;
    for i := 0 to |infos|
      invariant v == Run(infos, infos[..i], ignored)
      invariant problems == Summary(v) && exitCode == v.code
    {
      assert infos[..i + 1][..i] == infos[..i];
      var item := infos[i];
      var ifCarrier := " ";
      if !StringInSlice(item.name, ignored) {
        if item.carrier != "1" {
          ifCarrier := "_carrier:down ";
        }
        if CheckIfBridge(infos, item.name) {
          problems, exitCode := ReportBridgePorts(item.briflist, ifCarrier, problems, exitCode, v);
          v := BridgeFindings(item.briflist, ifCarrier, v);
        } else if item.isbond {
          if !item.bondoperst {
            problems, exitCode := ReportBondSlaves(item.bondiflist, item.name, ifCarrier, problems, exitCode, v);
            v := BondFindings(item.bondiflist, item.name, ifCarrier, v);
          } else if item.operstate != "up" {
            problems := problems + (item.name + ":bond.interface.problem" + ifCarrier);
            exitCode := 2;
            SummaryAppend(v.tokens, BondProblem(item.name, ifCarrier), v.code, 2);
            v := Verdict(v.tokens + [BondProblem(item.name, ifCarrier)], 2);
          }
        } else if item.operstate == "unknown" {
          problems := problems + (" " + item.name + ":" + "unknown ");
          if exitCode == 0 {
            exitCode := 1;
          }
          SummaryAppend(v.tokens, Unknown(item.name), v.code, exitCode);
          v := Verdict(v.tokens + [Unknown(item.name)], exitCode);
        } else if item.operstate == "down" {
          problems := problems + (" " + item.name + ":" + "down" + ifCarrier);
          exitCode := 2;
          SummaryAppend(v.tokens, Down(item.name, ifCarrier), v.code, 2);
          v := Verdict(v.tokens + [Down(item.name, ifCarrier)], 2);
        }
      }
    }
    assert infos[..|infos|] == infos;
  }

  // ---------------------------------------------------------------------
  // What the two inner loops do
  // ---------------------------------------------------------------------

  /** `w` continues `v`: it keeps every finding of `v`, in order, and may add more. */
  predicate Extends(w: Verdict, v: Verdict) {
    |w.tokens| >= |v.tokens| && w.tokens[..|v.tokens|] == v.tokens
  }

  /** Once any problem is recorded, a bridge member reports nothing more. */
  lemma {:induction false} BridgeFindingsAfterProblem(brifs: seq<BridgeInterfaces>, s: string, v: Verdict)
    requires v.code != 0
    ensures BridgeFindings(brifs, s, v) == v
  {
    if |brifs| > 0 {
      BridgeFindingsAfterProblem(brifs[..|brifs| - 1], s, v);
    }
  }

  /** On a clean run, a bridge member whose ports all forward reports nothing. */
  lemma {:induction false} BridgeFindingsAllForwarding(brifs: seq<BridgeInterfaces>, s: string, v: Verdict)
    requires forall j :: 0 <= j < |brifs| ==> brifs[j].state == "3"
    ensures BridgeFindings(brifs, s, v) == v
  {
    if |brifs| > 0 {
      BridgeFindingsAllForwarding(brifs[..|brifs| - 1], s, v);
    }
  }

  /** On a clean run, a bridge member reports exactly its first port that is
      not forwarding, and the exit code becomes 2. */
  lemma {:induction false} BridgeFindingsFirst(brifs: seq<BridgeInterfaces>, s: string, v: Verdict, j: nat)
    requires v.code == 0
    requires j < |brifs| && brifs[j].state != "3"
    requires forall i :: 0 <= i < j ==> brifs[i].state == "3"
    ensures BridgeFindings(brifs, s, v) == Verdict(v.tokens + [BridgeNonOperational(brifs[j].name, s)], 2)
  {
    var n := |brifs|;
    if j == n - 1 {
      BridgeFindingsAllForwarding(brifs[..n - 1], s, v);
    } else {
      assert brifs[..n - 1][j] == brifs[j];
      BridgeFindingsFirst(brifs[..n - 1], s, v, j);
    }
  }

  /** A bond's slave loop keeps earlier findings, adds only slave findings,
      and leaves the code at exactly 1 as soon as one slave is not up,
      whatever the code was before. */
  lemma {:induction false} BondFindingsEffect(bonds: seq<BondInterfaces>, bond: string, s: string, v: Verdict)
    ensures Extends(BondFindings(bonds, bond, s, v), v)
    ensures forall k :: |v.tokens| <= k < |BondFindings(bonds, bond, s, v).tokens| ==>
                          BondFindings(bonds, bond, s, v).tokens[k].BondMember?
    ensures (exists j :: 0 <= j < |bonds| && bonds[j].state != "up") ==>
              BondFindings(bonds, bond, s, v).code == 1 && |BondFindings(bonds, bond, s, v).tokens| > |v.tokens|
    ensures (forall j :: 0 <= j < |bonds| ==> bonds[j].state == "up") ==> BondFindings(bonds, bond, s, v) == v
  {
    var n := |bonds|;
    if n > 0 {
      var prefix := bonds[..n - 1];
      BondFindingsEffect(prefix, bond, s, v);
      var w := BondFindings(prefix, bond, s, v);
      if bonds[n - 1].state != "up" {
        var r := BondFindings(bonds, bond, s, v);
        assert r.tokens[..|w.tokens|] == w.tokens;
        assert r.tokens[..|v.tokens|] == w.tokens[..|v.tokens|];
      } else if exists j :: 0 <= j < n && bonds[j].state != "up" {
        var j :| 0 <= j < n && bonds[j].state != "up";
        assert prefix[j] == bonds[j];
      }
    }
  }

  /** The names of the slaves that are not up, in slave order. */
  function NotUp(bonds: seq<BondInterfaces>): (names: seq<string>)
    ensures |names| <= |bonds|
  {
    if |bonds| == 0 then []
    else
      var rest := NotUp(bonds[..|bonds| - 1]);
      var b := bonds[|bonds| - 1];
      if b.state != "up" then rest + [b.name] else rest
  }

  /** The slave loop appends exactly one finding per slave that is not up,
      naming that slave and the bond, in slave order; the code becomes 1 when
      there is at least one and is kept otherwise. */
  lemma {:induction false} BondFindingsReports(bonds: seq<BondInterfaces>, bond: string, s: string, v: Verdict)
    ensures |BondFindings(bonds, bond, s, v).tokens| == |v.tokens| + |NotUp(bonds)|
    ensures BondFindings(bonds, bond, s, v).tokens[..|v.tokens|] == v.tokens
    ensures forall k :: 0 <= k < |NotUp(bonds)| ==>
              BondFindings(bonds, bond, s, v).tokens[|v.tokens| + k] == BondMember(NotUp(bonds)[k], bond, s)
    ensures BondFindings(bonds, bond, s, v).code == if |NotUp(bonds)| > 0 then 1 else v.code
  {
    var n := |bonds|;
    if n > 0 {
      BondFindingsReports(bonds[..n - 1], bond, s, v);
      var w := BondFindings(bonds[..n - 1], bond, s, v);
      var names := NotUp(bonds[..n - 1]);
      if bonds[n - 1].state != "up" {
        var r := BondFindings(bonds, bond, s, v);
        assert r.tokens == w.tokens + [BondMember(bonds[n - 1].name, bond, s)];
        assert NotUp(bonds) == names + [bonds[n - 1].name];
        assert r.tokens[..|v.tokens|] == w.tokens[..|v.tokens|];
      }
    }
  }

  // ---------------------------------------------------------------------
  // What one step does to the exit code
  // ---------------------------------------------------------------------

  /** The exit code after one record, case by case.  It is not a maximum:
      a bridge finding needs a clean run, "unknown" raises the code only from
      0, and a bond slave finding sets it to 1 even after a 2. */
  lemma StepSeverity(all: seq<InterfaceStatus>, ig: seq<string>, v: Verdict, item: InterfaceStatus)
    ensures item.name in ig ==> Step(all, ig, v, item) == v
    ensures item.name !in ig && CheckIfBridge(all, item.name) ==>
      Step(all, ig, v, item).code ==
        (if v.code == 0 && exists j :: 0 <= j < |item.briflist| && item.briflist[j].state != "3" then 2 else v.code)
    ensures item.name !in ig && !CheckIfBridge(all, item.name) && item.isbond && !item.bondoperst ==>
      Step(all, ig, v, item).code ==
        (if exists j :: 0 <= j < |item.bondiflist| && item.bondiflist[j].state != "up" then 1 else v.code)
    ensures item.name !in ig && !CheckIfBridge(all, item.name) && item.isbond && item.bondoperst ==>
      Step(all, ig, v, item).code == (if item.operstate != "up" then 2 else v.code)
    ensures item.name !in ig && !CheckIfBridge(all, item.name) && !item.isbond ==>
      Step(all, ig, v, item).code ==
        (if item.operstate == "unknown" then (if v.code == 0 then 1 else v.code)
         else if item.operstate == "down" then 2 else v.code)
  {
    var s := CarrierSuffix(item.carrier);
    if item.name !in ig && CheckIfBridge(all, item.name) {
      var brifs := item.briflist;
      if v.code != 0 {
        BridgeFindingsAfterProblem(brifs, s, v);
      } else if exists j :: 0 <= j < |brifs| && brifs[j].state != "3" {
        var j := FirstNotForwarding(brifs);
        BridgeFindingsFirst(brifs, s, v, j);
      } else {
        BridgeFindingsAllForwarding(brifs, s, v);
      }
    }
    BondFindingsEffect(item.bondiflist, item.name, s, v);
  }

  /** The position of the first port that is not forwarding. */
  lemma FirstNotForwarding(brifs: seq<BridgeInterfaces>) returns (j: nat)
    requires exists j :: 0 <= j < |brifs| && brifs[j].state != "3"
    ensures j < |brifs| && brifs[j].state != "3"
    ensures forall i :: 0 <= i < j ==> brifs[i].state == "3"
  {
    j := 0;
    while brifs[j].state == "3"
      invariant j < |brifs|
      invariant forall i :: 0 <= i < j ==> brifs[i].state == "3"
      invariant exists k :: j <= k < |brifs| && brifs[k].state != "3"
      decreases |brifs| - j
    {
      j := j + 1;
    }
  }

  /** A step keeps the findings already made. */
  lemma StepExtends(all: seq<InterfaceStatus>, ig: seq<string>, v: Verdict, item: InterfaceStatus)
    ensures Extends(Step(all, ig, v, item), v)
  {
    var s := CarrierSuffix(item.carrier);
    var brifs := item.briflist;
    if v.code != 0 {
      BridgeFindingsAfterProblem(brifs, s, v);
    } else if exists j :: 0 <= j < |brifs| && brifs[j].state != "3" {
      var j := FirstNotForwarding(brifs);
      BridgeFindingsFirst(brifs, s, v, j);
    } else {
      BridgeFindingsAllForwarding(brifs, s, v);
    }
    BondFindingsEffect(item.bondiflist, item.name, s, v);
  }

  // ---------------------------------------------------------------------
  // Properties of a whole run
  // ---------------------------------------------------------------------

  /** The accumulators' invariant: the code is 0, 1 or 2; it is 0 exactly
      while nothing has been reported; and a bridge finding can only be the
      very first finding. */
  predicate Consistent(v: Verdict) {
    && 0 <= v.code <= 2
    && (v.code == 0 <==> |v.tokens| == 0)
    && (forall k :: 0 < k < |v.tokens| ==> !v.tokens[k].BridgeNonOperational?)
  }

  lemma StepConsistent(all: seq<InterfaceStatus>, ig: seq<string>, v: Verdict, item: InterfaceStatus)
    requires Consistent(v)
    ensures Consistent(Step(all, ig, v, item))
  {
    var s := CarrierSuffix(item.carrier);
    var brifs := item.briflist;
    if v.code != 0 {
      BridgeFindingsAfterProblem(brifs, s, v);
    } else if exists j :: 0 <= j < |brifs| && brifs[j].state != "3" {
      var j := FirstNotForwarding(brifs);
      BridgeFindingsFirst(brifs, s, v, j);
    } else {
      BridgeFindingsAllForwarding(brifs, s, v);
    }
    BondFindingsEffect(item.bondiflist, item.name, s, v);
    var w := BondFindings(item.bondiflist, item.name, s, v);
    if w != v {
      assert exists j :: 0 <= j < |item.bondiflist| && item.bondiflist[j].state != "up";
      assert forall k :: 0 < k < |w.tokens| ==> !w.tokens[k].BridgeNonOperational? by {
        forall k | 0 < k < |w.tokens| ensures !w.tokens[k].BridgeNonOperational? {
          if k < |v.tokens| { assert w.tokens[k] == v.tokens[k]; }
        }
      }
    }
  }

  lemma {:induction false} RunConsistent(all: seq<InterfaceStatus>, items: seq<InterfaceStatus>, ig: seq<string>)
    ensures Consistent(Run(all, items, ig))
  {
    if |items| > 0 {
      RunConsistent(all, items[..|items| - 1], ig);
      StepConsistent(all, ig, Run(all, items[..|items| - 1], ig), items[|items| - 1]);
    }
  }

  /** Every finding adds text to the summary. */
  lemma RenderAllEmpty(ts: seq<Token>)
    ensures RenderAll(ts) == "" <==> |ts| == 0
  {
    if |ts| > 0 {
      var t := ts[|ts| - 1];
      assert |Render(t)| > 0 by {
        match t
        case BondProblem(b, s) => assert |":bond.interface.problem"| > 0;
        case _ =>
      }
    }
  }

  /** The outcome of `sensuIfStatus`: the exit code is 0, 1 or 2; it is 0
      exactly when the summary is still the bare header; and at most one
      bridge finding is reported, only as the first finding of the run. */
  lemma EvaluateOutcome(infos: seq<InterfaceStatus>, ignoreif: string)
    ensures 0 <= Evaluate(infos, ignoreif).code <= 2
    ensures Evaluate(infos, ignoreif).code == 0 <==> Summary(Evaluate(infos, ignoreif)) == Header
    ensures forall k :: 0 <= k < |Evaluate(infos, ignoreif).tokens| ==>
                          (Evaluate(infos, ignoreif).tokens[k].BridgeNonOperational? ==> k == 0)
  {
    var v := Evaluate(infos, ignoreif);
    RunConsistent(infos, infos, IgnoredIfs(ignoreif));
    RenderAllEmpty(v.tokens);
    assert Summary(v) == Header <==> RenderAll(v.tokens) == "" by {
      assert Summary(v)[..|Header|] == Header;
      if Summary(v) == Header { assert |RenderAll(v.tokens)| == 0; }
    }
  }

  /** A record that leaves a clean run clean. */
  predicate Quiet(all: seq<InterfaceStatus>, ig: seq<string>, item: InterfaceStatus) {
    || item.name in ig
    || (CheckIfBridge(all, item.name)
        && forall j :: 0 <= j < |item.briflist| ==> item.briflist[j].state == "3")
    || (!CheckIfBridge(all, item.name) && item.isbond && item.bondoperst && item.operstate == "up")
    || (!CheckIfBridge(all, item.name) && item.isbond && !item.bondoperst
        && forall j :: 0 <= j < |item.bondiflist| ==> item.bondiflist[j].state == "up")
    || (!CheckIfBridge(all, item.name) && !item.isbond
        && item.operstate != "unknown" && item.operstate != "down")
  }

  lemma StepQuiet(all: seq<InterfaceStatus>, ig: seq<string>, item: InterfaceStatus)
    ensures Step(all, ig, Init, item) == Init <==> Quiet(all, ig, item)
  {
    var s := CarrierSuffix(item.carrier);
    var brifs := item.briflist;
    if exists j :: 0 <= j < |brifs| && brifs[j].state != "3" {
      var j := FirstNotForwarding(brifs);
      BridgeFindingsFirst(brifs, s, Init, j);
    } else {
      BridgeFindingsAllForwarding(brifs, s, Init);
    }
    BondFindingsEffect(item.bondiflist, item.name, s, Init);
  }

  /** The run reports no problem at all exactly when every record is quiet:
      ignored, a bridge member whose own ports all forward, a bond that is
      up and fully operational, a bond whose slaves are all up, or a plain
      interface whose state is neither "unknown" nor "down". */
  lemma {:induction false} RunCleanIff(all: seq<InterfaceStatus>, items: seq<InterfaceStatus>, ig: seq<string>)
    ensures Run(all, items, ig) == Init <==> forall k :: 0 <= k < |items| ==> Quiet(all, ig, items[k])
  {
    if |items| > 0 {
      var n := |items|;
      var prefix := items[..n - 1];
      RunCleanIff(all, prefix, ig);
      var v := Run(all, prefix, ig);
      StepQuiet(all, ig, items[n - 1]);
      StepExtends(all, ig, v, items[n - 1]);
      RunConsistent(all, prefix, ig);
      if Run(all, items, ig) == Init {
        assert v.tokens == [];
        assert v == Init;
      }
      assert (forall k :: 0 <= k < n ==> Quiet(all, ig, items[k]))
         <==> (forall k :: 0 <= k < n - 1 ==> Quiet(all, ig, prefix[k])) && Quiet(all, ig, items[n - 1]) by {
        forall k | 0 <= k < n - 1 ensures prefix[k] == items[k] { }
      }
    }
  }

  /** The records that the ignore list does not name, in order. */
  function Unignored(items: seq<InterfaceStatus>, ig: seq<string>): (r: seq<InterfaceStatus>)
    ensures forall k :: 0 <= k < |r| ==> r[k].name !in ig && r[k] in items
    ensures forall k :: 0 <= k < |items| && items[k].name !in ig ==> items[k] in r
  {
    if |items| == 0 then []
    else
      var rest := Unignored(items[..|items| - 1], ig);
      var last := items[|items| - 1];
      if last.name in ig then rest else rest + [last]
  }

  /** Filtering a concatenation filters each part and keeps them in order, so
      the kept records appear in the order of the input. */
  lemma {:induction false} UnignoredAppend(a: seq<InterfaceStatus>, b: seq<InterfaceStatus>, ig: seq<string>)
    ensures Unignored(a + b, ig) == Unignored(a, ig) + Unignored(b, ig)
    decreases |b|
  {
    if |b| > 0 {
      var n := |b|;
      assert (a + b)[..|a + b| - 1] == a + b[..n - 1];
      assert (a + b)[|a + b| - 1] == b[n - 1];
      UnignoredAppend(a, b[..n - 1], ig);
    } else {
      assert a + b == a;
    }
  }

  /** Ignored records have no effect at all: the run gives the same verdict
      with them removed (they still count for the bridge lookup). */
  lemma {:induction false} RunSkipsIgnored(all: seq<InterfaceStatus>, items: seq<InterfaceStatus>, ig: seq<string>)
    ensures Run(all, items, ig) == Run(all, Unignored(items, ig), ig)
  {
    if |items| > 0 {
      var n := |items|;
      RunSkipsIgnored(all, items[..n - 1], ig);
      var rest := Unignored(items[..n - 1], ig);
      if items[n - 1].name !in ig {
        assert (rest + [items[n - 1]])[..|rest|] == rest;
      }
    }
  }

  /** The ignore list is matched exactly: `n` is ignored iff it is one of the
      comma-separated entries, so "eth" does not ignore "eth0". */
  lemma IgnoreListExact(names: seq<string>, n: string)
    requires |names| >= 1
    requires forall k :: 0 <= k < |names| ==> ',' !in names[k]
    ensures StringInSlice(n, IgnoredIfs(Join(names, ','))) <==> n in names
  {
    SplitJoin(names, ',');
  }

  /** Records built by the snapshot builder are bonds only when up, so the
      bond-problem finding never occurs for them. */
  lemma {:induction false} NoBondProblem(all: seq<InterfaceStatus>, items: seq<InterfaceStatus>, ig: seq<string>)
    requires forall k :: 0 <= k < |items| && items[k].isbond ==> items[k].operstate == "up"
    ensures forall k :: 0 <= k < |Run(all, items, ig).tokens| ==> !Run(all, items, ig).tokens[k].BondProblem?
  {
    if |items| > 0 {
      var n := |items|;
      var prefix := items[..n - 1];
      var item := items[n - 1];
      NoBondProblem(all, prefix, ig);
      var v := Run(all, prefix, ig);
      var w := Step(all, ig, v, item);
      StepExtends(all, ig, v, item);
      var s := CarrierSuffix(item.carrier);
      var brifs := item.briflist;
      if v.code != 0 {
        BridgeFindingsAfterProblem(brifs, s, v);
      } else if exists j :: 0 <= j < |brifs| && brifs[j].state != "3" {
        var j := FirstNotForwarding(brifs);
        BridgeFindingsFirst(brifs, s, v, j);
      } else {
        BridgeFindingsAllForwarding(brifs, s, v);
      }
      BondFindingsEffect(item.bondiflist, item.name, s, v);
      forall k | 0 <= k < |w.tokens| ensures !w.tokens[k].BondProblem? {
        if k < |v.tokens| { assert w.tokens[k] == v.tokens[k]; }
      }
    }
  }
}
