/** Concrete runs of the evaluator of `sensuIfStatus`
    (network-inerface-check.go, lines 182-235) on small sets of records, with
    the default ignore list "lo". */
module Scenarios {
  import opened Text
  import opened Records
  import opened Evaluator

  /** A plain interface: no bridge ports, not a bond. */
  function Plain(name: string, operstate: string, carrier: string): InterfaceStatus {
    InterfaceStatus(name, operstate, carrier, "1500", "full", "1000", "1000",
                    false, [], false, 0, true, [])
  }

  /** A bridge with the given ports. */
  function Bridge(name: string, ports: seq<BridgeInterfaces>): InterfaceStatus {
    InterfaceStatus(name, "up", "1", "1500", "", "", "1000",
                    true, ports, false, 0, true, [])
  }

  /** A bond that is up, with its slaves and its declared port count. */
  function Bond(name: string, declared: int, slaves: seq<BondInterfaces>): InterfaceStatus {
    InterfaceStatus(name, "up", "1", "1500", "", "", "1000",
                    false, [], true, declared, declared == |slaves| && |slaves| != 0, slaves)
  }

  /** One healthy interface: no findings, exit code 0. */
  lemma HealthyInterface()
    ensures Evaluate([Plain("eth0", "up", "1")], "lo") == Init
  {
  }

  /** A down interface without carrier is reported with both facts and makes
      the exit code 2. */
  lemma DownWithoutCarrier()
    ensures var v := Evaluate([Plain("eth1", "down", "0")], "lo");
      Summary(v) == Header + " eth1:down_carrier:down " && v.code == 2
  {
    var t := Down("eth1", "_carrier:down ");
    DownWithoutCarrierVerdict();
    RenderOne(t);
    DownWithoutCarrierText();
    assert Summary(Verdict([t], 2)) == Header + RenderAll([t]);
  }

  lemma DownWithoutCarrierText()
    ensures Render(Down("eth1", "_carrier:down ")) == " eth1:down_carrier:down "
  {
  }

  lemma DownWithoutCarrierVerdict()
    ensures Evaluate([Plain("eth1", "down", "0")], "lo") == Verdict([Down("eth1", "_carrier:down ")], 2)
  {
    var all := [Plain("eth1", "down", "0")];
    var ign := IgnoredIfs("lo");
    RunOne(all, ign);
    DefaultIgnoreList();
    assert !StringInSlice("eth1", ign);
    assert !CheckIfBridge(all, "eth1");
  }

  /** A bond with as many slaves as declared ports is not examined slave by
      slave: a down slave goes unreported. */
  lemma FullBondHidesDownSlave()
    ensures Evaluate([Bond("bond0", 2, [BondInterfaces("eth2", "up"), BondInterfaces("eth3", "down")])], "lo") == Init
  {
  }

  /** A bond with fewer slaves than declared ports reports each slave that is
      not up, with exit code 1. */
  lemma PartialBondReportsSlaves()
    ensures var v := Evaluate([Bond("bond0", 3, [BondInterfaces("eth2", "up"), BondInterfaces("eth3", "down")])], "lo");
      v == Verdict([BondMember("eth3", "bond0", " ")], 1)
  {
    var slaves := [BondInterfaces("eth2", "up"), BondInterfaces("eth3", "down")];
    var all := [Bond("bond0", 3, slaves)];
    var ign := IgnoredIfs("lo");
    RunOne(all, ign);
    DefaultIgnoreList();
    assert !CheckIfBridge(all, "bond0");
    assert slaves[..1] == [BondInterfaces("eth2", "up")];
    assert slaves[..1][..0] == [];
    assert BondFindings(slaves[..1], "bond0", " ", Init) == Init;
  }

  /** A bridge whose own name is nobody's port takes the default case: its
      non-forwarding port is not reported. */
  lemma BridgePortNotReportedFromBridge()
    ensures Evaluate([Bridge("br0", [BridgeInterfaces("eth4", "3"), BridgeInterfaces("eth5", "1")])], "lo") == Init
  {
    var br := Bridge("br0", [BridgeInterfaces("eth4", "3"), BridgeInterfaces("eth5", "1")]);
    assert !CheckIfBridge([br], "br0") by {
      assert br.briflist[0].name != "br0" && br.briflist[1].name != "br0";
    }
  }

  /** A port of a bridge takes the bridge case, which walks the port's own
      (empty) port list: even a down port goes unreported. */
  lemma BridgePortDownHidden()
    ensures var br := Bridge("br0", [BridgeInterfaces("eth5", "1")]);
      Evaluate([br, Plain("eth5", "down", "0")], "lo") == Init
  {
    var br := Bridge("br0", [BridgeInterfaces("eth5", "1")]);
    var all := [br, Plain("eth5", "down", "0")];
    var ign := IgnoredIfs("lo");
    RunTwo(all, ign);
    DefaultIgnoreList();
    assert !CheckIfBridge(all, "br0");
    assert CheckIfBridge(all, "eth5") by {
      assert all[0].briflist[0].name == "eth5";
    }
    assert Step(all, ign, Init, all[0]) == Init;
  }

  /** An unknown interface followed by a down one: both are reported and the
      exit code ends at 2. */
  lemma UnknownThenDown()
    ensures var v := Evaluate([Plain("eth6", "unknown", "1"), Plain("eth7", "down", "1")], "lo");
      v.code == 2 && Summary(v) == Header + " eth6:unknown  eth7:down "
  {
    UnknownThenDownVerdict();
    var ts := [Unknown("eth6"), Down("eth7", " ")];
    RenderTwo(ts[0], ts[1]);
    UnknownThenDownText();
    assert RenderAll(ts) == " eth6:unknown  eth7:down ";
    assert Summary(Verdict(ts, 2)) == Header + RenderAll(ts);
  }

  lemma UnknownThenDownText()
    ensures Render(Unknown("eth6")) + Render(Down("eth7", " ")) == " eth6:unknown  eth7:down "
  {
    assert Render(Unknown("eth6")) == " eth6:unknown ";
    assert Render(Down("eth7", " ")) == " eth7:down ";
  }

  lemma UnknownThenDownVerdict()
    ensures Evaluate([Plain("eth6", "unknown", "1"), Plain("eth7", "down", "1")], "lo")
         == Verdict([Unknown("eth6"), Down("eth7", " ")], 2)
  {
    var all := [Plain("eth6", "unknown", "1"), Plain("eth7", "down", "1")];
    var ign := IgnoredIfs("lo");
    DefaultIgnoreList();
    RunTwo(all, ign);
    assert !CheckIfBridge(all, "eth6") && !CheckIfBridge(all, "eth7");
    var v1 := Step(all, ign, Init, all[0]);
    assert v1 == Verdict([Unknown("eth6")], 1);
  }

  /** The exit code is not the maximum severity: a bond-slave finding after a
      down interface lowers the code from 2 to 1. */
  lemma LaterBondSlaveLowersCode()
    ensures var v := Evaluate([Plain("eth1", "down", "1"), Bond("bond0", 2, [BondInterfaces("eth2", "down")])], "lo");
      v == Verdict([Down("eth1", " "), BondMember("eth2", "bond0", " ")], 1)
  {
    var all := [Plain("eth1", "down", "1"), Bond("bond0", 2, [BondInterfaces("eth2", "down")])];
    var ign := IgnoredIfs("lo");
    DefaultIgnoreList();
    RunTwo(all, ign);
    var v1 := Step(all, ign, Init, all[0]);
    assert v1 == Verdict([Down("eth1", " ")], 2);
    assert !CheckIfBridge(all, "bond0");
    assert [BondInterfaces("eth2", "down")][..0] == [];
    assert BondFindings([BondInterfaces("eth2", "down")], "bond0", " ", v1)
        == Verdict([Down("eth1", " "), BondMember("eth2", "bond0", " ")], 1);
  }

  /** The bridge case adds nothing once the code is no longer 0, even for a
      bridge that is a port of another bridge and has a blocked port. */
  lemma BridgeSilencedAfterDown()
    ensures var br := Bridge("br0", [BridgeInterfaces("br1", "3")]);
      var br1 := Bridge("br1", [BridgeInterfaces("eth5", "1")]);
      Evaluate([Plain("eth1", "down", "1"), br1, br], "lo") == Verdict([Down("eth1", " ")], 2)
  {
    var br := Bridge("br0", [BridgeInterfaces("br1", "3")]);
    var br1 := Bridge("br1", [BridgeInterfaces("eth5", "1")]);
    var all := [Plain("eth1", "down", "1"), br1, br];
    var ign := IgnoredIfs("lo");
    DefaultIgnoreList();
    RunThree(all, ign);
    var v1 := Step(all, ign, Init, all[0]);
    assert v1 == Verdict([Down("eth1", " ")], 2);
    assert CheckIfBridge(all, "br1") by { assert all[2].briflist[0].name == "br1"; }
    assert [BridgeInterfaces("eth5", "1")][..0] == [];
    assert Step(all, ign, v1, all[1]) == v1;
    assert !CheckIfBridge(all, "br0");
  }

  /** The same bridges on their own: the blocked port of the inner bridge is
      reported, with exit code 2. */
  lemma NestedBridgeReported()
    ensures var br := Bridge("br0", [BridgeInterfaces("br1", "3")]);
      var br1 := Bridge("br1", [BridgeInterfaces("eth5", "1")]);
      Evaluate([br1, br], "lo") == Verdict([BridgeNonOperational("eth5", " ")], 2)
  {
    var br := Bridge("br0", [BridgeInterfaces("br1", "3")]);
    var br1 := Bridge("br1", [BridgeInterfaces("eth5", "1")]);
    var all := [br1, br];
    var ign := IgnoredIfs("lo");
    DefaultIgnoreList();
    RunTwo(all, ign);
    assert CheckIfBridge(all, "br1") by { assert all[1].briflist[0].name == "br1"; }
    assert [BridgeInterfaces("eth5", "1")][..0] == [];
    var v1 := Step(all, ign, Init, all[0]);
    assert v1 == Verdict([BridgeNonOperational("eth5", " ")], 2);
    assert !CheckIfBridge(all, "br0");
  }

  /** The ignore list is honoured: the default list silences "lo". */
  lemma LoopbackIgnoredByDefault()
    ensures Evaluate([Plain("lo", "down", "0")], "lo") == Init
  {
  }

  // ---------------------------------------------------------------------
  // Unfolding helpers
  // ---------------------------------------------------------------------

  lemma DefaultIgnoreList()
    ensures IgnoredIfs("lo") == ["lo"]
  {
    SplitNoSeparator("lo", ',');
  }

  lemma RunOne(all: seq<InterfaceStatus>, ign: seq<string>)
    requires |all| == 1
    ensures Run(all, all, ign) == Step(all, ign, Init, all[0])
  {
    assert all[..0] == [];
  }

  lemma RunTwo(all: seq<InterfaceStatus>, ign: seq<string>)
    requires |all| == 2
    ensures Run(all, all, ign) == Step(all, ign, Step(all, ign, Init, all[0]), all[1])
  {
    var one := all[..1];
    assert one[..0] == [] && one[0] == all[0];
    assert Run(all, one, ign) == Step(all, ign, Init, all[0]);
    assert all[..|all| - 1] == one;
  }

  lemma RunThree(all: seq<InterfaceStatus>, ign: seq<string>)
    requires |all| == 3
    ensures Run(all, all, ign) == Step(all, ign, Step(all, ign, Step(all, ign, Init, all[0]), all[1]), all[2])
  {
    var one := all[..1];
    var two := all[..2];
    assert one[..0] == [] && one[0] == all[0];
    assert Run(all, one, ign) == Step(all, ign, Init, all[0]);
    assert two[..1] == one && two[1] == all[1];
    assert Run(all, two, ign) == Step(all, ign, Run(all, one, ign), all[1]);
    assert all[..|all| - 1] == two;
  }

  lemma RenderOne(t: Token)
    ensures RenderAll([t]) == Render(t)
  {
    assert [t][..0] == [];
  }

  lemma RenderTwo(t: Token, u: Token)
    ensures RenderAll([t, u]) == Render(t) + Render(u)
  {
    assert [t, u][..1] == [t];
    RenderOne(t);
  }
}
