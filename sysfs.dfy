/** The snapshot builder `getIfInfo` (network-inerface-check.go, lines
    86-159), over an abstract attribute store that stands for the files and
    directories under /sys/class/net.

    Reading a file that is absent fails; the source then gets empty contents
    and an error, and only some of those errors are checked.  A directory
    present in `dirs` is one that `os.Stat` finds; its listing is what
    `ioutil.ReadDir` returns for it. */
module Sysfs {
  import opened Faults
  import opened Text
  import opened Records

  datatype Store = Store(files: map<string, string>, dirs: map<string, seq<string>>)

  /** `ioutil.ReadFile(path)`. */
  function ReadFile(st: Store, path: string): Option<string> {
    if path in st.files then Some(st.files[path]) else None
  }

  /** The bytes `ioutil.ReadFile` hands back when its error is ignored. */
  function ReadOrEmpty(st: Store, path: string): string {
    if path in st.files then st.files[path] else ""
  }

  /** `os.Stat(path)` succeeds. */
  predicate Exists(st: Store, path: string) {
    path in st.dirs
  }

  /** `ioutil.ReadDir(path)` with its error ignored. */
  function ReadDir(st: Store, path: string): seq<string> {
    if path in st.dirs then st.dirs[path] else []
  }

  // ---------------------------------------------------------------------
  // Paths the builder reads
  // ---------------------------------------------------------------------

  function BrifDir(intf: string): string { intf + "/brif/" }
  function PortStatePath(intf: string, port: string): string { intf + "/brif/" + port + "/state" }
  function BondingDir(intf: string): string { intf + "/bonding/" }
  function NumPortsPath(intf: string): string { intf + "/bonding/ad_num_ports" }
  function SlavesPath(intf: string): string { intf + "/bonding/slaves" }
  function SlaveStatePath(slave: string): string { Syspath + slave + "/operstate" }

  // ---------------------------------------------------------------------
  // Specification of the builder
  // ---------------------------------------------------------------------

  /** A bridge port's entry: its trimmed name and trimmed `state`. */
  function PortEntry(st: Store, intf: string, port: string): BridgeInterfaces
    requires PortStatePath(intf, port) in st.files
  {
    BridgeInterfaces(TrimSpace(port), TrimSpace(st.files[PortStatePath(intf, port)]))
  }

  /** A slave's entry: its name and trimmed operational state. */
  function SlaveEntry(st: Store, slave: string): BondInterfaces
    requires SlaveStatePath(slave) in st.files
  {
    BondInterfaces(slave, TrimSpace(st.files[SlaveStatePath(slave)]))
  }

  /** The bridge port list read from the `brif/` listing `ports`: each port's
      trimmed name and trimmed `state`; a missing `state` aborts. */
  function BridgePorts(st: Store, intf: string, ports: seq<string>): Result<seq<BridgeInterfaces>> {
    if |ports| == 0 then Ok([])
    else
      var prefix := BridgePorts(st, intf, ports[..|ports| - 1]);
      var path := PortStatePath(intf, ports[|ports| - 1]);
      if prefix.Panic? then prefix
      else if path !in st.files then Panic(ReadFailed(path))
      else Ok(prefix.value + [PortEntry(st, intf, ports[|ports| - 1])])
  }

  /** The port list succeeds exactly when every port's `state` can be read,
      and then holds one entry per port, in listing order. */
  lemma {:induction false} BridgePortsSpec(st: Store, intf: string, ports: seq<string>)
    ensures BridgePorts(st, intf, ports).Ok? <==>
              forall k :: 0 <= k < |ports| ==> PortStatePath(intf, ports[k]) in st.files
    ensures BridgePorts(st, intf, ports).Ok? ==> |BridgePorts(st, intf, ports).value| == |ports|
    ensures BridgePorts(st, intf, ports).Ok? ==> forall k :: 0 <= k < |ports| ==>
              PortStatePath(intf, ports[k]) in st.files &&
              BridgePorts(st, intf, ports).value[k] == PortEntry(st, intf, ports[k])
  {
    if |ports| > 0 {
      var n := |ports|;
      var ps := ports[..n - 1];
      BridgePortsSpec(st, intf, ps);
      assert forall k :: 0 <= k < n - 1 ==> ps[k] == ports[k];
      if BridgePorts(st, intf, ps).Panic? {
        var k :| 0 <= k < n - 1 && PortStatePath(intf, ps[k]) !in st.files;
        assert PortStatePath(intf, ports[k]) !in st.files;
      }
    }
  }

  /** The names in the `slaves` file: its trimmed text split on single spaces. */
  function SlaveNames(slaves: string): seq<string> {
    Split(TrimSpace(slaves), ' ')
  }

  /** Each slave's name and trimmed operational state; a missing state aborts. */
  function BondSlaves(st: Store, slaves: seq<string>): Result<seq<BondInterfaces>> {
    if |slaves| == 0 then Ok([])
    else
      var prefix := BondSlaves(st, slaves[..|slaves| - 1]);
      var path := SlaveStatePath(slaves[|slaves| - 1]);
      if prefix.Panic? then prefix
      else if path !in st.files then Panic(ReadFailed(path))
      else Ok(prefix.value + [SlaveEntry(st, slaves[|slaves| - 1])])
  }

  /** The slave list succeeds exactly when every slave's `operstate` can be
      read, and then holds one entry per slave, in order. */
  lemma {:induction false} BondSlavesSpec(st: Store, slaves: seq<string>)
    ensures BondSlaves(st, slaves).Ok? <==>
              forall k :: 0 <= k < |slaves| ==> SlaveStatePath(slaves[k]) in st.files
    ensures BondSlaves(st, slaves).Ok? ==> |BondSlaves(st, slaves).value| == |slaves|
    ensures BondSlaves(st, slaves).Ok? ==> forall k :: 0 <= k < |slaves| ==>
              SlaveStatePath(slaves[k]) in st.files &&
              BondSlaves(st, slaves).value[k] == SlaveEntry(st, slaves[k])
  {
    if |slaves| > 0 {
      var n := |slaves|;
      var ps := slaves[..n - 1];
      BondSlavesSpec(st, ps);
      assert forall k :: 0 <= k < n - 1 ==> ps[k] == slaves[k];
      if BondSlaves(st, ps).Panic? {
        var k :| 0 <= k < n - 1 && SlaveStatePath(ps[k]) !in st.files;
        assert SlaveStatePath(slaves[k]) !in st.files;
      }
    }
  }

  /** `strconv.Atoi` with the fallback of lines 132-135. */
  function PortCount(text: string): int {
    match Atoi(TrimSpace(text))
    case Some(n) => n
    case None => 0
  }

  /** The bond part of a record. */
  datatype BondState = BondState(isbond: bool, bondifnum: int, bondoperst: bool, bondiflist: seq<BondInterfaces>)

  /** What a record that is not a bond carries. */
  const NoBond: BondState := BondState(false, 0, true, [])

  /** Lines 115-140, for an interface whose `bonding/` directory exists and
      whose operational state is "up". */
  function BondInfo(st: Store, intf: string): Result<BondState> {
    if NumPortsPath(intf) !in st.files then Panic(ReadFailed(NumPortsPath(intf)))
    else
      var slaves := ReadOrEmpty(st, SlavesPath(intf));
      var list := if |slaves| != 0 then BondSlaves(st, SlaveNames(slaves)) else Ok([]);
      if list.Panic? then Panic(list.fault)
      else
        var count := if |slaves| != 0 then |SlaveNames(slaves)| else 0;
        var num := PortCount(st.files[NumPortsPath(intf)]);
        Ok(BondState(true, num, |slaves| != 0 && num == count, list.value))
  }

  /** `strings.TrimSpace(strings.Split(intf, "/")[4])`; a path with fewer than
      five pieces makes the index panic. */
  function NameOf(intf: string): Result<string> {
    var parts := Split(intf, '/');
    if |parts| < 5 then Panic(IndexOutOfRange(intf)) else Ok(TrimSpace(parts[4]))
  }

  /** The record `getIfInfo(intf)` appends, or why it aborts.  Of the six
      scalar reads only the last, `tx_queue_len`, is checked: the earlier
      errors are overwritten before the one `check`. */
  function Snapshot(st: Store, intf: string): Result<InterfaceStatus> {
    var isBridge := Exists(st, BrifDir(intf));
    var brifs := if isBridge then BridgePorts(st, intf, ReadDir(st, BrifDir(intf))) else Ok([]);
    if brifs.Panic? then Panic(brifs.fault)
    else if intf + "/tx_queue_len" !in st.files then Panic(ReadFailed(intf + "/tx_queue_len"))
    else
      var operstate := ReadOrEmpty(st, intf + "/operstate");
      var bond := if Exists(st, BondingDir(intf)) && TrimSpace(operstate) == "up" then BondInfo(st, intf) else Ok(NoBond);
      if bond.Panic? then Panic(bond.fault)
      else
        var name := NameOf(intf);
        if name.Panic? then Panic(name.fault)
        else
          Ok(InterfaceStatus(
            name.value,
            TrimSpace(operstate),
            TrimSpace(ReadOrEmpty(st, intf + "/carrier")),
            TrimSpace(ReadOrEmpty(st, intf + "/mtu")),
            TrimSpace(ReadOrEmpty(st, intf + "/duplex")),
            TrimSpace(ReadOrEmpty(st, intf + "/speed")),
            TrimSpace(st.files[intf + "/tx_queue_len"]),
            isBridge, brifs.value,
            bond.value.isbond, bond.value.bondifnum, bond.value.bondoperst, bond.value.bondiflist))
  }

  // ---------------------------------------------------------------------
  // The builder
  // ---------------------------------------------------------------------

  /** A failure while reading the port list is the result for any longer list. */
  lemma {:induction false} BridgePortsPanicStays(st: Store, intf: string, ports: seq<string>, i: nat)
    requires i <= |ports| && BridgePorts(st, intf, ports[..i]).Panic?
    ensures BridgePorts(st, intf, ports) == BridgePorts(st, intf, ports[..i])
    decreases |ports| - i
  {
    if i < |ports| {
      assert ports[..i + 1][..i] == ports[..i];
      BridgePortsPanicStays(st, intf, ports, i + 1);
    } else {
      assert ports[..i] == ports;
    }
  }

  lemma {:induction false} BondSlavesPanicStays(st: Store, slaves: seq<string>, i: nat)
    requires i <= |slaves| && BondSlaves(st, slaves[..i]).Panic?
    ensures BondSlaves(st, slaves) == BondSlaves(st, slaves[..i])
    decreases |slaves| - i
  {
    if i < |slaves| {
      assert slaves[..i + 1][..i] == slaves[..i];
      BondSlavesPanicStays(st, slaves, i + 1);
    } else {
      assert slaves[..i] == slaves;
    }
  }

  /** The bridge part of `getIfInfo` (lines 94-104): the `brif/` listing,
      one entry per port, in listing order. */
  method ReadBridgePorts(st: Store, intf: string) returns (r: Result<seq<BridgeInterfaces>>)
    ensures r == BridgePorts(st, intf, ReadDir(st, BrifDir(intf)))
  {
    var bridgeIfList: seq<BridgeInterfaces> := [];
    var files := ReadDir(st, BrifDir(intf));
    for i := 0 to |files|
      invariant BridgePorts(st, intf, files[..i]) == Ok(bridgeIfList)
    {
      assert files[..i + 1][..i] == files[..i];
      var state := ReadFile(st, PortStatePath(intf, files[i]));
      if state.None? {
        BridgePortsPanicStays(st, intf, files, i + 1);
        return Panic(ReadFailed(PortStatePath(intf, files[i])));
      }
      bridgeIfList := bridgeIfList + [BridgeInterfaces(TrimSpace(files[i]), TrimSpace(state.value))];
    }
    assert files[..|files|] == files;
    return Ok(bridgeIfList);
  }

  /** The bond part of `getIfInfo` (lines 115-140), entered when `bonding/`
      exists and the trimmed operational state is "up". */
  method ReadBondInfo(st: Store, intf: string) returns (r: Result<BondState>)
    ensures r == BondInfo(st, intf)
  {
    var bondFullOperational := true;
    var bondIfList: seq<BondInterfaces> := [];
    var interfacenumber := 0;
    var bondNumPorts := ReadFile(st, NumPortsPath(intf));
    if bondNumPorts.None? {
      return Panic(ReadFailed(NumPortsPath(intf)));
    }
    var slaves := ReadOrEmpty(st, SlavesPath(intf));
    if |slaves| != 0 {
      var names := Split(TrimSpace(slaves), ' ');
      for i := 0 to |names|
        invariant interfacenumber == i
        invariant BondSlaves(st, names[..i]) == Ok(bondIfList)
      {
        assert names[..i + 1][..i] == names[..i];
        interfacenumber := interfacenumber + 1;
        var bondifoperstate := ReadFile(st, SlaveStatePath(names[i]));
        if bondifoperstate.None? {
          BondSlavesPanicStays(st, names, i + 1);
          return Panic(ReadFailed(SlaveStatePath(names[i])));
        }
        bondIfList := bondIfList + [BondInterfaces(names[i], TrimSpace(bondifoperstate.value))];
      }
      assert names[..|names|] == names;
    } else {
      bondFullOperational := false;
    }
    var bondNumIf;
    match Atoi(TrimSpace(bondNumPorts.value)) {
      case Some(n) => bondNumIf := n;
      case None => bondNumIf := 0;
    }
    if bondNumIf != interfacenumber {
      bondFullOperational := false;
    }
    return Ok(BondState(true, bondNumIf, bondFullOperational, bondIfList));
  }

  /** `getIfInfo(intf)` up to the append: the record for `intf`, or the
      panic that aborts the run. */
  method ReadSnapshot(st: Store, intf: string) returns (r: Result<InterfaceStatus>)
    ensures r == Snapshot(st, intf)
  {
    var isBridge := false;
    var bridgeIfList: seq<BridgeInterfaces> := [];
    if Exists(st, BrifDir(intf)) {
      isBridge := true;
      var ports := ReadBridgePorts(st, intf);
      if ports.Panic? {
        return Panic(ports.fault);
      }
      bridgeIfList := ports.value;
    }
    var operstate := ReadOrEmpty(st, intf + "/operstate");
    var carrier := ReadOrEmpty(st, intf + "/carrier");
    var mtu := ReadOrEmpty(st, intf + "/mtu");
    var duplex := ReadOrEmpty(st, intf + "/duplex");
    var speed := ReadOrEmpty(st, intf + "/speed");
    var txQueueLen := ReadFile(st, intf + "/tx_queue_len");
    if txQueueLen.None? {
      return Panic(ReadFailed(intf + "/tx_queue_len"));
    }
    var bond := NoBond;
    if Exists(st, BondingDir(intf)) && TrimSpace(operstate) == "up" {
      var info := ReadBondInfo(st, intf);
      if info.Panic? {
        return Panic(info.fault);
      }
      bond := info.value;
    }
    var parts := Split(intf, '/');
    if |parts| < 5 {
      return Panic(IndexOutOfRange(intf));
    }
    return Ok(InterfaceStatus(
      TrimSpace(parts[4]), TrimSpace(operstate), TrimSpace(carrier), TrimSpace(mtu),
      TrimSpace(duplex), TrimSpace(speed), TrimSpace(txQueueLen.value),
      isBridge, bridgeIfList, bond.isbond, bond.bondifnum, bond.bondoperst, bond.bondiflist));
  }

  // ---------------------------------------------------------------------
  // Properties of the records the builder produces
  // ---------------------------------------------------------------------

  /** A record is a bridge exactly when its `brif/` directory exists; its
      port list then holds one entry per listed port, in listing order, and
      is empty otherwise. */
  lemma SnapshotBridge(st: Store, intf: string)
    requires Snapshot(st, intf).Ok?
    ensures Snapshot(st, intf).value.isbridge <==> Exists(st, BrifDir(intf))
    ensures !Exists(st, BrifDir(intf)) ==> Snapshot(st, intf).value.briflist == []
    ensures Exists(st, BrifDir(intf)) ==>
      var ports := ReadDir(st, BrifDir(intf));
      && |Snapshot(st, intf).value.briflist| == |ports|
      && forall k :: 0 <= k < |ports| ==>
           PortStatePath(intf, ports[k]) in st.files
           && Snapshot(st, intf).value.briflist[k] == PortEntry(st, intf, ports[k])
  {
    BridgePortsSpec(st, intf, ReadDir(st, BrifDir(intf)));
  }

  /** The bond flags of a record.  It is a bond exactly when `bonding/`
      exists and its trimmed operational state is "up".  A bond is fully
      operational exactly when its `slaves` file is not empty and the port
      count (0 when it does not parse) equals the number of space-separated
      slave names; its slave list holds one entry per name, in order. */
  lemma SnapshotBond(st: Store, intf: string)
    requires Snapshot(st, intf).Ok?
    ensures Snapshot(st, intf).value.isbond <==>
              Exists(st, BondingDir(intf)) && TrimSpace(ReadOrEmpty(st, intf + "/operstate")) == "up"
    ensures Snapshot(st, intf).value.isbond ==> Snapshot(st, intf).value.operstate == "up"
    ensures Snapshot(st, intf).value.isbond ==>
      var rec := Snapshot(st, intf).value;
      var slaves := ReadOrEmpty(st, SlavesPath(intf));
      && NumPortsPath(intf) in st.files
      && rec.bondifnum == PortCount(st.files[NumPortsPath(intf)])
      && (rec.bondoperst <==> |slaves| != 0 && rec.bondifnum == |SlaveNames(slaves)|)
      && |rec.bondiflist| == (if |slaves| != 0 then |SlaveNames(slaves)| else 0)
      && forall k :: 0 <= k < |rec.bondiflist| ==>
           SlaveStatePath(SlaveNames(slaves)[k]) in st.files
           && rec.bondiflist[k] == SlaveEntry(st, SlaveNames(slaves)[k])
    ensures !Snapshot(st, intf).value.isbond ==>
      var rec := Snapshot(st, intf).value;
      rec.bondifnum == 0 && rec.bondoperst && rec.bondiflist == []
  {
    BondSlavesSpec(st, SlaveNames(ReadOrEmpty(st, SlavesPath(intf))));
  }

  /** A bond whose `ad_num_ports` does not parse is never fully
      operational, since its slave list always has at least one name. */
  lemma UnparsablePortCount(st: Store, intf: string)
    requires Snapshot(st, intf).Ok? && Snapshot(st, intf).value.isbond
    requires Atoi(TrimSpace(st.files[NumPortsPath(intf)])).None?
    ensures !Snapshot(st, intf).value.bondoperst
  {
    SnapshotBond(st, intf);
  }

  /** When the builder aborts: a bridge port without `state`, a missing
      `tx_queue_len`, an up bond without `ad_num_ports` or with a slave
      without `operstate`, or a path with fewer than five pieces.  No other
      missing file aborts it: missing `operstate`, `carrier`, `mtu`,
      `duplex`, `speed` and `slaves` read as empty text. */
  lemma SnapshotPanics(st: Store, intf: string)
    ensures Snapshot(st, intf).Panic? <==>
      || (Exists(st, BrifDir(intf)) &&
          exists k :: 0 <= k < |ReadDir(st, BrifDir(intf))| &&
                      PortStatePath(intf, ReadDir(st, BrifDir(intf))[k]) !in st.files)
      || intf + "/tx_queue_len" !in st.files
      || (Exists(st, BondingDir(intf)) && TrimSpace(ReadOrEmpty(st, intf + "/operstate")) == "up" &&
          (|| NumPortsPath(intf) !in st.files
           || (|ReadOrEmpty(st, SlavesPath(intf))| != 0 &&
               exists k :: 0 <= k < |SlaveNames(ReadOrEmpty(st, SlavesPath(intf)))| &&
                           SlaveStatePath(SlaveNames(ReadOrEmpty(st, SlavesPath(intf)))[k]) !in st.files)))
      || |Split(intf, '/')| < 5
  {
    BridgePortsSpec(st, intf, ReadDir(st, BrifDir(intf)));
    BondSlavesSpec(st, SlaveNames(ReadOrEmpty(st, SlavesPath(intf))));
  }

  /** For a path under the attribute root, the record's name is the trimmed
      interface name. */
  lemma NameOfSysPath(n: string)
    requires '/' !in n
    ensures NameOf(Syspath + n) == Ok(TrimSpace(n))
  {
    var parts := ["", "sys", "class", "net", n];
    assert Join(parts[4..], '/') == n;
    assert Join(parts[3..], '/') == "net/" + n;
    assert Join(parts[2..], '/') == "class/net/" + n;
    assert Join(parts[1..], '/') == "sys/class/net/" + n;
    assert Join(parts, '/') == Syspath + n;
    SplitJoin(parts, '/');
  }

  /** A path without a colon yields a name without a colon. */
  lemma NameWithoutColon(intf: string)
    requires ':' !in intf && NameOf(intf).Ok?
    ensures ':' !in NameOf(intf).value
  {
    var parts := Split(intf, '/');
    if ':' in TrimSpace(parts[4]) {
      TrimSpaceWithin(parts[4], ':');
      SplitWithin(intf, '/', 4, ':');
    }
  }
}
