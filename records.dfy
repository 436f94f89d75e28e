/** The records the checker collects, one `InterfaceStatus` per interface it
    examined (network-inerface-check.go, lines 12-45). */
module Records {

  /** The root of the kernel's per-interface attribute tree. */
  const Syspath: string := "/sys/class/net/"

  /** A port of a bridge and its spanning-tree state ("3" is forwarding). */
  datatype BridgeInterfaces = BridgeInterfaces(name: string, state: string)

  /** A slave of a bond and its operational state. */
  datatype BondInterfaces = BondInterfaces(name: string, state: string)

  /** Everything the checker learned about one interface.  All strings are
      the trimmed contents of the corresponding attribute file. */
  datatype InterfaceStatus = InterfaceStatus(
    name: string,
    operstate: string,
    carrier: string,
    mtu: string,
    duplex: string,
    speed: string,
    txQueueLen: string,
    isbridge: bool,
    briflist: seq<BridgeInterfaces>,
    isbond: bool,
    bondifnum: int,
    bondoperst: bool,
    bondiflist: seq<BondInterfaces>)
}
