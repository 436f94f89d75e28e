/** The run: `processIfInfo` fills the global `InterfacesInfo` slice with one
    record per candidate that is not an alias, and `main` hands the records
    to `sensuIfStatus` (network-inerface-check.go, lines 41-42, 143-157,
    252-260, 280-283). */
module Checker {
  import opened Faults
  import opened Text
  import opened Records
  import opened Sysfs
  import opened Discovery
  import opened Evaluator

  /** `getIfInfo` as a function of the path: the record it appends, or its
      panic. */
  function Builder(st: Store): string -> Result<InterfaceStatus> {
    intf => Snapshot(st, intf)
  }

  /** The records `build` yields for `paths`, in order, or the first panic. */
  function Collect(build: string -> Result<InterfaceStatus>, paths: seq<string>): Result<seq<InterfaceStatus>> {
    if |paths| == 0 then Ok([])
    else
      var prefix := Collect(build, paths[..|paths| - 1]);
      var last := build(paths[|paths| - 1]);
      if prefix.Panic? then prefix
      else if last.Panic? then Panic(last.fault)
      else Ok(prefix.value + [last.value])
  }

  /** Collecting succeeds exactly when every record can be built, and then
      holds each path's record in order. */
  lemma {:induction false} CollectSpec(build: string -> Result<InterfaceStatus>, paths: seq<string>)
    ensures Collect(build, paths).Ok? <==> forall k :: 0 <= k < |paths| ==> build(paths[k]).Ok?
    ensures Collect(build, paths).Ok? ==> |Collect(build, paths).value| == |paths|
    ensures Collect(build, paths).Ok? ==>
              forall k :: 0 <= k < |paths| ==> build(paths[k]) == Ok(Collect(build, paths).value[k])
  {
    if |paths| > 0 {
      var n := |paths|;
      var ps := paths[..n - 1];
      CollectSpec(build, ps);
      assert forall k :: 0 <= k < n - 1 ==> ps[k] == paths[k];
      if Collect(build, ps).Panic? {
        var k :| 0 <= k < n - 1 && !build(ps[k]).Ok?;
        assert !build(paths[k]).Ok?;
      }
    }
  }

  /** A panic in a prefix is the result of the whole collection. */
  lemma {:induction false} CollectPanicStays(build: string -> Result<InterfaceStatus>, paths: seq<string>, i: nat)
    requires i <= |paths| && Collect(build, paths[..i]).Panic?
    ensures Collect(build, paths) == Collect(build, paths[..i])
    decreases |paths| - i
  {
    if i < |paths| {
      assert paths[..i + 1][..i] == paths[..i];
      CollectPanicStays(build, paths, i + 1);
    } else {
      assert paths[..i] == paths;
    }
  }

  /** The global `InterfacesInfo` slice and the functions that append to it. */
  class Collector {
    var interfacesInfo: seq<InterfaceStatus>

    constructor ()
      ensures interfacesInfo == []
    {
      interfacesInfo := [];
    }

    /** `getIfInfo(intf)`: appends the record for `intf`, or reports the panic
        that ends the run. */
    method GetIfInfo(st: Store, intf: string) returns (failure: Option<Fault>)
      modifies this
      ensures Snapshot(st, intf).Ok? ==> failure.None? && interfacesInfo == old(interfacesInfo) + [Snapshot(st, intf).value]
      ensures Snapshot(st, intf).Panic? ==> failure == Some(Snapshot(st, intf).fault) && interfacesInfo == old(interfacesInfo)
    {
      var r := ReadSnapshot(st, intf);
      if r.Panic? {
        return Some(r.fault);
      }
      interfacesInfo := interfacesInfo + [r.value];
      return None;
    }

    /** `processIfInfo`: one record per candidate without a colon, in order. */
    method ProcessIfInfo(st: Store, intfc: seq<string>) returns (failure: Option<Fault>)
      modifies this
      ensures failure.None? <==> Collect(Builder(st), NonAliases(intfc)).Ok?
      ensures failure.None? ==> interfacesInfo == old(interfacesInfo) + Collect(Builder(st), NonAliases(intfc)).value
      ensures failure.Some? ==> failure.value == Collect(Builder(st), NonAliases(intfc)).fault
    {
      for i := 0 to |intfc|
        invariant Collect(Builder(st), NonAliases(intfc[..i])).Ok?
        invariant interfacesInfo == old(interfacesInfo) + Collect(Builder(st), NonAliases(intfc[..i])).value
      {
        var f := intfc[i];
        var done := NonAliases(intfc[..i]);
        assert intfc[..i + 1][..i] == intfc[..i];
        if ':' !in f {
          assert NonAliases(intfc[..i + 1]) == done + [f];
          assert (done + [f])[..|done|] == done;
          assert Builder(st)(f) == Snapshot(st, f);
          failure := GetIfInfo(st, f);
          if failure.Some? {
            PanicAfterNonAliases(Builder(st), intfc, i);
            return;
          }
        }
      }
      assert intfc[..|intfc|] == intfc;
      return None;
    }
  }

  /** A panic on the candidate at `i` is the panic of the whole collection. */
  lemma PanicAfterNonAliases(build: string -> Result<InterfaceStatus>, paths: seq<string>, i: nat)
    requires i < |paths| && ':' !in paths[i]
    requires Collect(build, NonAliases(paths[..i])).Ok? && build(paths[i]).Panic?
    ensures Collect(build, NonAliases(paths)) == Panic(build(paths[i]).fault)
  {
    var done := NonAliases(paths[..i]);
    assert paths[..i + 1][..i] == paths[..i];
    assert NonAliases(paths[..i + 1]) == done + [paths[i]];
    assert (done + [paths[i]])[..|done|] == done;
    NonAliasesExtend(paths, i + 1);
    var all := NonAliases(paths);
    var n := |done| + 1;
    assert all[..n] == done + [paths[i]];
    CollectPanicStays(build, all, n);
  }

  /** The filtered list of a prefix is a prefix of the filtered list. */
  lemma {:induction false} NonAliasesExtend(paths: seq<string>, i: nat)
    requires i <= |paths|
    ensures |NonAliases(paths[..i])| <= |NonAliases(paths)|
    ensures NonAliases(paths)[..|NonAliases(paths[..i])|] == NonAliases(paths[..i])
    decreases |paths| - i
  {
    if i < |paths| {
      assert paths[..i + 1][..i] == paths[..i];
      NonAliasesExtend(paths, i + 1);
    } else {
      assert paths[..i] == paths;
    }
  }

  /** What a run yields: the summary and exit code, or the panic. */
  function CheckRun(st: Store, ubuntu: bool, config: Option<string>, entries: seq<DirEntry>, ignoreif: string)
    : Result<(string, int)>
  {
    var ifs := Interfaces(ubuntu, config, entries);
    if ifs.Panic? then Panic(ifs.fault)
    else
      var infos := Collect(Builder(st), NonAliases(ifs.value));
      if infos.Panic? then Panic(infos.fault)
      else
        var v := Evaluate(infos.value, ignoreif);
        Ok((Summary(v), v.code))
  }

  /** `main` without the flag parsing and the printing: discovery, one record
      per candidate, then the evaluation. */
  method CheckInterfaces(st: Store, ubuntu: bool, config: Option<string>, entries: seq<DirEntry>, ignoreif: string)
    returns (r: Result<(string, int)>)
    ensures r == CheckRun(st, ubuntu, config, entries, ignoreif)
  {
    var intfc := GetIfs(ubuntu, config, entries);
    if intfc.Panic? {
      return Panic(intfc.fault);
    }
    var collector := new Collector();
    var failure := collector.ProcessIfInfo(st, intfc.value);
    if failure.Some? {
      return Panic(failure.value);
    }
    assert collector.interfacesInfo == Collect(Builder(st), NonAliases(intfc.value)).value;
    var pr, ec := SensuIfStatus(collector.interfacesInfo, ignoreif);
    return Ok((pr, ec));
  }

  // ---------------------------------------------------------------------
  // Properties of a run
  // ---------------------------------------------------------------------

  /** No collected record is named after an alias. */
  lemma CollectedNamesHaveNoColon(st: Store, paths: seq<string>)
    requires Collect(Builder(st), NonAliases(paths)).Ok?
    ensures forall k :: 0 <= k < |Collect(Builder(st), NonAliases(paths)).value| ==>
              ':' !in Collect(Builder(st), NonAliases(paths)).value[k].name
  {
    var ps := NonAliases(paths);
    var recs := Collect(Builder(st), ps).value;
    CollectSpec(Builder(st), ps);
    forall k | 0 <= k < |recs| ensures ':' !in recs[k].name {
      NonAliasesMember(paths, ps[k]);
      SysName(st, ps[k]);
      NameWithoutColon(ps[k]);
    }
  }

  /** A record's name is the one `NameOf` derives from its path. */
  lemma SysName(st: Store, intf: string)
    requires Snapshot(st, intf).Ok?
    ensures NameOf(intf).Ok? && Snapshot(st, intf).value.name == NameOf(intf).value
  {
  }

  /** Every collected record that is a bond is up. */
  lemma CollectedBondsAreUp(st: Store, paths: seq<string>)
    requires Collect(Builder(st), paths).Ok?
    ensures forall k :: 0 <= k < |Collect(Builder(st), paths).value| && Collect(Builder(st), paths).value[k].isbond ==>
              Collect(Builder(st), paths).value[k].operstate == "up"
  {
    var recs := Collect(Builder(st), paths).value;
    CollectSpec(Builder(st), paths);
    forall k | 0 <= k < |recs| && recs[k].isbond ensures recs[k].operstate == "up" {
      SnapshotBond(st, paths[k]);
    }
  }

  /** The outcome of a whole run: exit code 0, 1 or 2; 0 exactly when the
      summary is the bare header; at most one bridge finding, and only as the
      first finding; and never a bond-problem finding, since the builder
      marks a record as a bond only when it is up. */
  lemma CheckRunOutcome(st: Store, ubuntu: bool, config: Option<string>, entries: seq<DirEntry>, ignoreif: string)
    requires CheckRun(st, ubuntu, config, entries, ignoreif).Ok?
    ensures var (pr, ec) := CheckRun(st, ubuntu, config, entries, ignoreif).value;
      && 0 <= ec <= 2
      && (ec == 0 <==> pr == Header)
    ensures var ifs := Interfaces(ubuntu, config, entries).value;
      var v := Evaluate(Collect(Builder(st), NonAliases(ifs)).value, ignoreif);
      && (forall k :: 0 <= k < |v.tokens| ==> !v.tokens[k].BondProblem?)
      && (forall k :: 0 <= k < |v.tokens| ==> (v.tokens[k].BridgeNonOperational? ==> k == 0))
  {
    var ifs := Interfaces(ubuntu, config, entries).value;
    var recs := Collect(Builder(st), NonAliases(ifs)).value;
    EvaluateOutcome(recs, ignoreif);
    CollectedBondsAreUp(st, NonAliases(ifs));
    NoBondProblem(recs, recs, IgnoredIfs(ignoreif));
  }

  /** The default of the `-ignoreif` flag (line 48). */
  const DefaultIgnore: string := "lo"

  /** The line `main` prints when no problem was found (line 290). */
  const AllOperational: string := "All interfaces are operational"

  /** The line `main` prints for a summary and an exit code (lines 287-291). */
  function OutputLine(pr: string, ec: int): string {
    if ec != 0 then pr else AllOperational
  }

  /** The printed line of a completed run is the all-clear message exactly
      when there are no findings, and otherwise the summary, which starts
      with the header. */
  lemma CheckRunOutputLine(st: Store, ubuntu: bool, config: Option<string>, entries: seq<DirEntry>, ignoreif: string)
    requires CheckRun(st, ubuntu, config, entries, ignoreif).Ok?
    ensures var (pr, ec) := CheckRun(st, ubuntu, config, entries, ignoreif).value;
      var ifs := Interfaces(ubuntu, config, entries).value;
      var v := Evaluate(Collect(Builder(st), NonAliases(ifs)).value, ignoreif);
      && (OutputLine(pr, ec) == AllOperational <==> |v.tokens| == 0)
      && (OutputLine(pr, ec) != AllOperational ==> OutputLine(pr, ec) == pr && HasPrefix(pr, Header))
  {
    var ifs := Interfaces(ubuntu, config, entries).value;
    var v := Evaluate(Collect(Builder(st), NonAliases(ifs)).value, ignoreif);
    CheckRunOutcome(st, ubuntu, config, entries, ignoreif);
    assert Summary(v)[..|Header|] == Header;
    assert Summary(v)[0] == Header[0] == 'P' != AllOperational[0];
  }
}
