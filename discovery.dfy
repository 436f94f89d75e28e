/** Interface discovery: `getIfs` (network-inerface-check.go, lines 53-83)
    and the alias filter of `processIfInfo` (line 256).

    In the default mode the candidates are the entries of /sys/class/net that
    are symbolic links, except "lo".  In the "ubuntu" mode they come from the
    `auto ` lines of /etc/network/interfaces.  The directory listing, with each
    entry's `os.Lstat` verdict, and the configuration text are parameters. */
module Discovery {
  import opened Faults
  import opened Text
  import opened Records

  /** The configuration file read in the "ubuntu" mode. */
  const InterfacesFile: string := "/etc/network/interfaces"

  /** An entry of the /sys/class/net listing and whether `os.Lstat` reports
      it as a symbolic link. */
  datatype DirEntry = DirEntry(name: string, isSymlink: bool)

  // ---------------------------------------------------------------------
  // The "ubuntu" mode
  // ---------------------------------------------------------------------

  /** The space-separated words of an `auto ` line after every "lo " has been
      removed from it (lines 63-64). */
  function AutoWords(line: string): seq<string> {
    Split(RemoveAll(line, "lo "), ' ')
  }

  /** The paths for the words of one line, skipping the word "auto". */
  function WordPaths(words: seq<string>): seq<string> {
    if |words| == 0 then []
    else
      var rest := WordPaths(words[..|words| - 1]);
      var w := words[|words| - 1];
      if w != "auto" then rest + [Syspath + w] else rest
  }

  /** What one line of the configuration contributes (lines 62-70). */
  function LinePaths(line: string): seq<string> {
    if HasPrefix(line, "auto ") then WordPaths(AutoWords(line)) else []
  }

  function LinesPaths(lines: seq<string>): seq<string> {
    if |lines| == 0 then []
    else LinesPaths(lines[..|lines| - 1]) + LinePaths(lines[|lines| - 1])
  }

  /** The candidates of the "ubuntu" mode (lines 58-71). */
  function AutoPaths(config: string): seq<string> {
    LinesPaths(Split(config, '\n'))
  }

  // ---------------------------------------------------------------------
  // The default mode
  // ---------------------------------------------------------------------

  /** The candidates of the default mode (lines 73-80). */
  function DefaultPaths(entries: seq<DirEntry>): seq<string> {
    if |entries| == 0 then []
    else
      var rest := DefaultPaths(entries[..|entries| - 1]);
      var e := entries[|entries| - 1];
      if e.isSymlink && e.name != "lo" then rest + [Syspath + e.name] else rest
  }

  /** What `getIfs` returns; in the "ubuntu" mode an unreadable configuration
      file aborts the run. */
  function Interfaces(ubuntu: bool, config: Option<string>, entries: seq<DirEntry>): Result<seq<string>> {
    if ubuntu then
      if config.None? then Panic(ReadFailed(InterfacesFile)) else Ok(AutoPaths(config.value))
    else Ok(DefaultPaths(entries))
  }

  /** The candidates that reach `getIfInfo`: those without a colon (line 256). */
  function NonAliases(paths: seq<string>): seq<string> {
    if |paths| == 0 then []
    else
      var rest := NonAliases(paths[..|paths| - 1]);
      var p := paths[|paths| - 1];
      if ':' !in p then rest + [p] else rest
  }

  // ---------------------------------------------------------------------
  // getIfs
  // ---------------------------------------------------------------------

  /** The word loop of one `auto ` line (lines 63-68), appending to `interfaces`. */
  method AppendAutoLine(line: string, interfaces: seq<string>) returns (interfaces': seq<string>)
    ensures interfaces' == interfaces + LinePaths(line)
  {
    interfaces' := interfaces;
    if HasPrefix(line, "auto ") {
      var v := RemoveAll(line, "lo ");
      var words := Split(v, ' ');
      for i := 0 to |words|
        invariant interfaces' == interfaces + WordPaths(words[..i])
      {
        assert words[..i + 1][..i] == words[..i];
        if words[i] != "auto" {
          interfaces' := interfaces' + [Syspath + words[i]];
        }
      }
      assert words[..|words|] == words;
    }
  }

  /** `getIfs`: the candidate paths, in the order the source lists them. */
  method GetIfs(ubuntu: bool, config: Option<string>, entries: seq<DirEntry>) returns (r: Result<seq<string>>)
    ensures r == Interfaces(ubuntu, config, entries)
  {
    var interfaces: seq<string> := [];
    if ubuntu {
      if config.None? {
        return Panic(ReadFailed(InterfacesFile));
      }
      var lines := Split(config.value, '\n');
      for i := 0 to |lines|
        invariant interfaces == LinesPaths(lines[..i])
      {
        assert lines[..i + 1][..i] == lines[..i];
        interfaces := AppendAutoLine(lines[i], interfaces);
      }
      assert lines[..|lines|] == lines;
    } else {
      for i := 0 to |entries|
        invariant interfaces == DefaultPaths(entries[..i])
      {
        assert entries[..i + 1][..i] == entries[..i];
        var f := entries[i];
        if f.isSymlink && f.name != "lo" {
          interfaces := interfaces + [Syspath + f.name];
        }
      }
      assert entries[..|entries|] == entries;
    }
    return Ok(interfaces);
  }

  // ---------------------------------------------------------------------
  // Properties
  // ---------------------------------------------------------------------

  /** The paths of a line's words are exactly the words other than "auto",
      under the attribute root. */
  lemma {:induction false} WordPathsMember(words: seq<string>, p: string)
    ensures p in WordPaths(words) <==> exists k :: 0 <= k < |words| && words[k] != "auto" && p == Syspath + words[k]
  {
    if |words| > 0 {
      var n := |words|;
      var ws := words[..n - 1];
      WordPathsMember(ws, p);
      if exists k :: 0 <= k < n - 1 && ws[k] != "auto" && p == Syspath + ws[k] {
        var k :| 0 <= k < n - 1 && ws[k] != "auto" && p == Syspath + ws[k];
        assert words[k] == ws[k];
      }
      if exists k :: 0 <= k < n && words[k] != "auto" && p == Syspath + words[k] {
        var k :| 0 <= k < n && words[k] != "auto" && p == Syspath + words[k];
        if k < n - 1 { assert ws[k] == words[k]; }
      }
    }
  }

  /** A path comes out of the configuration exactly when some line
      contributes it. */
  lemma LinesPathsMember(lines: seq<string>, p: string)
    ensures p in LinesPaths(lines) <==> exists k :: 0 <= k < |lines| && p in LinePaths(lines[k])
  {
    var f := line => LinePaths(line);
    LinesPathsConcat(lines, f);
    ConcatMember(f, lines, p);
    assert forall k :: 0 <= k < |lines| ==> f(lines[k]) == LinePaths(lines[k]);
  }

  /** The pieces of a list, each mapped by `f`, concatenated in order. */
  function Concat(f: string -> seq<string>, xs: seq<string>): seq<string> {
    if |xs| == 0 then []
    else Concat(f, xs[..|xs| - 1]) + f(xs[|xs| - 1])
  }

  lemma {:induction false} LinesPathsConcat(lines: seq<string>, f: string -> seq<string>)
    requires forall line :: f(line) == LinePaths(line)
    ensures LinesPaths(lines) == Concat(f, lines)
  {
    if |lines| > 0 {
      LinesPathsConcat(lines[..|lines| - 1], f);
    }
  }

  lemma {:induction false} ConcatMember(f: string -> seq<string>, xs: seq<string>, p: string)
    ensures p in Concat(f, xs) <==> exists k :: 0 <= k < |xs| && p in f(xs[k])
  {
    if |xs| > 0 {
      var n := |xs|;
      var ys := xs[..n - 1];
      ConcatMember(f, ys, p);
      if exists k :: 0 <= k < n - 1 && p in f(ys[k]) {
        var k :| 0 <= k < n - 1 && p in f(ys[k]);
        assert xs[k] == ys[k];
      }
      if exists k :: 0 <= k < n && p in f(xs[k]) {
        var k :| 0 <= k < n && p in f(xs[k]);
        if k < n - 1 { assert ys[k] == xs[k]; }
      }
    }
  }

  /** Only `auto ` lines contribute, each with its non-"auto" words. */
  lemma AutoPathsMember(config: string, p: string)
    ensures p in AutoPaths(config) <==>
      exists line, k :: line in Split(config, '\n') && HasPrefix(line, "auto ")
                        && 0 <= k < |AutoWords(line)| && AutoWords(line)[k] != "auto"
                        && p == Syspath + AutoWords(line)[k]
  {
    var lines := Split(config, '\n');
    LinesPathsMember(lines, p);
    if p in AutoPaths(config) {
      var j :| 0 <= j < |lines| && p in LinePaths(lines[j]);
      WordPathsMember(AutoWords(lines[j]), p);
    }
    if exists line, k :: line in lines && HasPrefix(line, "auto ")
                        && 0 <= k < |AutoWords(line)| && AutoWords(line)[k] != "auto"
                        && p == Syspath + AutoWords(line)[k] {
      var line, k :| line in lines && HasPrefix(line, "auto ")
                     && 0 <= k < |AutoWords(line)| && AutoWords(line)[k] != "auto"
                     && p == Syspath + AutoWords(line)[k];
      WordPathsMember(AutoWords(line), p);
      var j :| 0 <= j < |lines| && lines[j] == line;
      assert p in LinePaths(lines[j]);
    }
  }

  /** The default mode keeps exactly the symbolic links not named "lo". */
  lemma {:induction false} DefaultPathsMember(entries: seq<DirEntry>, p: string)
    ensures p in DefaultPaths(entries) <==>
      exists k :: 0 <= k < |entries| && entries[k].isSymlink && entries[k].name != "lo" && p == Syspath + entries[k].name
  {
    if |entries| > 0 {
      var n := |entries|;
      var es := entries[..n - 1];
      DefaultPathsMember(es, p);
      if exists k :: 0 <= k < n - 1 && es[k].isSymlink && es[k].name != "lo" && p == Syspath + es[k].name {
        var k :| 0 <= k < n - 1 && es[k].isSymlink && es[k].name != "lo" && p == Syspath + es[k].name;
        assert entries[k] == es[k];
      }
      if exists k :: 0 <= k < n && entries[k].isSymlink && entries[k].name != "lo" && p == Syspath + entries[k].name {
        var k :| 0 <= k < n && entries[k].isSymlink && entries[k].name != "lo" && p == Syspath + entries[k].name;
        if k < n - 1 { assert es[k] == entries[k]; }
      }
    }
  }

  /** The loopback interface is never a candidate in the default mode. */
  lemma DefaultSkipsLoopback(entries: seq<DirEntry>)
    ensures Syspath + "lo" !in DefaultPaths(entries)
  {
    DefaultPathsMember(entries, Syspath + "lo");
    forall k | 0 <= k < |entries| && entries[k].name != "lo"
      ensures Syspath + "lo" != Syspath + entries[k].name
    {
      assert (Syspath + "lo")[|Syspath|..] == "lo";
      assert (Syspath + entries[k].name)[|Syspath|..] == entries[k].name;
    }
  }

  /** The alias filter keeps exactly the candidates without a colon, in order. */
  lemma {:induction false} NonAliasesMember(paths: seq<string>, p: string)
    ensures p in NonAliases(paths) <==> p in paths && ':' !in p
  {
    if |paths| > 0 {
      var n := |paths|;
      NonAliasesMember(paths[..n - 1], p);
      assert paths == paths[..n - 1] + [paths[n - 1]];
    }
  }

  /** "lo " does not occur in "auto lo". */
  lemma NoLoSpaceInAutoLo()
    ensures RemoveAll("auto lo", "lo ") == "auto lo"
  {
    var line := "auto lo";
    assert !Occurs(line, "lo ") by {
      forall i | 0 <= i <= |line| - 3 ensures !OccursAt(line, "lo ", i) {
        assert line[i..i + 3][0] == line[i] && line[i..i + 3][2] == line[i + 2];
        if i == 2 { assert line[i] != 'l'; } else { assert line[i + 2] != ' '; }
      }
    }
    RemoveAllAbsent(line, "lo ");
  }

  /** A line "auto lo" keeps the loopback interface: only "lo" followed by a
      space is removed. */
  lemma AutoLoAtEndOfLine()
    ensures AutoPaths("auto lo") == [Syspath + "lo"]
  {
    var line := "auto lo";
    SplitNoSeparator(line, '\n');
    assert [line][..0] == [];
    assert LinesPaths([line]) == LinePaths(line);
    assert HasPrefix(line, "auto ");
    AutoLoWords();
    AutoLoWordPaths();
  }

  /** The words of the line "auto lo". */
  lemma AutoLoWords()
    ensures AutoWords("auto lo") == ["auto", "lo"]
  {
    NoLoSpaceInAutoLo();
    var words := ["auto", "lo"];
    assert Join(words, ' ') == "auto lo";
    SplitJoin(words, ' ');
  }

  lemma AutoLoWordPaths()
    ensures WordPaths(["auto", "lo"]) == [Syspath + "lo"]
  {
    var words := ["auto", "lo"];
    assert words[..1] == ["auto"];
    assert words[..1][..0] == [];
  }
}
