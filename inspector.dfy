/**
 * The display inspector's parsers (mond.py:38-55). The xrandr subprocesses are not modelled:
 * each parser takes the report the subprocess would print, already split into lines.
 */
module Inspector {
  import opened Text

  /** The marker `get_monitors` looks for; note the leading space, so " disconnected" does not match. */
  const ConnectedMarker: string := " connected"

  /** A line of the plain `xrandr` report that names a connected output (mond.py:52). */
  predicate IsConnectedLine(line: string)
  {
    Contains(line, ConnectedMarker)
  }

  /** A matching line holds a space: the first character of the marker. */
  lemma ConnectedLineHasSpace(line: string)
    requires IsConnectedLine(line)
    ensures ' ' in line
  {
    var j: nat :| OccursAt(line, ConnectedMarker, j);
    assert line[j..j + |ConnectedMarker|][0] == ' ';
  }

  /** The output name on a connected line: everything before its first space (mond.py:53-54). */
  function ConnectedName(line: string): (name: string)
    requires IsConnectedLine(line)
    ensures |name| < |line| && line[..|name|] == name && line[|name|] == ' '
    ensures ' ' !in name
  {
    ConnectedLineHasSpace(line);
    line[..Find(line, ' ')]
  }

  /** What `get_monitors` returns for `lines`, defined line by line from the end. */
  function ConnectedMonitors(lines: seq<string>): seq<string>
  {
    if lines == [] then []
    else
      var line := lines[|lines| - 1];
      ConnectedMonitors(lines[..|lines| - 1]) + (if IsConnectedLine(line) then [ConnectedName(line)] else [])
  }

  /** get_monitors (mond.py:48-55): the names of the connected outputs, in report order. */
  method GetMonitors(lines: seq<string>) returns (monitors: seq<string>)
    ensures monitors == ConnectedMonitors(lines)
  {
    monitors := [];
    for i := 0 to |lines|
      invariant monitors == ConnectedMonitors(lines[..i])
    {
      assert lines[..i + 1][..i] == lines[..i];
      if Contains(lines[i], ConnectedMarker) {
        ConnectedLineHasSpace(lines[i]);
        var pos := Find(lines[i], ' ');
        monitors := monitors + [lines[i][..pos]];
      }
    }
    assert lines[..|lines|] == lines;
  }

  /** Line order is kept: the names found in a concatenated report are those of the parts, in turn. */
  lemma {:induction false} ConnectedMonitorsAppend(a: seq<string>, b: seq<string>)
    ensures ConnectedMonitors(a + b) == ConnectedMonitors(a) + ConnectedMonitors(b)
    decreases |b|
  {
    if b == [] {
      assert a + b == a;
    } else {
      var b' := b[..|b| - 1];
      assert (a + b)[..|a + b| - 1] == a + b';
      ConnectedMonitorsAppend(a, b');
    }
  }

  /** A name is reported exactly when some line marks it connected. */
  lemma {:induction false} ConnectedMonitorsMembers(lines: seq<string>, name: string)
    ensures name in ConnectedMonitors(lines) <==>
            exists i :: 0 <= i < |lines| && IsConnectedLine(lines[i]) && ConnectedName(lines[i]) == name
  {
    if lines != [] {
      var init := lines[..|lines| - 1];
      ConnectedMonitorsMembers(init, name);
      assert forall i :: 0 <= i < |init| ==> init[i] == lines[i];
    }
  }

  /** A header line `NAME connected ...` contributes exactly NAME. */
  lemma ConnectedHeader(name: string, rest: string)
    requires ' ' !in name
    ensures IsConnectedLine(name + ConnectedMarker + rest)
    ensures ConnectedName(name + ConnectedMarker + rest) == name
  {
    var line := name + ConnectedMarker + rest;
    assert line[|name|..|name| + |ConnectedMarker|] == ConnectedMarker;
    assert OccursAt(line, ConnectedMarker, |name|);
    assert line[..|name|] == name;
    FirstSpace(line, |name|);
  }

  /** Every character of an occurrence of `pat` in `s` is the matching character of `pat`. */
  lemma OccursAtChars(s: string, pat: string, j: nat)
    ensures OccursAt(s, pat, j) ==> forall k :: 0 <= k < |pat| ==> s[j + k] == pat[k]
  {
    if OccursAt(s, pat, j) {
      forall k | 0 <= k < |pat| ensures s[j + k] == pat[k] {
        assert s[j..j + |pat|][k] == s[j + k];
      }
    }
  }

  /** The first space of `line` is at `k` when `line[k]` is a space and none comes before it. */
  lemma FirstSpace(line: string, k: nat)
    requires k < |line| && line[k] == ' ' && ' ' !in line[..k]
    ensures Find(line, ' ') == k
  {
    var r := Find(line, ' ');
    assert forall i :: 0 <= i < k ==> line[..k][i] == line[i];
    assert r >= 0 && r <= k;
    assert line[..r] == line[..k][..r];
  }

  /** A header line `NAME disconnected ...` contributes nothing, unless the rest of it has the marker. */
  lemma DisconnectedHeader(name: string, rest: string)
    requires ' ' !in name
    requires !Contains(rest, ConnectedMarker)
    ensures !IsConnectedLine(name + " disconnected" + rest)
  {
    var line := name + " disconnected" + rest;
    var off := |name| + |" disconnected"|;
    forall j: nat ensures !OccursAt(line, ConnectedMarker, j) {
      OccursAtChars(line, ConnectedMarker, j);
      if j < |name| {
        assert line[j] == name[j] != ' ';
      } else if j == |name| {
        assert line[j + 1] == 'd';
      } else if j < off {
        assert line[j] == " disconnected"[j - |name|] != ' ';
      } else if j + |ConnectedMarker| <= |line| {
        assert line[j..j + |ConnectedMarker|] == rest[j - off..j - off + |ConnectedMarker|];
        assert !OccursAt(rest, ConnectedMarker, j - off);
      }
    }
  }

  /** A line without the letter 'c' (an indented mode line such as `\t1920x1080 60.00`) contributes nothing. */
  lemma LineWithoutCIsNotConnected(line: string)
    requires 'c' !in line
    ensures !IsConnectedLine(line)
  {
    forall j: nat ensures !OccursAt(line, ConnectedMarker, j) {
      OccursAtChars(line, ConnectedMarker, j);
      assert ConnectedMarker[1] == 'c' && |ConnectedMarker| == 10;
      if j + 1 < |line| {
        assert line[j + 1] in line;
      }
    }
  }

  /** Indented mode lines (they hold no 'c') contribute nothing. */
  lemma {:induction false} ModeLinesSkipped(modes: seq<string>)
    requires forall i :: 0 <= i < |modes| ==> 'c' !in modes[i]
    ensures ConnectedMonitors(modes) == []
  {
    if modes != [] {
      var init := modes[..|modes| - 1];
      ModeLinesSkipped(init);
      LineWithoutCIsNotConnected(modes[|modes| - 1]);
    }
  }

  /** A one-line report contributes that line's name, if it is a connected line. */
  lemma ConnectedMonitorsSingle(line: string)
    ensures ConnectedMonitors([line]) == if IsConnectedLine(line) then [ConnectedName(line)] else []
  {
    assert [line][..0] == [];
  }

  /** The lines of the sample report below, one at a time. */
  lemma SampleLines(screen: string, rest0: string, tail1: string, tail2: string, rest2: string, tail3: string)
    requires !IsConnectedLine(screen)
    requires !Contains(tail1, ConnectedMarker) && !Contains(tail2, ConnectedMarker) && !Contains(tail3, ConnectedMarker)
    ensures ConnectedMonitors([screen]) == []
    ensures ConnectedMonitors(["DP-0" + ConnectedMarker + rest0]) == ["DP-0"]
    ensures ConnectedMonitors(["DP-1" + " disconnected" + tail1]) == []
    ensures ConnectedMonitors(["HDMI-0" + " disconnected" + tail2]) == []
    ensures ConnectedMonitors(["DP-2" + ConnectedMarker + rest2]) == ["DP-2"]
    ensures ConnectedMonitors(["DP-3" + " disconnected" + tail3]) == []
  {
    ConnectedMonitorsSingle(screen);
    ConnectedHeader("DP-0", rest0);
    ConnectedMonitorsSingle("DP-0" + ConnectedMarker + rest0);
    DisconnectedHeader("DP-1", tail1);
    ConnectedMonitorsSingle("DP-1" + " disconnected" + tail1);
    DisconnectedHeader("HDMI-0", tail2);
    ConnectedMonitorsSingle("HDMI-0" + " disconnected" + tail2);
    ConnectedHeader("DP-2", rest2);
    ConnectedMonitorsSingle("DP-2" + ConnectedMarker + rest2);
    DisconnectedHeader("DP-3", tail3);
    ConnectedMonitorsSingle("DP-3" + " disconnected" + tail3);
  }

  /** The parenthesised geometry text on every header line of the sample report below. */
  const SampleGeometry := " (normal left inverted right x axis y axis)"

  /** The geometry text of the sample's header lines does not contain ` connected`. */
  lemma SampleGeometryNotConnected()
    ensures !Contains(SampleGeometry, ConnectedMarker)
  {
    LineWithoutCIsNotConnected(SampleGeometry);
  }

  /**
   * The report of src/test_mond.py:97-129. The header lines are the literal ones, each written as
   * its output name, its status and the rest of the line. The screen line and the mode lines are
   * parameters with the properties the parser depends on: the screen line does not contain
   * ` connected`, and no mode line contains the letter `c`. The result is ["DP-0", "DP-2"].
   */
  lemma SampleReport(screen: string, modes0: seq<string>, modes2: seq<string>)
    requires !IsConnectedLine(screen)
    requires forall i :: 0 <= i < |modes0| ==> 'c' !in modes0[i]
    requires forall i :: 0 <= i < |modes2| ==> 'c' !in modes2[i]
    ensures ConnectedMonitors([screen] +
                              ["DP-0" + ConnectedMarker + " primary 2560x1440+0+0" + SampleGeometry + " 708mm x 399mm"] +
                              modes0 +
                              ["DP-1" + " disconnected" + SampleGeometry] +
                              ["HDMI-0" + " disconnected" + SampleGeometry] +
                              ["DP-2" + ConnectedMarker + " 3840x2160+2560+0" + SampleGeometry + " 697mm x 392mm"] +
                              modes2 +
                              ["DP-3" + " disconnected" + SampleGeometry]) == ["DP-0", "DP-2"]
  {
    var rest0 := " primary 2560x1440+0+0" + SampleGeometry + " 708mm x 399mm";
    var rest2 := " 3840x2160+2560+0" + SampleGeometry + " 697mm x 392mm";
    SampleGeometryNotConnected();
    assert "DP-0" + ConnectedMarker + rest0 == "DP-0" + ConnectedMarker + " primary 2560x1440+0+0" + SampleGeometry + " 708mm x 399mm";
    assert "DP-2" + ConnectedMarker + rest2 == "DP-2" + ConnectedMarker + " 3840x2160+2560+0" + SampleGeometry + " 697mm x 392mm";
    SampleLines(screen, rest0, SampleGeometry, SampleGeometry, rest2, SampleGeometry);
    ModeLinesSkipped(modes0);
    ModeLinesSkipped(modes2);
    SampleComposed(screen, "DP-0" + ConnectedMarker + rest0, modes0, "DP-1" + " disconnected" + SampleGeometry,
                   "HDMI-0" + " disconnected" + SampleGeometry, "DP-2" + ConnectedMarker + rest2, modes2,
                   "DP-3" + " disconnected" + SampleGeometry);
  }

  /** The sample report's names, put together from those of its lines. */
  lemma SampleComposed(screen: string, dp0: string, modes0: seq<string>, dp1: string, hdmi0: string,
                       dp2: string, modes2: seq<string>, dp3: string)
    requires ConnectedMonitors([screen]) == [] && ConnectedMonitors([dp0]) == ["DP-0"]
    requires ConnectedMonitors(modes0) == [] && ConnectedMonitors(modes2) == []
    requires ConnectedMonitors([dp1]) == [] && ConnectedMonitors([hdmi0]) == []
    requires ConnectedMonitors([dp2]) == ["DP-2"] && ConnectedMonitors([dp3]) == []
    ensures ConnectedMonitors([screen] + [dp0] + modes0 + [dp1] + [hdmi0] + [dp2] + modes2 + [dp3]) == ["DP-0", "DP-2"]
  {
    var x1 := [screen] + [dp0];
    ConnectedMonitorsAppend([screen], [dp0]);
    var x2 := x1 + modes0;
    ConnectedMonitorsAppend(x1, modes0);
    var x3 := x2 + [dp1];
    ConnectedMonitorsAppend(x2, [dp1]);
    var x4 := x3 + [hdmi0];
    ConnectedMonitorsAppend(x3, [hdmi0]);
    var x5 := x4 + [dp2];
    ConnectedMonitorsAppend(x4, [dp2]);
    var x6 := x5 + modes2;
    ConnectedMonitorsAppend(x5, modes2);
    ConnectedMonitorsAppend(x6, [dp3]);
  }

  /**
   * None of `get_active_monitors`'s lines may be empty: the source reads `line[0]` of every line
   * (mond.py:42) and would raise on an empty one.
   */
  predicate NonEmptyLines(lines: seq<string>)
  {
    forall i :: 0 <= i < |lines| ==> lines[i] != []
  }

  /** A data row of the active-monitor report: it starts with a space (mond.py:42). */
  predicate IsMonitorRow(line: string)
    requires line != []
  {
    line[0] == ' '
  }

  /** The output name on a data row: everything after its last space (mond.py:43-45). */
  function ActiveName(line: string): (name: string)
    requires line != [] && IsMonitorRow(line)
    ensures |name| < |line| && line[|line| - |name|..] == name && line[|line| - |name| - 1] == ' '
    ensures ' ' !in name
  {
    var pos := RFind(line, ' ') + 1;
    assert line[pos..] == line[RFind(line, ' ') + 1..];
    line[pos..]
  }

  /** What `get_active_monitors` returns for `lines`, defined line by line from the end. */
  function ActiveMonitors(lines: seq<string>): seq<string>
    requires NonEmptyLines(lines)
  {
    if lines == [] then []
    else
      var line := lines[|lines| - 1];
      ActiveMonitors(lines[..|lines| - 1]) + (if IsMonitorRow(line) then [ActiveName(line)] else [])
  }

  /** get_active_monitors (mond.py:38-46): the last token of every indented row, in report order. */
  method GetActiveMonitors(lines: seq<string>) returns (monitors: seq<string>)
    requires NonEmptyLines(lines)
    ensures monitors == ActiveMonitors(lines)
  {
    monitors := [];
    for i := 0 to |lines|
      invariant monitors == ActiveMonitors(lines[..i])
    {
      assert lines[..i + 1][..i] == lines[..i];
      var line := lines[i];
      if line[0] == ' ' {
        var pos := RFind(line, ' ') + 1;
        var end := |line|;
        assert line[pos..end] == line[pos..];
        monitors := monitors + [line[pos..end]];
      }
    }
    assert lines[..|lines|] == lines;
  }

  /** Line order is kept: the rows of a concatenated report are those of the parts, in turn. */
  lemma {:induction false} ActiveMonitorsAppend(a: seq<string>, b: seq<string>)
    requires NonEmptyLines(a) && NonEmptyLines(b)
    ensures NonEmptyLines(a + b)
    ensures ActiveMonitors(a + b) == ActiveMonitors(a) + ActiveMonitors(b)
    decreases |b|
  {
    if b == [] {
      assert a + b == a;
    } else {
      var b' := b[..|b| - 1];
      assert (a + b)[..|a + b| - 1] == a + b';
      ActiveMonitorsAppend(a, b');
    }
  }

  /** A name is reported exactly when some indented row ends with it. */
  lemma {:induction false} ActiveMonitorsMembers(lines: seq<string>, name: string)
    requires NonEmptyLines(lines)
    ensures name in ActiveMonitors(lines) <==>
            exists i :: 0 <= i < |lines| && IsMonitorRow(lines[i]) && ActiveName(lines[i]) == name
  {
    if lines != [] {
      var init := lines[..|lines| - 1];
      ActiveMonitorsMembers(init, name);
      assert forall i :: 0 <= i < |init| ==> init[i] == lines[i];
    }
  }

  /** A header line that does not start with a space, such as `Monitors: 2`, contributes nothing. */
  lemma HeaderRowSkipped(header: string, lines: seq<string>)
    requires header != [] && header[0] != ' '
    requires NonEmptyLines(lines)
    ensures NonEmptyLines([header] + lines)
    ensures ActiveMonitors([header] + lines) == ActiveMonitors(lines)
  {
    ActiveMonitorsAppend([header], lines);
    assert [header][..0] == [];
  }

  /** An indented row whose last space comes right before `name` contributes exactly `name`. */
  lemma ActiveRow(prefix: string, name: string)
    requires prefix != [] && prefix[0] == ' ' && prefix[|prefix| - 1] == ' '
    requires ' ' !in name
    ensures prefix + name != [] && IsMonitorRow(prefix + name)
    ensures ActiveName(prefix + name) == name
  {
    var line := prefix + name;
    assert line[0] == ' ';
    var n := ActiveName(line);
    var r := RFind(line, ' ');
    assert line[|prefix| - 1] == ' ';
    forall k | |prefix| <= k < |line| ensures line[k] != ' ' {
      assert line[k] == name[k - |prefix|];
    }
    assert r == |prefix| - 1;
    assert line[r + 1..] == name;
  }

  /**
   * The active-monitor report of src/test_mond.py:131-133: a `Monitors: 2` header, then one row
   * per active output ending in its name. The result is ["DP-0", "DP-2"].
   */
  lemma SampleActiveReport(header: string, row0: string, row1: string)
    requires header != [] && header[0] != ' '
    requires row0 != [] && row0[0] == ' ' && row0[|row0| - 1] == ' '
    requires row1 != [] && row1[0] == ' ' && row1[|row1| - 1] == ' '
    ensures NonEmptyLines([header] + [row0 + "DP-0"] + [row1 + "DP-2"])
    ensures ActiveMonitors([header] + [row0 + "DP-0"] + [row1 + "DP-2"]) == ["DP-0", "DP-2"]
  {
    ActiveRow(row0, "DP-0");
    ActiveRow(row1, "DP-2");
    assert [row1 + "DP-2"][..0] == [];
    HeaderRowSkipped(header, [row0 + "DP-0"]);
    ActiveMonitorsAppend([header] + [row0 + "DP-0"], [row1 + "DP-2"]);
    assert [row0 + "DP-0"][..0] == [];
  }
}
