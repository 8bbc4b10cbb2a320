# mond: docking-aware xrandr layout, modelled in Dafny

mond is a small daemon that keeps an X display's outputs arranged. It does this on every poll:

1. It reads the `xrandr` report and collects the names of the connected outputs. It also reads
   the `xrandr --listactivemonitors` report and collects the names of the active monitors.
2. It decides whether the machine is *docked*. A machine is docked when every connected output is
   named in the user's configuration and there are as many connected outputs as configuration
   entries.
3. It builds one `xrandr` command that walks the configuration in order and emits one group of
   arguments per entry:
   - an entry whose output may be switched on gets `--output NAME --auto`;
   - the first such entry is `--primary`;
   - each later one is `--right-of` the entry just before it in the configuration, whether that
     entry is on or off;
   - every other entry gets `--output NAME --off`.

   When the machine is docked, only outputs the configuration marks `docked` may be switched on.
   Otherwise every connected output may be.
4. It runs the command only when it differs from the last command it ran. It reports success
   when no command ran or when the command exited with status 0.

The project has five modules:

- `Text`: Python's `in`, `str.find` and `str.rfind` on strings, stated by their meaning.
- `Inspector`: the two report parsers.
  - `GetMonitors` and `GetActiveMonitors` are loops proved equal to the recursive definitions
    `ConnectedMonitors` and `ActiveMonitors`.
  - Lemmas cover how those definitions behave on concatenated reports, header lines, mode lines
    and the sample reports of the test suite.
- `Docking`: the configuration (`Entry(name, docked)`), the docked predicate `Docked` and the
  docked filter `KeepDocked`.
  - `IsDocked` and `DockedMonitors` are loops proved against them.
  - Lemmas characterise docking by sets of names and the filter by membership, multiplicity and
    order.
- `Layout`: the command builder.
  - `Layout` gives one `Directive` per configuration entry (`Enable(output, Primary)`,
    `Enable(output, RightOf(neighbour))` or `Disable(output)`).
  - `Render` turns directives into arguments, and `Parse` reads them back.
  - `Command` is the whole command. `BuildCommand` is the loop of `fix_monitors`, proved to
    return `Command`.
  - Lemmas state where the primary output is, that there is at most one, how outputs chain,
    that the command parses back into its directives, and the commands of the tested scenarios.
- `Executor`: the `last_cmd` cache as the class `Daemon`. Its field `lastCmd` is updated in place
  by `FixMonitors`. The exit code of the xrandr process is a parameter of `FixMonitors`. A ghost
  history of executed commands carries the invariant that no command is run twice in a row.

The xrandr reports are inputs: each parser takes the report already split into lines.

Two behaviours of the code shape the model:

- The valid set. The code keeps only `docked`-marked outputs when the machine is docked, and
  every connected output otherwise (src/mond.py:79-81).
- An empty configuration. The code indexes `config[0]` before its loop (src/mond.py:83), so an
  empty configuration raises. `BuildCommand` and `FixMonitors` therefore require a non-empty
  configuration. The pure `Command` function is total.

## Model

| member | source | states |
|---|---|---|
| Text.Contains | src/mond.py:52 | substring test: true exactly when the pattern occurs at some index of the line |
| Text.Find | src/mond.py:53 | `str.find` of a character: -1 exactly when it is absent, otherwise an index holding it with no earlier occurrence |
| Text.RFind | src/mond.py:43 | `str.rfind` of a character: -1 exactly when it is absent, otherwise an index holding it with no later occurrence |
| Inspector.ConnectedName | src/mond.py:53-54 | the name taken from a connected line is the line's prefix up to its first space and holds no space |
| Inspector.GetMonitors | src/mond.py:48-55 | the loop returns exactly `ConnectedMonitors` of the report lines: the `ConnectedName` of every line `IsConnectedLine` accepts, in report order |
| Inspector.ConnectedMonitorsAppend | src/mond.py:51-54 | the connected names of two concatenated reports are those of the first followed by those of the second |
| Inspector.ConnectedMonitorsMembers | src/mond.py:51-54 | a name is reported if and only if some line is a connected line with that name |
| Inspector.ConnectedHeader | src/mond.py:52-54 | a line `NAME connected ...` with a space-free NAME is a connected line and yields NAME |
| Inspector.DisconnectedHeader | src/mond.py:52 | a line `NAME disconnected ...` without ` connected` in its tail is skipped |
| Inspector.LineWithoutCIsNotConnected | src/mond.py:52 | a line without the letter `c` is never a connected line |
| Inspector.ModeLinesSkipped | src/mond.py:51-54 | mode lines (free of `c`) contribute no names |
| Inspector.ConnectedMonitorsSingle | src/mond.py:52-54 | a one-line report yields that line's name if it is connected, and nothing otherwise |
| Inspector.SampleLines | src/test_mond.py:97-129 | each header line of the test report yields DP-0, DP-2 or nothing, as its connection status says |
| Inspector.SampleGeometryNotConnected | src/test_mond.py:113-114 | the parenthesised geometry text of the test report's header lines does not contain ` connected` |
| Inspector.SampleReport | src/test_mond.py:97-129 | the test report, with its literal header lines and only the screen line and the mode lines abstracted, yields exactly `["DP-0", "DP-2"]` |
| Inspector.SampleComposed | src/test_mond.py:97-129 | the report's names are put together from the names of its lines, in order |
| Inspector.ActiveName | src/mond.py:43-45 | the name taken from a monitor row is the row's suffix after its last space and holds no space |
| Inspector.GetActiveMonitors | src/mond.py:38-46 | the loop returns exactly `ActiveMonitors` of the report lines: the `ActiveName` of every row `IsMonitorRow` accepts, in report order |
| Inspector.ActiveMonitorsAppend | src/mond.py:41-45 | the active names of two concatenated reports are those of the first followed by those of the second |
| Inspector.ActiveMonitorsMembers | src/mond.py:41-45 | a name is reported if and only if some indented row ends with it |
| Inspector.HeaderRowSkipped | src/mond.py:42 | a line not starting with a space contributes nothing |
| Inspector.ActiveRow | src/mond.py:42-45 | an indented row ending in a space and then a space-free NAME yields NAME |
| Inspector.SampleActiveReport | src/test_mond.py:131-133 | the test's active-monitor report yields exactly `["DP-0", "DP-2"]` |
| Docking.IsDocked | src/mond.py:67-73 | the loop with its early exit answers exactly `Docked`: every connected output is in `ConfigNames` and there are as many outputs as entries |
| Docking.DockedMonitors | src/mond.py:57-65 | the loop returns exactly `KeepDocked` of the connected outputs over `DockedNames`: those some entry marks docked, in order |
| Docking.KeepDockedAppend | src/mond.py:62-64 | filtering distributes over concatenation |
| Docking.KeepDockedCount | src/mond.py:62-64 | a docked name keeps its multiplicity, and any other name disappears |
| Docking.KeepDockedMembers | src/mond.py:62-64 | a name survives the filter if and only if it is connected and marked docked |
| Docking.KeepDockedIsSubsequence | src/mond.py:62-64 | the filter keeps the connected outputs in their report order |
| Docking.ConfigNamesBound | src/mond.py:68 | the configured name set is no larger than the configuration |
| Docking.DistinctConfigNames | src/mond.py:68 | with distinct entry names the name set is as large as the configuration |
| Docking.DockedWhenExactlyConfiguredConnected | src/mond.py:67-73 | distinct connected outputs naming exactly the distinct configured entries mean docked |
| Docking.UndockedWhenConfiguredMonitorMissing | src/mond.py:67-73 | connected outputs forming a strict subset of the configured names mean not docked |
| Docking.UndockedWhenUnknownMonitor | src/mond.py:70-72 | one connected output that no entry names means not docked |
| Docking.DockedMeansExactlyConfigured | src/mond.py:67-73 | with distinct names on both sides, docked implies the connected names are exactly the configured names |
| Docking.DockedScenario | src/test_mond.py:87-133 | both configured monitors connected: docked, and both pass the docked filter |
| Docking.UndockedScenario | src/test_mond.py:175-243 | one configured monitor with two connected: not docked, and only DP-0 passes the filter |
| Docking.DockedLaptopScenario | src/mond.py:57-73 | a panel not marked docked plus a docked monitor, both connected: docked, and only the monitor passes the filter |
| Docking.DockedWithPanelScenario | src/mond.py:57-73 | a panel configured between two docked monitors: docked, and the panel is filtered out |
| Layout.ValidMonitors | src/mond.py:79-81 | an output may be switched on if and only if it is connected and, when docked, marked docked; the valid outputs keep report order |
| Layout.ValidCountZero | src/mond.py:76-94 | the `found` counter is 0 at entry `i` if and only if no earlier entry was valid |
| Layout.LayoutPerEntry | src/mond.py:84-98 | `Layout` holds one `DirectiveFor` per entry, for that entry's output, switching it on if and only if its name is valid |
| Layout.RenderAppend | src/mond.py:86-98 | rendering one more directive appends exactly its `Tokens` group |
| Layout.ParseRender | src/mond.py:86-98 | the rendered argument list parses back into the same directives |
| Layout.CommandGroups | src/mond.py:77-99 | the command starts with `xrandr` and the rest parses into the layout's directives |
| Layout.PrimaryIsFirstValid | src/mond.py:89-90 | entry `i` is primary if and only if it is valid and no earlier entry is |
| Layout.AtMostOnePrimary | src/mond.py:89-94 | once an entry is primary, no other entry is |
| Layout.PrimaryExists | src/mond.py:84-94 | some output is primary if and only if some entry is valid |
| Layout.RightOfPrevious | src/mond.py:91-99 | a valid entry after an earlier valid one is placed right of the entry just before it |
| Layout.BuildStep | src/mond.py:85-99 | one loop step appends the off group, the primary group or the right-of group, as `found` and `last` select, to the command for the earlier entries, giving the command rendered from the `Layout` directives of the first `i + 1` entries |
| Layout.BuildCommand | src/mond.py:75-99 | the builder's classification and loop return exactly `Command(monitors, config)`: `xrandr` followed by the rendered `Layout` of the `ValidMonitors` |
| Layout.BuildCommandFor | src/mond.py:76-99 | the loop over the configuration returns `xrandr` followed by the rendered layout |
| Layout.DockedPairCommand | src/test_mond.py:87-133 | the docked test setup gives `xrandr --output DP-0 --auto --primary --output DP-2 --auto --right-of DP-0` |
| Layout.UndockedCommand | src/test_mond.py:175-243 | the undocked test setup gives `xrandr --output DP-0 --auto --primary` |
| Layout.NothingConnectedCommand | src/mond.py:79-98 | with nothing connected every configured output is switched off |
| Layout.DockedLaptopCommand | src/mond.py:79-99 | docked with an unmarked panel: the panel is off and the monitor is primary |
| Layout.LaptopLayout | src/mond.py:84-98 | the argument groups for that docked laptop layout |
| Layout.ChainPastDisabledCommand | src/mond.py:79-99 | docked with an unmarked panel between two monitors: the second monitor is right of the switched-off panel |
| Layout.ChainLayout | src/mond.py:84-99 | the argument groups for that chained layout |
| Executor.Daemon.constructor | src/mond.py:19 | a new daemon has run nothing and remembers no command |
| Executor.Daemon.FixMonitors | src/mond.py:75-111 | builds `Command`; an equal cached command runs nothing and reports success; a new one is run, cached whatever its exit code, and reported as success exactly when that code is 0; no command is ever run twice in a row |
| Executor.RepeatedPoll | src/mond.py:101-111 | two polls with the same inputs run at most one command, and the second reports success |
| Executor.FirstPoll | src/mond.py:101-111 | a fresh daemon always runs its first command and reports that command's exit status |

## Left out

- The xrandr subprocesses and their error path (src/mond.py:24-36, 106-108): the parsers take
  the report lines as input, and the command's exit code is a parameter of `FixMonitors`.
  `ProcessError` is not modelled.
- `splitlines` and UTF-8 decoding: the reports are given as a sequence of lines.
- `do_manage`, `parse_arguments`, `main`, configuration loading and JSON parsing, the
  home-directory lookup, daemonising, signal handling, sleeping between polls and logging: these
  are I/O and process control around the core.
- Malformed configuration entries (missing `name` or `docked` keys raise in the source): a
  configuration entry is a typed `Entry`.
- Inspector.GetActiveMonitors: requires every report line to be non-empty. The source raises on
  an empty line (src/mond.py:42), and the model does not model that exception.
- Layout.BuildCommand: requires a non-empty configuration. The source raises at `config[0]`
  (src/mond.py:83), and the model does not model that exception.
- Executor.Daemon.FixMonitors: requires a non-empty configuration, for the same reason.
- Inspector.SampleReport: the screen line and the mode lines of the test report are parameters,
  with the properties the parser depends on. Its header lines are the literal ones.
- Executor.Daemon.FixMonitors: the `active` list is accepted and never used, as in the source.
  No property about it is stated.
