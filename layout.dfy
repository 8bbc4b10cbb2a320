/**
 * The layout reconciler inside fix_monitors (mond.py:75-99): which outputs to switch on, where to
 * place them, and the xrandr command line that says so.
 */
module Layout {
  import opened Wrappers
  import opened Docking

  /** Where an enabled output goes: it is the primary one, or it sits right of another output. */
  datatype Role = Primary | RightOf(neighbour: string)

  /** What the command says about one configured output. */
  datatype Directive = Enable(output: string, role: Role) | Disable(output: string)

  /**
   * The outputs that may be switched on (mond.py:79-81): when docked, only the connected outputs
   * some entry marks docked; otherwise every connected output.
   */
  function ValidMonitors(monitors: seq<string>, config: seq<Entry>): (valid: seq<string>)
    ensures forall m :: m in valid <==> m in monitors && (Docked(monitors, config) ==> m in DockedNames(config))
    ensures IsSubsequence(valid, monitors)
  {
    KeepDockedMembers(monitors, DockedNames(config));
    KeepDockedIsSubsequence(monitors, DockedNames(config));
    SubsequenceReflexive(monitors);
    if Docked(monitors, config) then KeepDocked(monitors, DockedNames(config)) else monitors
  }

  /** How many of the first `i` entries name a valid output: the source's `found` after `i` steps. */
  function ValidCount(valid: seq<string>, config: seq<Entry>, i: nat): nat
    requires i <= |config|
  {
    if i == 0 then 0
    else ValidCount(valid, config, i - 1) + (if config[i - 1].name in valid then 1 else 0)
  }

  /** No entry before `i` is valid exactly when the count so far is zero. */
  lemma {:induction false} ValidCountZero(valid: seq<string>, config: seq<Entry>, i: nat)
    requires i <= |config|
    ensures ValidCount(valid, config, i) == 0 <==> forall j :: 0 <= j < i ==> config[j].name !in valid
  {
    if i > 0 {
      ValidCountZero(valid, config, i - 1);
    }
  }

  /**
   * The directive for entry `i` (mond.py:85-98): off unless its name is valid; the first valid
   * entry is primary; every later valid one is right of the entry just before it in the
   * configuration, whether that one is on or off (mond.py:99).
   */
  function DirectiveFor(valid: seq<string>, config: seq<Entry>, i: nat): Directive
    requires i < |config|
  {
    var name := config[i].name;
    if name !in valid then Disable(name)
    else if ValidCount(valid, config, i) == 0 then Enable(name, Primary)
    else Enable(name, RightOf(config[i - 1].name))
  }

  /** The directives for the whole configuration, in configuration order. */
  function Layout(valid: seq<string>, config: seq<Entry>): seq<Directive>
  {
    seq(|config|, i requires 0 <= i < |config| => DirectiveFor(valid, config, i))
  }

  /** Exactly one directive per configuration entry, in order; an entry is switched on iff it is valid. */
  lemma LayoutPerEntry(valid: seq<string>, config: seq<Entry>)
    ensures |Layout(valid, config)| == |config|
    ensures forall i :: 0 <= i < |config| ==> Layout(valid, config)[i].output == config[i].name
    ensures forall i :: 0 <= i < |config| ==> (Layout(valid, config)[i].Enable? <==> config[i].name in valid)
  {
  }

  /** The xrandr arguments for one directive (mond.py:86-98). */
  function Tokens(d: Directive): seq<string>
  {
    match d
    case Disable(name) => ["--output", name, "--off"]
    case Enable(name, Primary) => ["--output", name, "--auto", "--primary"]
    case Enable(name, RightOf(other)) => ["--output", name, "--auto", "--right-of", other]
  }

  /** The xrandr arguments for a sequence of directives, in order. */
  function Render(ds: seq<Directive>): seq<string>
  {
    if ds == [] then [] else Tokens(ds[0]) + Render(ds[1..])
  }

  /** Rendering one more directive appends its arguments. */
  lemma {:induction false} RenderAppend(ds: seq<Directive>, d: Directive)
    ensures Render(ds + [d]) == Render(ds) + Tokens(d)
  {
    if ds == [] {
      assert [d][1..] == [];
    } else {
      assert (ds + [d])[1..] == ds[1..] + [d];
      RenderAppend(ds[1..], d);
    }
  }

  /** The command fix_monitors builds (mond.py:77-99). */
  function Command(monitors: seq<string>, config: seq<Entry>): seq<string>
  {
    ["xrandr"] + Render(Layout(ValidMonitors(monitors, config), config))
  }

  /** Reads an argument list back into directives; None when it is not a sequence of output groups. */
  function Parse(tokens: seq<string>): Option<seq<Directive>>
    decreases |tokens|
  {
    if tokens == [] then Some([])
    else if |tokens| < 3 || tokens[0] != "--output" then None
    else
      var name := tokens[1];
      if tokens[2] == "--off" then Cons(Disable(name), Parse(tokens[3..]))
      else if tokens[2] != "--auto" || |tokens| < 4 then None
      else if tokens[3] == "--primary" then Cons(Enable(name, Primary), Parse(tokens[4..]))
      else if tokens[3] == "--right-of" && |tokens| >= 5 then Cons(Enable(name, RightOf(tokens[4])), Parse(tokens[5..]))
      else None
  }

  /** Puts `d` in front of a parsed tail, if the tail parsed. */
  function Cons(d: Directive, rest: Option<seq<Directive>>): Option<seq<Directive>>
  {
    match rest
    case None => None
    case Some(ds) => Some([d] + ds)
  }

  /** The argument list determines the directives, whatever the output names are. */
  lemma {:induction false} ParseRender(ds: seq<Directive>)
    ensures Parse(Render(ds)) == Some(ds)
  {
    if ds != [] {
      var t, rest := Tokens(ds[0]), Render(ds[1..]);
      ParseRender(ds[1..]);
      assert (t + rest)[|t|..] == rest;
      assert [ds[0]] + ds[1..] == ds;
    }
  }

  /**
   * The command is "xrandr" followed by exactly one group per configuration entry, in order, and
   * each group says what Layout says about that entry.
   */
  lemma CommandGroups(monitors: seq<string>, config: seq<Entry>)
    ensures Command(monitors, config)[0] == "xrandr"
    ensures Parse(Command(monitors, config)[1..]) == Some(Layout(ValidMonitors(monitors, config), config))
  {
    var ds := Layout(ValidMonitors(monitors, config), config);
    ParseRender(ds);
    assert Command(monitors, config)[1..] == Render(ds);
  }

  /** The primary output is the first configured entry whose name is valid, and no other. */
  lemma PrimaryIsFirstValid(valid: seq<string>, config: seq<Entry>, i: nat)
    requires i < |config|
    ensures Layout(valid, config)[i] == Enable(config[i].name, Primary) <==>
            config[i].name in valid && forall j :: 0 <= j < i ==> config[j].name !in valid
  {
    ValidCountZero(valid, config, i);
  }

  /** The directive switches its output on as the primary one. */
  predicate IsPrimary(d: Directive)
  {
    d.Enable? && d.role == Primary
  }

  /** At most one output is primary: once entry `i` is, no other entry is. */
  lemma AtMostOnePrimary(valid: seq<string>, config: seq<Entry>, i: nat)
    requires i < |config| && IsPrimary(Layout(valid, config)[i])
    ensures forall j :: 0 <= j < |config| && j != i ==> !IsPrimary(Layout(valid, config)[j])
  {
    ValidCountZero(valid, config, i);
    forall j | 0 <= j < |config| && j != i ensures !IsPrimary(Layout(valid, config)[j]) {
      ValidCountZero(valid, config, j);
      if j < i {
        assert config[j].name !in valid;
      } else {
        assert config[i].name in valid;
      }
    }
  }

  /** Some output is primary exactly when some configured entry is valid. */
  lemma PrimaryExists(valid: seq<string>, config: seq<Entry>)
    ensures (exists i :: 0 <= i < |config| && IsPrimary(Layout(valid, config)[i])) <==>
            (exists i :: 0 <= i < |config| && config[i].name in valid)
  {
    if k :| 0 <= k < |config| && config[k].name in valid {
      var m := FirstValid(valid, config, k);
      ValidCountZero(valid, config, m);
      assert IsPrimary(Layout(valid, config)[m]);
    }
  }

  /** The first valid entry at or before `k`. */
  lemma {:induction false} FirstValid(valid: seq<string>, config: seq<Entry>, k: nat) returns (m: nat)
    requires k < |config| && config[k].name in valid
    ensures m <= k && config[m].name in valid && forall j :: 0 <= j < m ==> config[j].name !in valid
  {
    if j :| 0 <= j < k && config[j].name in valid {
      m := FirstValid(valid, config, j);
    } else {
      m := k;
    }
  }

  /**
   * Every valid entry after the first is placed right of the entry just before it in the
   * configuration, whether that entry is switched on or not.
   */
  lemma RightOfPrevious(valid: seq<string>, config: seq<Entry>, i: nat, j: nat)
    requires j < i < |config| && config[j].name in valid && config[i].name in valid
    ensures Layout(valid, config)[i] == Enable(config[i].name, RightOf(config[i - 1].name))
  {
    ValidCountZero(valid, config, i);
  }

  /**
   * One step of the builder: appending the arguments for entry `i`, chosen from the `found`
   * counter and the `last` name, extends the command for the first `i` entries to the first `i + 1`.
   */
  lemma BuildStep(valid: seq<string>, config: seq<Entry>, i: nat, found: nat, last: string, before: seq<string>)
    requires i < |config|
    requires found == ValidCount(valid, config, i)
    requires 0 < i ==> last == config[i - 1].name
    requires before == ["xrandr"] + Render(Layout(valid, config)[..i])
    ensures var name := config[i].name;
            ["xrandr"] + Render(Layout(valid, config)[..i + 1]) ==
            if name !in valid then before + ["--output", name, "--off"]
            else if found == 0 then before + ["--output", name, "--auto"] + ["--primary"]
            else before + ["--output", name, "--auto"] + ["--right-of", last]
  {
    var ds := Layout(valid, config);
    assert ds[..i + 1] == ds[..i] + [ds[i]];
    RenderAppend(ds[..i], ds[i]);
  }

  /**
   * fix_monitors' command builder (mond.py:76-99): classify the connected outputs, then build the
   * command from the valid ones.
   */
  method BuildCommand(monitors: seq<string>, config: seq<Entry>) returns (cmd: seq<string>)
    requires |config| > 0
    ensures cmd == Command(monitors, config)
  {
    var valid := monitors;
    var docked := IsDocked(monitors, config);
    if docked {
      valid := DockedMonitors(monitors, config);
    }
    assert valid == ValidMonitors(monitors, config);
    cmd := BuildCommandFor(valid, config);
  }

  /**
   * The loop of fix_monitors (mond.py:76-77, 83-99): walk the configuration, counting the outputs
   * switched on in `found` and remembering the previous entry's name in `last`.
   */
  method BuildCommandFor(valid: seq<string>, config: seq<Entry>) returns (cmd: seq<string>)
    requires |config| > 0
    ensures cmd == ["xrandr"] + Render(Layout(valid, config))
  {
    var found := 0;
    cmd := ["xrandr"];
    var last := config[0].name;
    for i := 0 to |config|
      invariant cmd == ["xrandr"] + Render(Layout(valid, config)[..i])
      invariant found == ValidCount(valid, config, i)
      invariant 0 < i ==> last == config[i - 1].name
    {
      BuildStep(valid, config, i, found, last, cmd);
      var name := config[i].name;
      if name in valid {
        cmd := cmd + ["--output", name, "--auto"];
        if found == 0 {
          cmd := cmd + ["--primary"];
        } else {
          cmd := cmd + ["--right-of", last];
        }
        found := found + 1;
      } else {
        cmd := cmd + ["--output", name, "--off"];
      }
      last := name;
    }
    assert Layout(valid, config)[..|config|] == Layout(valid, config);
  }

  /** Render of a two-directive list, spelled out. */
  lemma RenderTwo(a: Directive, b: Directive)
    ensures Render([a, b]) == Tokens(a) + Tokens(b)
  {
    assert [a, b][1..] == [b];
    assert [b][1..] == [];
    assert Render([b]) == Tokens(b) + Render([]);
  }

  /** Render of a three-directive list, spelled out. */
  lemma RenderThree(a: Directive, b: Directive, c: Directive)
    ensures Render([a, b, c]) == Tokens(a) + Tokens(b) + Tokens(c)
  {
    assert [a, b, c][1..] == [b, c];
    RenderTwo(b, c);
  }

  /**
   * Both configured monitors connected (src/test_mond.py:97-133): docked, so the docked-marked
   * outputs are valid; DP-0 is primary and DP-2 sits right of it.
   */
  lemma DockedPairCommand()
    ensures Command(["DP-0", "DP-2"], [Entry("DP-0", true), Entry("DP-2", true)]) ==
            ["xrandr", "--output", "DP-0", "--auto", "--primary", "--output", "DP-2", "--auto", "--right-of", "DP-0"]
  {
    var monitors, config := ["DP-0", "DP-2"], [Entry("DP-0", true), Entry("DP-2", true)];
    DockedScenario();
    assert ValidMonitors(monitors, config) == monitors;
    assert ValidCount(monitors, config, 1) == 1;
    var ds := Layout(monitors, config);
    assert ds == [Enable("DP-0", Primary), Enable("DP-2", RightOf("DP-0"))];
    RenderTwo(ds[0], ds[1]);
  }

  /**
   * One configured monitor, two connected (src/test_mond.py:175-243): not docked, so every
   * connected output is valid, and only the configured DP-0 gets a group.
   */
  lemma UndockedCommand()
    ensures Command(["DP-0", "DP-2"], [Entry("DP-0", true)]) == ["xrandr", "--output", "DP-0", "--auto", "--primary"]
  {
    var monitors, config := ["DP-0", "DP-2"], [Entry("DP-0", true)];
    UndockedScenario();
    var ds := Layout(monitors, config);
    assert ds == [Enable("DP-0", Primary)];
    assert ds[1..] == [];
  }

  /** Nothing connected: not docked, nothing valid, every configured output is switched off. */
  lemma NothingConnectedCommand()
    ensures Command([], [Entry("DP-0", true), Entry("DP-2", false)]) ==
            ["xrandr", "--output", "DP-0", "--off", "--output", "DP-2", "--off"]
  {
    var config := [Entry("DP-0", true), Entry("DP-2", false)];
    assert !Docked([], config);
    var ds := Layout([], config);
    assert ds == [Disable("DP-0"), Disable("DP-2")];
    RenderTwo(ds[0], ds[1]);
  }

  /**
   * A laptop panel not marked docked and an external monitor marked docked, both connected: docked,
   * so only the external monitor is switched on, and it is primary.
   */
  lemma DockedLaptopCommand()
    ensures Command(["eDP-1", "DP-0"], [Entry("eDP-1", false), Entry("DP-0", true)]) ==
            ["xrandr", "--output", "eDP-1", "--off", "--output", "DP-0", "--auto", "--primary"]
  {
    var config := [Entry("eDP-1", false), Entry("DP-0", true)];
    DockedLaptopScenario();
    var valid := ["DP-0"];
    assert ValidMonitors(["eDP-1", "DP-0"], config) == valid;
    LaptopLayout();
  }

  /** The directives for the docked laptop above. */
  lemma LaptopLayout()
    ensures Render(Layout(["DP-0"], [Entry("eDP-1", false), Entry("DP-0", true)])) ==
            ["--output", "eDP-1", "--off", "--output", "DP-0", "--auto", "--primary"]
  {
    var valid, config := ["DP-0"], [Entry("eDP-1", false), Entry("DP-0", true)];
    assert ValidCount(valid, config, 1) == 0;
    var ds := Layout(valid, config);
    assert ds == [Disable("eDP-1"), Enable("DP-0", Primary)];
    RenderTwo(ds[0], ds[1]);
  }

  /**
   * Chaining follows the configuration, not the enabled outputs: when docked with an undocked
   * panel configured between two docked monitors, the second monitor is placed right of the
   * panel, which is switched off (mond.py:99).
   */
  lemma ChainPastDisabledCommand()
    ensures Command(["DP-0", "eDP-1", "DP-2"], [Entry("DP-0", true), Entry("eDP-1", false), Entry("DP-2", true)]) ==
            ["xrandr", "--output", "DP-0", "--auto", "--primary", "--output", "eDP-1", "--off",
             "--output", "DP-2", "--auto", "--right-of", "eDP-1"]
  {
    var config := [Entry("DP-0", true), Entry("eDP-1", false), Entry("DP-2", true)];
    DockedWithPanelScenario();
    assert ValidMonitors(["DP-0", "eDP-1", "DP-2"], config) == ["DP-0", "DP-2"];
    ChainLayout();
  }

  /** The directives for the docked configuration above. */
  lemma ChainLayout()
    ensures Render(Layout(["DP-0", "DP-2"], [Entry("DP-0", true), Entry("eDP-1", false), Entry("DP-2", true)])) ==
            ["--output", "DP-0", "--auto", "--primary", "--output", "eDP-1", "--off",
             "--output", "DP-2", "--auto", "--right-of", "eDP-1"]
  {
    var valid := ["DP-0", "DP-2"];
    var config := [Entry("DP-0", true), Entry("eDP-1", false), Entry("DP-2", true)];
    assert ValidCount(valid, config, 1) == 1;
    assert ValidCount(valid, config, 2) == 1;
    var ds := Layout(valid, config);
    assert ds == [Enable("DP-0", Primary), Disable("eDP-1"), Enable("DP-2", RightOf("eDP-1"))];
    RenderThree(ds[0], ds[1], ds[2]);
  }
}
