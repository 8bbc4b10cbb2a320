/**
 * The docking classifier (mond.py:57-73): whether the connected outputs match the configuration,
 * and which connected outputs the configuration marks as docked.
 */
module Docking {

  /** One configured monitor: `{"name": ..., "docked": ...}` in the JSON configuration. */
  datatype Entry = Entry(name: string, docked: bool)

  /** The set of configured names (mond.py:68). */
  function ConfigNames(config: seq<Entry>): set<string>
  {
    set e | e in config :: e.name
  }

  /** The set of names some entry marks `docked` (mond.py:58-60). */
  function DockedNames(config: seq<Entry>): set<string>
  {
    set e | e in config && e.docked :: e.name
  }

  /** No element occurs twice. */
  predicate Distinct(s: seq<string>)
  {
    forall i, j :: 0 <= i < j < |s| ==> s[i] != s[j]
  }

  /** No name is configured twice. */
  predicate DistinctNames(config: seq<Entry>)
  {
    forall i, j :: 0 <= i < j < |config| ==> config[i].name != config[j].name
  }

  /** The elements of a sequence, as a set. */
  function Elements(s: seq<string>): set<string>
  {
    set x | x in s
  }

  /**
   * The machine counts as docked when every connected output is configured and there are as many
   * connected outputs as configuration entries (mond.py:67-73).
   */
  predicate Docked(monitors: seq<string>, config: seq<Entry>)
  {
    (forall i :: 0 <= i < |monitors| ==> monitors[i] in ConfigNames(config)) && |monitors| == |config|
  }

  /** is_docked (mond.py:67-73): stops at the first connected output that is not configured. */
  method IsDocked(monitors: seq<string>, config: seq<Entry>) returns (docked: bool)
    ensures docked <==> Docked(monitors, config)
  {
    var configSet := ConfigNames(config);
    for i := 0 to |monitors|
      invariant forall j :: 0 <= j < i ==> monitors[j] in configSet
    {
      if monitors[i] !in configSet {
        return false;
      }
    }
    return |monitors| == |config|;
  }

  /** What `docked_monitors` returns: the outputs whose name is in `docked`, in input order. */
  function KeepDocked(monitors: seq<string>, docked: set<string>): seq<string>
  {
    if monitors == [] then []
    else
      var m := monitors[|monitors| - 1];
      KeepDocked(monitors[..|monitors| - 1], docked) + (if m in docked then [m] else [])
  }

  /** docked_monitors (mond.py:57-65): the connected outputs some entry marks docked. */
  method DockedMonitors(monitors: seq<string>, config: seq<Entry>) returns (output: seq<string>)
    ensures output == KeepDocked(monitors, DockedNames(config))
  {
    var docked := DockedNames(config);
    output := [];
    for i := 0 to |monitors|
      invariant output == KeepDocked(monitors[..i], docked)
    {
      assert monitors[..i + 1][..i] == monitors[..i];
      if monitors[i] in docked {
        output := output + [monitors[i]];
      }
    }
    assert monitors[..|monitors|] == monitors;
  }

  /** Input order is kept: filtering a concatenation filters each part in turn. */
  lemma {:induction false} KeepDockedAppend(a: seq<string>, b: seq<string>, docked: set<string>)
    ensures KeepDocked(a + b, docked) == KeepDocked(a, docked) + KeepDocked(b, docked)
    decreases |b|
  {
    if b == [] {
      assert a + b == a;
    } else {
      var b' := b[..|b| - 1];
      assert (a + b)[..|a + b| - 1] == a + b';
      KeepDockedAppend(a, b', docked);
    }
  }

  /** Duplicates are kept: a docked name occurs as often as in the input, any other name never. */
  lemma {:induction false} KeepDockedCount(monitors: seq<string>, docked: set<string>, m: string)
    ensures multiset(KeepDocked(monitors, docked))[m] == if m in docked then multiset(monitors)[m] else 0
  {
    if monitors != [] {
      var init := monitors[..|monitors| - 1];
      KeepDockedCount(init, docked, m);
      assert monitors == init + [monitors[|monitors| - 1]];
    }
  }

  /** An output is kept exactly when it is connected and its name is docked. */
  lemma KeepDockedMembers(monitors: seq<string>, docked: set<string>)
    ensures forall m :: m in KeepDocked(monitors, docked) <==> m in monitors && m in docked
  {
    forall m ensures m in KeepDocked(monitors, docked) <==> m in monitors && m in docked {
      KeepDockedCount(monitors, docked, m);
    }
  }

  /** `a` is `b` with some elements left out, order kept. */
  predicate IsSubsequence(a: seq<string>, b: seq<string>)
    decreases |b|
  {
    if a == [] then true
    else if b == [] then false
    else if a[|a| - 1] == b[|b| - 1] then IsSubsequence(a[..|a| - 1], b[..|b| - 1])
    else IsSubsequence(a, b[..|b| - 1])
  }

  /** Every sequence is a subsequence of itself. */
  lemma {:induction false} SubsequenceReflexive(s: seq<string>)
    ensures IsSubsequence(s, s)
  {
    if s != [] {
      SubsequenceReflexive(s[..|s| - 1]);
    }
  }

  /** The docked outputs are a subsequence of the connected ones. */
  lemma {:induction false} KeepDockedIsSubsequence(monitors: seq<string>, docked: set<string>)
    ensures IsSubsequence(KeepDocked(monitors, docked), monitors)
  {
    if monitors != [] {
      var init := monitors[..|monitors| - 1];
      var m := monitors[|monitors| - 1];
      KeepDockedIsSubsequence(init, docked);
      var r := KeepDocked(monitors, docked);
      if m in docked {
        assert r[..|r| - 1] == KeepDocked(init, docked);
      } else {
        assert r == KeepDocked(init, docked);
        if r != [] {
          SubsequenceExtend(r, init, m);
        }
      }
    }
  }

  /** A subsequence of `b` is a subsequence of `b + [x]`. */
  lemma {:induction false} SubsequenceExtend(a: seq<string>, b: seq<string>, x: string)
    requires IsSubsequence(a, b)
    ensures IsSubsequence(a, b + [x])
    decreases |b|, 1
  {
    assert (b + [x])[..|b + [x]| - 1] == b;
    if a != [] && a[|a| - 1] == x {
      SubsequenceDropLast(a, b);
    }
  }

  /** Dropping the last element of a subsequence keeps it a subsequence. */
  lemma {:induction false} SubsequenceDropLast(a: seq<string>, b: seq<string>)
    requires a != [] && IsSubsequence(a, b)
    ensures IsSubsequence(a[..|a| - 1], b)
    decreases |b|, 0
  {
    var b', y := b[..|b| - 1], b[|b| - 1];
    assert b' + [y] == b;
    if a[|a| - 1] != y {
      SubsequenceDropLast(a, b');
    }
    SubsequenceExtend(a[..|a| - 1], b', y);
  }

  /** A sequence without repeats has as many distinct elements as it is long. */
  lemma {:induction false} DistinctElements(s: seq<string>)
    requires Distinct(s)
    ensures |Elements(s)| == |s|
  {
    if s != [] {
      var init, x := s[..|s| - 1], s[|s| - 1];
      assert Distinct(init);
      DistinctElements(init);
      assert s == init + [x];
      assert Elements(s) == Elements(init) + {x};
      assert x !in Elements(init);
    }
  }

  /** There are never more configured names than entries. */
  lemma {:induction false} ConfigNamesBound(config: seq<Entry>)
    ensures |ConfigNames(config)| <= |config|
  {
    if config != [] {
      var init, e := config[..|config| - 1], config[|config| - 1];
      ConfigNamesBound(init);
      assert config == init + [e];
      assert ConfigNames(config) == ConfigNames(init) + {e.name};
    }
  }

  /** With no name configured twice, there are exactly as many names as entries. */
  lemma {:induction false} DistinctConfigNames(config: seq<Entry>)
    requires DistinctNames(config)
    ensures |ConfigNames(config)| == |config|
  {
    if config != [] {
      var init, e := config[..|config| - 1], config[|config| - 1];
      assert DistinctNames(init);
      DistinctConfigNames(init);
      assert config == init + [e];
      assert ConfigNames(config) == ConfigNames(init) + {e.name};
      assert e.name !in ConfigNames(init);
    }
  }

  /** Connecting exactly the configured monitors, each once, is docked. */
  lemma DockedWhenExactlyConfiguredConnected(monitors: seq<string>, config: seq<Entry>)
    requires Distinct(monitors) && DistinctNames(config)
    requires Elements(monitors) == ConfigNames(config)
    ensures Docked(monitors, config)
  {
    DistinctElements(monitors);
    DistinctConfigNames(config);
    assert forall i :: 0 <= i < |monitors| ==> monitors[i] in Elements(monitors);
  }

  /** Connecting only some of the configured monitors is not docked. */
  lemma UndockedWhenConfiguredMonitorMissing(monitors: seq<string>, config: seq<Entry>)
    requires Distinct(monitors)
    requires Elements(monitors) < ConfigNames(config)
    ensures !Docked(monitors, config)
  {
    DistinctElements(monitors);
    ConfigNamesBound(config);
    var e, c := Elements(monitors), ConfigNames(config);
    assert !(c <= e);
    var x :| x in c && x !in e;
    assert |c - e| >= |{x}|;
    assert |c - e| == |c| - |e|;
  }

  /** Connecting a monitor the configuration does not name is not docked. */
  lemma UndockedWhenUnknownMonitor(monitors: seq<string>, config: seq<Entry>, m: string)
    requires m in monitors && m !in ConfigNames(config)
    ensures !Docked(monitors, config)
  {
    var i :| 0 <= i < |monitors| && monitors[i] == m;
  }

  /** Conversely, when names are unique on both sides, docked means exactly the configured monitors are connected. */
  lemma DockedMeansExactlyConfigured(monitors: seq<string>, config: seq<Entry>)
    requires Distinct(monitors) && DistinctNames(config)
    requires Docked(monitors, config)
    ensures Elements(monitors) == ConfigNames(config)
  {
    DistinctElements(monitors);
    DistinctConfigNames(config);
    var e, c := Elements(monitors), ConfigNames(config);
    assert e <= c by {
      forall x | x in e ensures x in c {
        var i :| 0 <= i < |monitors| && monitors[i] == x;
      }
    }
    assert |c - e| == |c| - |e|;
  }

  /** The two-monitor configuration of src/test_mond.py with both outputs connected is docked. */
  lemma DockedScenario()
    ensures Docked(["DP-0", "DP-2"], [Entry("DP-0", true), Entry("DP-2", true)])
    ensures KeepDocked(["DP-0", "DP-2"], DockedNames([Entry("DP-0", true), Entry("DP-2", true)])) == ["DP-0", "DP-2"]
  {
    var config := [Entry("DP-0", true), Entry("DP-2", true)];
    assert config[0] in config && config[1] in config;
    var ms := ["DP-0", "DP-2"];
    assert ms[..1][..0] == [] && ms[..1] == ["DP-0"];
  }

  /** One configured monitor and two connected ones is not docked (src/test_mond.py:175-243). */
  lemma UndockedScenario()
    ensures !Docked(["DP-0", "DP-2"], [Entry("DP-0", true)])
    ensures KeepDocked(["DP-0", "DP-2"], DockedNames([Entry("DP-0", true)])) == ["DP-0"]
  {
    var config := [Entry("DP-0", true)];
    assert config[0] in config;
    assert DockedNames(config) == {"DP-0"};
    var ms := ["DP-0", "DP-2"];
    assert ms[..1][..0] == [] && ms[..1] == ["DP-0"];
  }

  /** A laptop panel not marked docked and an external monitor marked docked, both connected, is docked. */
  lemma DockedLaptopScenario()
    ensures Docked(["eDP-1", "DP-0"], [Entry("eDP-1", false), Entry("DP-0", true)])
    ensures KeepDocked(["eDP-1", "DP-0"], DockedNames([Entry("eDP-1", false), Entry("DP-0", true)])) == ["DP-0"]
  {
    var monitors, config := ["eDP-1", "DP-0"], [Entry("eDP-1", false), Entry("DP-0", true)];
    assert config[0] in config && config[1] in config;
    assert DockedNames(config) == {"DP-0"};
    assert monitors[..1][..0] == [] && monitors[..1] == ["eDP-1"];
    assert KeepDocked(monitors[..1], {"DP-0"}) == [];
  }

  /** Two docked monitors with an undocked panel between them in the configuration, all connected, is docked. */
  lemma DockedWithPanelScenario()
    ensures Docked(["DP-0", "eDP-1", "DP-2"], [Entry("DP-0", true), Entry("eDP-1", false), Entry("DP-2", true)])
    ensures KeepDocked(["DP-0", "eDP-1", "DP-2"],
                       DockedNames([Entry("DP-0", true), Entry("eDP-1", false), Entry("DP-2", true)])) == ["DP-0", "DP-2"]
  {
    var monitors := ["DP-0", "eDP-1", "DP-2"];
    var config := [Entry("DP-0", true), Entry("eDP-1", false), Entry("DP-2", true)];
    assert config[0] in config && config[1] in config && config[2] in config;
    var docked := {"DP-0", "DP-2"};
    assert DockedNames(config) == docked;
    assert monitors[..2][..1][..0] == [] && monitors[..2][..1] == ["DP-0"] && monitors[..2] == ["DP-0", "eDP-1"];
    assert KeepDocked(monitors[..2][..1], docked) == ["DP-0"];
    assert KeepDocked(monitors[..2], docked) == ["DP-0"];
  }
}
