/**
 * The command cache and executor at the end of fix_monitors (mond.py:19, 101-111): the command is
 * handed to xrandr only when it differs from the last one handed over. The xrandr process is not
 * modelled; its exit code is a parameter.
 */
module Executor {
  import opened Wrappers
  import opened Docking
  import opened Layout

  /** No command follows an identical one. */
  predicate NoRepeats(cmds: seq<seq<string>>)
  {
    forall i :: 0 < i < |cmds| ==> cmds[i] != cmds[i - 1]
  }

  /** The daemon's state across polls: the module-level `last_cmd` of the source. */
  class Daemon {
    /** The last command handed to xrandr; None before the first one (mond.py:19). */
    var lastCmd: Option<seq<string>>
    /** Every command handed to xrandr so far, oldest first. */
    ghost var executed: seq<seq<string>>

    /** `lastCmd` is the most recent command handed over, and none was handed over twice in a row. */
    ghost predicate Valid()
      reads this
    {
      (lastCmd == None <==> executed == []) &&
      (executed != [] ==> lastCmd == Some(executed[|executed| - 1])) &&
      NoRepeats(executed)
    }

    /** A daemon that has not run any command yet. */
    constructor ()
      ensures Valid() && lastCmd == None && executed == []
    {
      lastCmd := None;
      executed := [];
    }

    /**
     * fix_monitors (mond.py:75-111): build the command; when it equals the last one, run nothing
     * and report success; otherwise run it, remember it whatever its exit code `rc`, and report
     * whether `rc` is 0. `active` is accepted and never used, as in the source.
     */
    method FixMonitors(monitors: seq<string>, active: seq<string>, config: seq<Entry>, rc: int) returns (ok: bool)
      requires Valid() && |config| > 0
      modifies this
      ensures Valid()
      ensures var cmd := Command(monitors, config);
              if old(lastCmd) == Some(cmd) then
                lastCmd == old(lastCmd) && executed == old(executed) && ok
              else
                lastCmd == Some(cmd) && executed == old(executed) + [cmd] && ok == (rc == 0)
    {
      var cmd := BuildCommand(monitors, config);
      var code := 0;
      if lastCmd != Some(cmd) {
        code := rc;
        executed := executed + [cmd];
        lastCmd := Some(cmd);
      }
      ok := code == 0;
    }
  }

  /**
   * Two polls in a row that see the same outputs and configuration hand xrandr at most one
   * command, and the second always reports success, even when the first command failed.
   */
  method RepeatedPoll(d: Daemon, monitors: seq<string>, active: seq<string>, config: seq<Entry>, rc1: int, rc2: int)
    returns (ok1: bool, ok2: bool)
    requires d.Valid() && |config| > 0
    modifies d
    ensures d.Valid()
    ensures d.lastCmd == Some(Command(monitors, config))
    ensures |d.executed| <= |old(d.executed)| + 1
    ensures ok2
  {
    ok1 := d.FixMonitors(monitors, active, config, rc1);
    ok2 := d.FixMonitors(monitors, active, config, rc2);
  }

  /** A fresh daemon runs its first command, whatever it is, and reports that command's exit status. */
  method FirstPoll(monitors: seq<string>, active: seq<string>, config: seq<Entry>, rc: int) returns (d: Daemon, ok: bool)
    requires |config| > 0
    ensures d.Valid() && d.executed == [Command(monitors, config)]
    ensures ok == (rc == 0)
  {
    d := new Daemon();
    ok := d.FixMonitors(monitors, active, config, rc);
  }
}
