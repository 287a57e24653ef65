/** How the launcher's `-v` count decides the level of its log. */
module CliMain {

  /** The levels of Python's `logging` module that start-up chooses from. */
  const DEBUG := 10
  const INFO := 20
  const WARNING := 30

  /** The `-v` count in effect: a session without a console (no standard
      output) forces the most verbose setting, 3. */
  function EffectiveVerbosity(verbose: nat, hasConsole: bool): (v: nat)
    ensures !hasConsole ==> v == 3
    ensures hasConsole ==> v == verbose
  {
    if hasConsole then verbose else 3
  }

  /** The log level for a `-v` count: DEBUG from two on, INFO for exactly
      one, WARNING otherwise. This follows the code at allzpark/cli.py:300-304;
      the option's help text (allzpark/cli.py:240-242) promises info for
      `-vv` and debug only for `-vvv`, which the code does not do. */
  function LogLevel(verbose: nat): (level: int)
    ensures level == DEBUG <==> verbose >= 2
    ensures level == INFO <==> verbose == 1
    ensures level == WARNING <==> verbose == 0
  {
    if verbose >= 2 then DEBUG
    else if verbose == 1 then INFO
    else WARNING
  }

  /** More `-v` flags never raise the level: the log only grows more detailed. */
  lemma LogLevelMonotonic(v1: nat, v2: nat)
    requires v1 <= v2
    ensures LogLevel(v2) <= LogLevel(v1)
  {
  }

  /** A session without a console always logs at DEBUG. */
  lemma ConsolelessSessionLogsDebug(verbose: nat)
    ensures LogLevel(EffectiveVerbosity(verbose, false)) == DEBUG
  {
  }
}
