/**
 * The stand-alone worker's entry point: its first argument is the path of
 * the configuration, and the arguments handed on to the launcher are the
 * command line with that path replaced by the role "worker". Loading the
 * configuration and the job's jar, and launching, are not modelled.
 */
module WorkerApplication {

  const ROLE := "worker"

  /**
   * The arguments the launcher receives: the role first, then the command
   * line after its first argument. The launcher reads the role from the
   * first and a worker's server port from the second, which is thus the
   * second argument of the command line.
   */
  function LauncherArguments(args: seq<string>): (r: seq<string>)
    requires |args| >= 1
    ensures |r| == |args| && r[0] == ROLE
    ensures forall k :: 1 <= k < |args| ==> r[k] == args[k]
  {
    [ROLE] + args[1..]
  }

  /**
   * `main`: an empty command line is a usage error, exit status 1.
   * Otherwise a fresh array of the same length holds "worker" followed
   * by a copy of every argument after the first.
   */
  method RewriteArguments(args: array<string>) returns (additional: array<string>, exitStatus: int)
    ensures args.Length < 1 ==> exitStatus == 1 && additional.Length == 0
    ensures args.Length >= 1 ==>
      exitStatus == 0 && fresh(additional) && additional[..] == LauncherArguments(args[..])
  {
    if args.Length < 1 {
      return new string[0], 1;
    }
    if args.Length > 1 {
      additional := new string[args.Length];
      additional[0] := ROLE;
      forall k | 1 <= k < args.Length {
        additional[k] := args[k];
      }
    } else {
      additional := new string[1];
      additional[0] := ROLE;
    }
    exitStatus := 0;
  }
}
