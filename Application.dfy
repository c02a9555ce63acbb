/**
 * The command-line entry point of the combined application: an optional
 * `--logs <dir>` pair, then a mode (`coordinator` or `worker`, in any case)
 * and its arguments. A base URL that is not given on the command line is
 * assigned from the first non-loopback IPv4 address and the first free port
 * from 8080 on.
 *
 * The network interfaces and the outcome of binding each port are
 * parameters; starting the coordinator or the worker, and the output on
 * the console, are not modelled.
 */
module Application {
  import opened Wrappers
  import opened JavaInt
  import opened JavaString

  // ---------------------------------------------------------------- local address

  datatype InetAddress = InetAddress(loopback: bool, ipv4: bool, hostAddress: string)

  datatype NetworkInterface = NetworkInterface(up: bool, loopback: bool, addresses: seq<InetAddress>)

  /** An address `getNonLocalIpAddress` accepts: a non-loopback IPv4 address of an interface that is up and not loopback. */
  predicate Accepted(ni: NetworkInterface, a: InetAddress) {
    ni.up && !ni.loopback && !a.loopback && a.ipv4
  }

  /** The first accepted address among `addresses`, in order. */
  function FirstAccepted(ni: NetworkInterface, addresses: seq<InetAddress>): Option<string>
  {
    if |addresses| == 0 then None
    else if Accepted(ni, addresses[0]) then Some(addresses[0].hostAddress)
    else FirstAccepted(ni, addresses[1..])
  }

  /** The first accepted address, interface by interface and address by address. */
  function FirstNonLocal(interfaces: seq<NetworkInterface>): Option<string>
  {
    if |interfaces| == 0 then None
    else match FirstAccepted(interfaces[0], interfaces[0].addresses)
      case Some(h) => Some(h)
      case None => FirstNonLocal(interfaces[1..])
  }

  /** Whether any interface has an accepted address. */
  predicate HasNonLocal(interfaces: seq<NetworkInterface>) {
    exists i, j :: 0 <= i < |interfaces| && 0 <= j < |interfaces[i].addresses|
      && Accepted(interfaces[i], interfaces[i].addresses[j])
  }

  lemma {:induction false} FirstAcceptedSpec(ni: NetworkInterface, addresses: seq<InetAddress>)
    ensures FirstAccepted(ni, addresses).None? <==> forall j :: 0 <= j < |addresses| ==> !Accepted(ni, addresses[j])
    ensures FirstAccepted(ni, addresses).Some? ==>
      exists j :: 0 <= j < |addresses| && Accepted(ni, addresses[j]) && addresses[j].hostAddress == FirstAccepted(ni, addresses).value
  {
    if |addresses| > 0 && !Accepted(ni, addresses[0]) {
      FirstAcceptedSpec(ni, addresses[1..]);
      assert forall j :: 1 <= j < |addresses| ==> addresses[j] == addresses[1..][j - 1];
    }
  }

  /**
   * A local address is found exactly when some interface that is up and not
   * loopback has a non-loopback IPv4 address, and what is found is the host
   * address of such an address.
   */
  lemma {:induction false} FirstNonLocalSpec(interfaces: seq<NetworkInterface>)
    ensures FirstNonLocal(interfaces).Some? <==> HasNonLocal(interfaces)
    ensures FirstNonLocal(interfaces).Some? ==>
      exists i, j :: 0 <= i < |interfaces| && 0 <= j < |interfaces[i].addresses|
        && Accepted(interfaces[i], interfaces[i].addresses[j])
        && interfaces[i].addresses[j].hostAddress == FirstNonLocal(interfaces).value
  {
    if |interfaces| > 0 {
      var ni := interfaces[0];
      FirstAcceptedSpec(ni, ni.addresses);
      if FirstAccepted(ni, ni.addresses).None? {
        var rest := interfaces[1..];
        FirstNonLocalSpec(rest);
        assert forall i :: 1 <= i < |interfaces| ==> interfaces[i] == rest[i - 1];
        if HasNonLocal(interfaces) {
          var i, j :| 0 <= i < |interfaces| && 0 <= j < |interfaces[i].addresses|
            && Accepted(interfaces[i], interfaces[i].addresses[j]);
          assert i >= 1;
          assert rest[i - 1] == interfaces[i];
        }
        if FirstNonLocal(interfaces).Some? {
          var i, j :| 0 <= i < |rest| && 0 <= j < |rest[i].addresses|
            && Accepted(rest[i], rest[i].addresses[j])
            && rest[i].addresses[j].hostAddress == FirstNonLocal(interfaces).value;
          assert interfaces[i + 1] == rest[i];
        }
      }
    }
  }

  /**
   * `getNonLocalIpAddress`: walks the interfaces and their addresses and
   * returns the first accepted one; `None` for `interfaces` stands for the
   * SocketException that ends the walk, and `None` as a result for `null`.
   */
  method GetNonLocalIpAddress(interfaces: Option<seq<NetworkInterface>>) returns (ip: Option<string>)
    ensures interfaces.None? ==> ip.None?
    ensures interfaces.Some? ==> ip == FirstNonLocal(interfaces.value)
  {
    if interfaces.None? {
      return None;
    }
    var all := interfaces.value;
    var i := 0;
    while i < |all|
      invariant 0 <= i <= |all|
      invariant FirstNonLocal(all) == FirstNonLocal(all[i..])
    {
      var ni := all[i];
      if ni.up && !ni.loopback {
        var j := 0;
        while j < |ni.addresses|
          invariant 0 <= j <= |ni.addresses|
          invariant FirstAccepted(ni, ni.addresses) == FirstAccepted(ni, ni.addresses[j..])
        {
          var address := ni.addresses[j];
          if !address.loopback && address.ipv4 {
            assert Accepted(ni, ni.addresses[j..][0]);
            assert all[i..][0] == ni;
            return Some(address.hostAddress);
          }
          assert ni.addresses[j..][1..] == ni.addresses[j + 1..];
          j := j + 1;
        }
      } else {
        NoneAccepted(ni, ni.addresses);
      }
      assert all[i..][1..] == all[i + 1..];
      assert all[i..][0] == ni;
      i := i + 1;
    }
    return None;
  }

  /** An interface that is down or loopback contributes no address. */
  lemma {:induction false} NoneAccepted(ni: NetworkInterface, addresses: seq<InetAddress>)
    requires !ni.up || ni.loopback
    ensures FirstAccepted(ni, addresses) == None
  {
    if |addresses| > 0 {
      NoneAccepted(ni, addresses[1..]);
    }
  }

  // ---------------------------------------------------------------- free port

  /** The largest TCP port; binding outside 0..65535 throws IllegalArgumentException. */
  const MAX_PORT := 65535

  /**
   * The port `findFreePort` settles on: the first port from `port` on that
   * `bindable` accepts, or the IllegalArgumentException of the first port out
   * of range.
   */
  function FirstFreePort(port: int, bindable: int -> bool): Result<int>
    decreases MAX_PORT + 1 - port
  {
    if port < 0 || port > MAX_PORT then Err(IllegalArgument("Port value out of range: " + IntToString(port)))
    else if bindable(port) then Ok(port)
    else FirstFreePort(port + 1, bindable)
  }

  /**
   * The port found is bindable, no earlier port from the start is, and a
   * failure means that no port from the start up to 65535 is bindable.
   */
  lemma {:induction false} FirstFreePortSpec(port: int, bindable: int -> bool)
    ensures var r := FirstFreePort(port, bindable);
      && (r.Ok? ==> port <= r.value <= MAX_PORT && bindable(r.value)
                    && forall q :: port <= q < r.value ==> !bindable(q))
      && (r.Err? <==> port < 0 || forall q :: port <= q <= MAX_PORT ==> !bindable(q))
    decreases MAX_PORT + 1 - port
  {
    if 0 <= port <= MAX_PORT && !bindable(port) {
      FirstFreePortSpec(port + 1, bindable);
    }
  }

  /**
   * `findFreePort`: tries to bind `startPort`, `startPort + 1`, ... and
   * returns the first port that binds; `bindable` is the outcome of each
   * attempt.
   */
  method FindFreePort(startPort: int, bindable: int -> bool) returns (r: Result<int>)
    ensures r == FirstFreePort(startPort, bindable)
  {
    var port := startPort;
    while 0 <= port <= MAX_PORT && !bindable(port)
      invariant startPort <= port
      invariant FirstFreePort(port, bindable) == FirstFreePort(startPort, bindable)
      decreases MAX_PORT + 1 - port
    {
      port := port + 1;
    }
    if port < 0 || port > MAX_PORT {
      return Err(IllegalArgument("Port value out of range: " + IntToString(port)));
    }
    return Ok(port);
  }

  // ---------------------------------------------------------------- base URL

  const LOOPBACK := "127.0.0.1"
  const FIRST_PORT := 8080

  /** "http://" + ip + ":" + port, the shape of every assigned base URL. */
  function BaseUrl(ip: string, port: int): (url: string)
    ensures StartsWith(url, "http://") && |url| > |"http://" + ip + ":"|
  {
    "http://" + ip + ":" + IntToString(port)
  }

  /**
   * The host and the port of an assigned URL are read back by cutting after
   * "http://" at the first ':', when the host holds no ':', as an IPv4
   * address never does.
   */
  lemma BaseUrlRoundTrip(ip: string, port: int)
    requires ':' !in ip && IsInt32(port)
    ensures var rest := BaseUrl(ip, port)[|"http://"|..];
      && SplitLimit2(rest, ':') == [ip, IntToString(port)]
      && ParseInt(SplitLimit2(rest, ':')[1]) == Some(port)
  {
    var url := BaseUrl(ip, port);
    var rest := url[|"http://"|..];
    assert rest == ip + [':'] + IntToString(port);
    IndexOfAfter(ip, ':', IntToString(port));
    assert rest[..|ip|] == ip;
    assert rest[|ip| + 1..] == IntToString(port);
    IntStringRoundTrip(port);
  }

  /**
   * `autoAssignBaseUrl`: the local address, or 127.0.0.1 when there is none,
   * with the first free port from 8080 on.
   */
  method AutoAssignBaseUrl(interfaces: Option<seq<NetworkInterface>>, bindable: int -> bool) returns (r: Result<string>)
    ensures var ip := if interfaces.Some? && FirstNonLocal(interfaces.value).Some? then FirstNonLocal(interfaces.value).value else LOOPBACK;
      match FirstFreePort(FIRST_PORT, bindable)
      case Ok(port) => r == Ok(BaseUrl(ip, port))
      case Err(e) => r == Err(e)
  {
    var found := GetNonLocalIpAddress(interfaces);
    if interfaces.Some? {
      FirstNonLocalSpec(interfaces.value);
    }
    var ip := if found.None? then LOOPBACK else found.value;
    var port := FindFreePort(FIRST_PORT, bindable);
    if port.Err? {
      return Err(port.error);
    }
    return Ok(BaseUrl(ip, port.value));
  }

  // ---------------------------------------------------------------- arguments

  const DEFAULT_LOGS := "./logs"
  const USAGE := "Usage: java -jar app.jar <mode> [other args]"
  const WORKER_USAGE := "Usage: java -jar app.jar worker <coordinatorBaseUrl> [workerBaseUrl]"

  /** A base URL from the command line, or one still to be assigned by `AutoAssignBaseUrl`. */
  datatype BaseUrlChoice = AutoAssigned | Given(url: string)

  /** What `main` goes on to do. */
  datatype Launch =
    | Exit(status: int, message: string)
    | StartCoordinator(logs: string, configFile: Option<string>, baseUrl: BaseUrlChoice)
    | StartWorker(logs: string, coordinatorBaseUrl: string, workerBaseUrl: BaseUrlChoice)

  predicate IsCoordinatorMode(mode: string) { EqualsIgnoreCase("coordinator", mode) }

  predicate IsWorkerMode(mode: string) { EqualsIgnoreCase("worker", mode) }

  /**
   * The arguments from the mode on (`args[index..]` in `main`). A lone
   * extra argument is a configuration file when it ends in ".yaml" and a
   * base URL otherwise; with two extra arguments or more, the first two are
   * the configuration file and the base URL and the rest are ignored.
   */
  function Dispatch(rest: seq<string>, logs: string): (r: Launch)
    ensures r.Exit? ==> r.status == 1
    ensures |rest| == 0 ==> r == Exit(1, USAGE)
    ensures |rest| > 0 && !(IsCoordinatorMode(rest[0]) || IsWorkerMode(rest[0])) ==> r == Exit(1, "Unknown mode: " + rest[0])
    ensures |rest| == 1 && IsWorkerMode(rest[0]) ==> r == Exit(1, WORKER_USAGE)
    ensures r.Exit? <==> |rest| == 0 || !(IsCoordinatorMode(rest[0]) || IsWorkerMode(rest[0]))
                         || (IsWorkerMode(rest[0]) && |rest| < 2)
    ensures r.StartCoordinator? ==>
      && r.logs == logs
      && (r.baseUrl.AutoAssigned? <==> |rest| == 1 || (|rest| == 2 && EndsWith(rest[1], ".yaml")))
      && (r.configFile.Some? <==> |rest| >= 3 || (|rest| == 2 && EndsWith(rest[1], ".yaml")))
      && (r.configFile.Some? ==> r.configFile.value == rest[1])
      && (r.baseUrl.Given? && |rest| == 2 ==> r.baseUrl.url == rest[1])
      && (r.baseUrl.Given? && |rest| >= 3 ==> r.baseUrl.url == rest[2])
    ensures r.StartWorker? ==>
      && |rest| >= 2 && r.logs == logs && r.coordinatorBaseUrl == rest[1]
      && (r.workerBaseUrl.AutoAssigned? <==> |rest| == 2)
      && (r.workerBaseUrl.Given? ==> r.workerBaseUrl.url == rest[2])
  {
    if |rest| < 1 then Exit(1, USAGE)
    else
      var mode := rest[0];
      if IsCoordinatorMode(mode) then
        if |rest| == 1 then StartCoordinator(logs, None, AutoAssigned)
        else if |rest| == 2 then
          if EndsWith(rest[1], ".yaml") then StartCoordinator(logs, Some(rest[1]), AutoAssigned)
          else StartCoordinator(logs, None, Given(rest[1]))
        else StartCoordinator(logs, Some(rest[1]), Given(rest[2]))
      else if IsWorkerMode(mode) then
        if |rest| < 2 then Exit(1, WORKER_USAGE)
        else StartWorker(logs, rest[1], if |rest| >= 3 then Given(rest[2]) else AutoAssigned)
      else Exit(1, "Unknown mode: " + mode)
  }

  /** `main`: a leading "--logs" followed by a value names the log directory; the mode comes next. */
  function ParseArgs(args: seq<string>): (r: Launch)
    ensures !r.Exit? ==> r.logs == if |args| >= 2 && args[0] == "--logs" then args[1] else DEFAULT_LOGS
    ensures |args| == 0 ==> r == Exit(1, USAGE)
  {
    if |args| >= 2 && args[0] == "--logs" then Dispatch(args[2..], args[1]) else Dispatch(args, DEFAULT_LOGS)
  }

  /** "--logs" and its value are skipped before the mode is read, whatever comes after them. */
  lemma LogsOptionSkipped(dir: string, rest: seq<string>)
    ensures ParseArgs(["--logs", dir] + rest) == Dispatch(rest, dir)
    ensures ParseArgs(["--logs", dir]) == Exit(1, USAGE)
  {
    assert (["--logs", dir] + rest)[2..] == rest;
    assert ["--logs", dir][2..] == [];
  }

  /** A lone "--logs" is taken for the mode, which is unknown. */
  lemma LoneLogsFlag()
    ensures ParseArgs(["--logs"]) == Exit(1, "Unknown mode: --logs")
  {
    assert !EqualsIgnoreCase("coordinator", "--logs");
    assert UpperAscii("worker"[0]) != UpperAscii("--logs"[0]);
  }

  /** Case-insensitive equality chains, so modes equal up to case are the same mode. */
  lemma EqualsIgnoreCaseTransitive(a: string, b: string, c: string)
    requires EqualsIgnoreCase(a, b) && EqualsIgnoreCase(b, c)
    ensures EqualsIgnoreCase(a, c)
  {
  }

  /** Two spellings of the same mode that differ only in case launch the same thing. */
  lemma ModeCaseInsensitive(mode: string, other: string, args: seq<string>, logs: string)
    requires EqualsIgnoreCase(mode, other)
    requires IsCoordinatorMode(mode) || IsWorkerMode(mode)
    ensures Dispatch([mode] + args, logs) == Dispatch([other] + args, logs)
  {
    if IsCoordinatorMode(mode) {
      EqualsIgnoreCaseTransitive("coordinator", mode, other);
    } else {
      EqualsIgnoreCaseTransitive("worker", mode, other);
      if IsCoordinatorMode(other) {
        EqualsIgnoreCaseTransitive("coordinator", other, mode);
      }
    }
    assert ([mode] + args)[1..] == args == ([other] + args)[1..];
  }

  /** Arguments after the third (the mode, the configuration and the URL) change nothing. */
  lemma ExtraArgumentsIgnored(rest: seq<string>, logs: string)
    requires |rest| >= 3
    ensures Dispatch(rest, logs) == Dispatch(rest[..3], logs)
  {
  }
}
