/** `cli_commands`: the three public operations. Each logs in, runs one
    `datasphere tasks` command, and logs out in a `finally`, so logout runs on
    every path; a failing logout's error replaces whatever came before it.
    Like `cli_setup`, the module reads the host once, when it is loaded. */
module CliCommands {
  import opened Wrappers
  import opened Http
  import opened Process
  import opened ConfigHandler
  import opened CliSetup

  const ChainsRunPrefix: string := "datasphere tasks chains run --space \""
  const LogsListPrefix: string := "datasphere tasks logs list --space \""
  const LogsGetPrefix: string := "datasphere tasks logs get --space \""
  const ObjectFlag: string := "\" --object \""
  const LogIdFlag: string := "\" --log-id \""
  const InfoLevelFlag: string := "\" --info-level \""

  /** `datasphere tasks chains run`: the space and the object inserted
      verbatim between quotes, nothing escaped, then the load-time host. */
  function TaskChainRunCommand(space: string, obj: string, host: Option<string>): (c: string)
    ensures var o := |ChainsRunPrefix| + |space| + |ObjectFlag|;
      |c| == o + |obj| + |HostTail(host)| &&
      c[..|ChainsRunPrefix|] == ChainsRunPrefix &&
      c[|ChainsRunPrefix|..|ChainsRunPrefix| + |space|] == space &&
      c[|ChainsRunPrefix| + |space|..o] == ObjectFlag &&
      c[o..o + |obj|] == obj &&
      c[o + |obj|..] == HostTail(host)
  {
    ChainsRunPrefix + space + ObjectFlag + obj + HostTail(host)
  }

  /** `datasphere tasks logs list`, laid out like the task-chain run. */
  function LogsListCommand(space: string, obj: string, host: Option<string>): (c: string)
    ensures var o := |LogsListPrefix| + |space| + |ObjectFlag|;
      |c| == o + |obj| + |HostTail(host)| &&
      c[..|LogsListPrefix|] == LogsListPrefix &&
      c[|LogsListPrefix|..|LogsListPrefix| + |space|] == space &&
      c[|LogsListPrefix| + |space|..o] == ObjectFlag &&
      c[o..o + |obj|] == obj &&
      c[o + |obj|..] == HostTail(host)
  {
    LogsListPrefix + space + ObjectFlag + obj + HostTail(host)
  }

  /** `datasphere tasks logs get`: space, log id and info level verbatim; the
      info level is passed on without checking it is "status" or "details". */
  function LogsGetCommand(space: string, logId: string, infoLevel: string, host: Option<string>): (c: string)
    ensures var l := |LogsGetPrefix| + |space| + |LogIdFlag|;
      var i := l + |logId| + |InfoLevelFlag|;
      |c| == i + |infoLevel| + |HostTail(host)| &&
      c[..|LogsGetPrefix|] == LogsGetPrefix &&
      c[|LogsGetPrefix|..|LogsGetPrefix| + |space|] == space &&
      c[|LogsGetPrefix| + |space|..l] == LogIdFlag &&
      c[l..l + |logId|] == logId &&
      c[l + |logId|..i] == InfoLevelFlag &&
      c[i..i + |infoLevel|] == infoLevel &&
      c[i + |infoLevel|..] == HostTail(host)
  {
    LogsGetPrefix + space + LogIdFlag + logId + InfoLevelFlag + infoLevel + HostTail(host)
  }

  /** The `finally` clause: a failing release replaces the body's outcome,
      a succeeding one lets it through unchanged. */
  function Finally(body: Result<string, HttpError>, release: Result<(), HttpError>): (r: Result<string, HttpError>)
    ensures release.Failure? ==> r == Failure(release.error)
    ensures release.Success? ==> r == body
  {
    if release.Failure? then Failure(release.error) else body
  }

  /** The commands one operation issues and what it returns. */
  datatype Session = Session(trace: seq<string>, outcome: Result<string, HttpError>)

  /** One operation from the shell's `start`-th call on: login; the main
      command only if login succeeded; logout in any case. */
  function SessionRun(outcomes: (nat, string) -> Completed, start: nat, login: string, main: string): (s: Session)
    ensures 2 <= |s.trace| <= 3 && s.trace[0] == login && s.trace[|s.trace| - 1] == LogoutCommand
    ensures |s.trace| == 3 <==> CommandResult(outcomes(start, login)).Success?
    ensures |s.trace| == 3 ==> s.trace[1] == main
  {
    var loggedIn := Status(CommandResult(outcomes(start, login)));
    if loggedIn.Failure? then
      var loggedOut := Status(CommandResult(outcomes(start + 1, LogoutCommand)));
      Session([login, LogoutCommand], Finally(Failure(loggedIn.error), loggedOut))
    else
      var ran := CommandResult(outcomes(start + 1, main));
      var loggedOut := Status(CommandResult(outcomes(start + 2, LogoutCommand)));
      Session([login, main, LogoutCommand], Finally(ran, loggedOut))
  }

  /** How many times a command appears in a trace. */
  function Count(trace: seq<string>, command: string): nat
  {
    if trace == [] then 0 else (if trace[0] == command then 1 else 0) + Count(trace[1..], command)
  }

  /** The loaded `cli_commands` module. */
  class Commands {
    /** `DATASPHERE_HOST`, read from the config file at load time. */
    const host: Option<string>
    const setup: Setup

    constructor Load(config: ConfigStore, setup: Setup)
      requires config.file.Some?
      ensures host == HostIn(config.file.value)
      ensures this.setup == setup
    {
      var read := config.GetDatasphereHost();
      host := read.value;
      this.setup := setup;
    }

    /** This module's own `run_command`, with the same contract as `cli_setup`'s. */
    method RunCommand(command: string) returns (r: Result<string, HttpError>)
      modifies setup.shell
      ensures setup.shell.issued == old(setup.shell.issued) + [command]
      ensures r == CommandResult(setup.shell.outcomes(|old(setup.shell.issued)|, command))
    {
      var completed := setup.shell.Run(command);
      if completed.returncode != 0 {
        return Failure(HttpError(InternalServerError, CommandFailedPrefix + completed.stderr, map[]));
      }
      return Success(completed.stdout);
    }

    /** `try: login(); return run_command(main)  finally: logout()`. */
    method InSession(main: string) returns (r: Result<string, HttpError>)
      modifies setup.shell
      ensures var s := SessionRun(setup.shell.outcomes, |old(setup.shell.issued)|, LoginCommand(setup.host), main);
        setup.shell.issued == old(setup.shell.issued) + s.trace && r == s.outcome
    {
      var body: Result<string, HttpError>;
      var loggedIn := setup.Login();
      if loggedIn.Failure? {
        body := Failure(loggedIn.error);
      } else {
        body := RunCommand(main);
      }
      var loggedOut := setup.Logout();
      if loggedOut.Failure? {
        r := Failure(loggedOut.error);
      } else {
        r := body;
      }
    }

    /** `run_task_chain`. */
    method RunTaskChain(space: string, obj: string) returns (r: Result<string, HttpError>)
      modifies setup.shell
      ensures var s := SessionRun(setup.shell.outcomes, |old(setup.shell.issued)|,
                                  LoginCommand(setup.host), TaskChainRunCommand(space, obj, host));
        setup.shell.issued == old(setup.shell.issued) + s.trace && r == s.outcome
    {
      r := InSession(TaskChainRunCommand(space, obj, host));
    }

    /** `get_logs`. */
    method GetLogs(space: string, obj: string) returns (r: Result<string, HttpError>)
      modifies setup.shell
      ensures var s := SessionRun(setup.shell.outcomes, |old(setup.shell.issued)|,
                                  LoginCommand(setup.host), LogsListCommand(space, obj, host));
        setup.shell.issued == old(setup.shell.issued) + s.trace && r == s.outcome
    {
      r := InSession(LogsListCommand(space, obj, host));
    }

    /** `get_logs_get`; the info level defaults to "status". */
    method GetLogsGet(space: string, logId: string, infoLevel: string := "status") returns (r: Result<string, HttpError>)
      modifies setup.shell
      ensures var s := SessionRun(setup.shell.outcomes, |old(setup.shell.issued)|,
                                  LoginCommand(setup.host), LogsGetCommand(space, logId, infoLevel, host));
        setup.shell.issued == old(setup.shell.issued) + s.trace && r == s.outcome
    {
      r := InSession(LogsGetCommand(space, logId, infoLevel, host));
    }
  }

  /** Every operation starts with login and ends with the one and only logout. */
  lemma {:induction false} SessionBracketed(outcomes: (nat, string) -> Completed, start: nat, login: string, main: string)
    requires login != LogoutCommand && main != LogoutCommand
    ensures var s := SessionRun(outcomes, start, login, main);
      2 <= |s.trace| <= 3 && s.trace[0] == login &&
      s.trace[|s.trace| - 1] == LogoutCommand && Count(s.trace, LogoutCommand) == 1
  {
    var t := SessionRun(outcomes, start, login, main).trace;
    var rest := t[|t| - 1..];
    assert rest == [LogoutCommand] && rest[1..] == [];
    assert Count(rest, LogoutCommand) == 1;
    if |t| == 3 {
      assert t[2..] == rest && t[1..][1..] == t[2..];
      assert Count(t[1..], LogoutCommand) == 1;
    } else {
      assert t[1..] == rest;
    }
  }

  /** The main command is issued exactly when login succeeded. */
  lemma MainOnlyAfterLogin(outcomes: (nat, string) -> Completed, start: nat, login: string, main: string)
    requires main != login && main != LogoutCommand
    ensures var s := SessionRun(outcomes, start, login, main);
      main in s.trace <==> CommandResult(outcomes(start, login)).Success?
  {
  }

  /** Logout's outcome decides last: its error, if any, is the operation's
      outcome; otherwise the outcome is the login error or the main
      command's result, unchanged. */
  lemma LogoutDecidesLast(outcomes: (nat, string) -> Completed, start: nat, login: string, main: string)
    ensures var s := SessionRun(outcomes, start, login, main);
      var loggedIn := CommandResult(outcomes(start, login));
      var loggedOut := CommandResult(outcomes(start + |s.trace| - 1, LogoutCommand));
      (loggedOut.Failure? ==> s.outcome == Failure(loggedOut.error)) &&
      (loggedOut.Success? && loggedIn.Failure? ==> s.outcome == Failure(loggedIn.error)) &&
      (loggedOut.Success? && loggedIn.Success? ==> s.outcome == CommandResult(outcomes(start + 1, main)))
  {
  }

  /** A main command that exits non-zero between a successful login and
      logout gives a 500 whose detail carries the command's stderr. */
  lemma FailedCommandReported(outcomes: (nat, string) -> Completed, start: nat, login: string, main: string)
    requires outcomes(start, login).returncode == 0
    requires outcomes(start + 1, main).returncode != 0
    requires outcomes(start + 2, LogoutCommand).returncode == 0
    ensures SessionRun(outcomes, start, login, main).outcome ==
      Failure(HttpError(InternalServerError, "Command failed: " + outcomes(start + 1, main).stderr, map[]))
  {
  }

  /** The operation commands all begin `datasphere t`. */
  lemma TaskChainRunStart(space: string, obj: string, host: Option<string>)
    ensures TaskChainRunCommand(space, obj, host)[11] == 't'
  {
  }

  lemma LogsListStart(space: string, obj: string, host: Option<string>)
    ensures LogsListCommand(space, obj, host)[11] == 't'
  {
  }

  lemma LogsGetStart(space: string, logId: string, infoLevel: string, host: Option<string>)
    ensures LogsGetCommand(space, logId, infoLevel, host)[11] == 't'
  {
  }

  /** The login and logout commands both begin `datasphere l`. */
  lemma SessionCommandsStart(host: Option<string>)
    ensures LoginCommand(host)[11] == 'l' && LogoutCommand[11] == 'l'
  {
  }

  /** The commands that open and close a session. */
  predicate IsSessionCommand(c: string, host: Option<string>)
  {
    c == LoginCommand(host) || c == LogoutCommand
  }

  /** None of the three operation commands is the login or the logout command. */
  lemma OperationCommandsDistinct(space: string, obj: string, logId: string, infoLevel: string, host: Option<string>)
    ensures !IsSessionCommand(TaskChainRunCommand(space, obj, host), host)
    ensures !IsSessionCommand(LogsListCommand(space, obj, host), host)
    ensures !IsSessionCommand(LogsGetCommand(space, logId, infoLevel, host), host)
  {
    TaskChainRunStart(space, obj, host);
    LogsListStart(space, obj, host);
    LogsGetStart(space, logId, infoLevel, host);
    SessionCommandsStart(host);
  }

  /** Because nothing is escaped, different parameters can give the same
      command: a quote in `space` followed by ` --object "` reads as the end
      of the space value and the start of the object value. */
  lemma UnescapedParametersCollide(a: string, b: string, c: string, host: Option<string>)
    ensures TaskChainRunCommand(a + ObjectFlag + b, c, host) == TaskChainRunCommand(a, b + ObjectFlag + c, host)
  {
    var front, back := ChainsRunPrefix, HostTail(host);
    calc {
      TaskChainRunCommand(a + ObjectFlag + b, c, host);
      front + (a + ObjectFlag + b) + ObjectFlag + c + back;
      front + a + ObjectFlag + (b + ObjectFlag + c) + back;
      TaskChainRunCommand(a, b + ObjectFlag + c, host);
    }
  }

  /** Loading both modules and then updating the host in the config file:
      the task-chain run still logs in and runs against the host read at
      load time, because neither module reads the file again. */
  method HostUpdateAfterLoad(config: ConfigStore, shell: Shell, newHost: string, space: string, obj: string)
    returns (r: Result<string, HttpError>)
    requires config.file.Some?
    modifies config, shell
    ensures config.file == WithHost(old(config.file), newHost)
    ensures var loaded := HostIn(old(config.file).value);
      var s := SessionRun(shell.outcomes, |old(shell.issued)|, LoginCommand(loaded), TaskChainRunCommand(space, obj, loaded));
      shell.issued == old(shell.issued) + s.trace && r == s.outcome
  {
    var setup := new Setup.Load(config, shell);
    var commands := new Commands.Load(config, setup);
    var updated := config.SetDatasphereHost(newHost);
    r := commands.RunTaskChain(space, obj);
  }
}
