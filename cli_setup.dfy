/** `cli_setup`: running one CLI command, and the login and logout commands.
    The module reads the host from the config file once, when it is loaded,
    and keeps that value for every later login. */
module CliSetup {
  import opened Wrappers
  import opened Http
  import opened Process
  import opened ConfigHandler

  const SecretsFile: string := "secrets.json"
  const LogoutCommand: string := "datasphere logout"
  const CommandFailedPrefix: string := "Command failed: "

  /** How an f-string shows the host read at load time: the text itself, or
      `None` when the config file has no host key. */
  function Rendered(host: Option<string>): string
  {
    if host.None? then "None" else host.value
  }

  const HostFlag: string := "\" --host \""

  /** The end every command shares: the host, read at load, between quotes. */
  function HostTail(host: Option<string>): (t: string)
    ensures |t| == |HostFlag| + |Rendered(host)| + 1
    ensures t[..|HostFlag|] == HostFlag && t[|HostFlag|..|t| - 1] == Rendered(host) && t[|t| - 1] == '"'
  {
    HostFlag + Rendered(host) + "\""
  }

  const LoginPrefix: string := "datasphere login --secrets-file \"" + SecretsFile

  /** The login command: the secrets file and the host inserted verbatim. */
  function LoginCommand(host: Option<string>): (c: string)
    ensures |c| == |LoginPrefix| + |HostFlag| + |Rendered(host)| + 1
    ensures c[..|LoginPrefix|] == LoginPrefix
    ensures c[|LoginPrefix|..|LoginPrefix| + |HostFlag|] == HostFlag
    ensures c[|LoginPrefix| + |HostFlag|..|c| - 1] == Rendered(host) && c[|c| - 1] == '"'
  {
    LoginPrefix + HostTail(host)
  }

  /** The contract of `run_command`: stdout when the exit code is 0, else an
      HTTP 500 whose detail is "Command failed: " followed by stderr. */
  function CommandResult(c: Completed): (r: Result<string, HttpError>)
    ensures r.Success? <==> c.returncode == 0
    ensures r.Success? ==> r.value == c.stdout
    ensures r.Failure? ==> r.error.status == InternalServerError
    ensures r.Failure? ==> r.error.detail == CommandFailedPrefix + c.stderr && r.error.headers == map[]
  {
    if c.returncode != 0 then Failure(HttpError(InternalServerError, CommandFailedPrefix + c.stderr, map[]))
    else Success(c.stdout)
  }

  /** A command's result with its output dropped, as `login` and `logout` give it. */
  function Status(r: Result<string, HttpError>): (s: Result<(), HttpError>)
    ensures s.Success? <==> r.Success?
    ensures s.Failure? ==> s.error == r.error
  {
    if r.Success? then Success(()) else Failure(r.error)
  }

  /** The loaded `cli_setup` module. */
  class Setup {
    /** `DATASPHERE_HOST`, read from the config file at load time. */
    const host: Option<string>
    const shell: Shell

    /** Loading the module reads the host; it fails to load without a config file. */
    constructor Load(config: ConfigStore, shell: Shell)
      requires config.file.Some?
      ensures host == HostIn(config.file.value)
      ensures this.shell == shell
    {
      var read := config.GetDatasphereHost();
      host := read.value;
      this.shell := shell;
    }

    /** `run_command`. */
    method RunCommand(command: string) returns (r: Result<string, HttpError>)
      modifies shell
      ensures shell.issued == old(shell.issued) + [command]
      ensures r == CommandResult(shell.outcomes(|old(shell.issued)|, command))
    {
      var completed := shell.Run(command);
      if completed.returncode != 0 {
        return Failure(HttpError(InternalServerError, CommandFailedPrefix + completed.stderr, map[]));
      }
      return Success(completed.stdout);
    }

    /** `login`: run the login command with the host fixed at load; a failure
        is re-raised unchanged. */
    method Login() returns (r: Result<(), HttpError>)
      modifies shell
      ensures shell.issued == old(shell.issued) + [LoginCommand(host)]
      ensures r == Status(CommandResult(shell.outcomes(|old(shell.issued)|, LoginCommand(host))))
    {
      var ran := RunCommand(LoginCommand(host));
      if ran.Failure? {
        return Failure(ran.error);
      }
      return Success(());
    }

    /** `logout`: run `datasphere logout`; a failure is raised, not swallowed. */
    method Logout() returns (r: Result<(), HttpError>)
      modifies shell
      ensures shell.issued == old(shell.issued) + [LogoutCommand]
      ensures r == Status(CommandResult(shell.outcomes(|old(shell.issued)|, LogoutCommand)))
    {
      var ran := RunCommand(LogoutCommand);
      if ran.Failure? {
        return Failure(ran.error);
      }
      return Success(());
    }
  }

  /** The login command names its host: two hosts that render differently
      give different login commands. */
  lemma LoginCommandNamesHost(h1: Option<string>, h2: Option<string>)
    requires LoginCommand(h1) == LoginCommand(h2)
    ensures Rendered(h1) == Rendered(h2)
  {
    var c := LoginCommand(h1);
    assert Rendered(h1) == c[|LoginPrefix| + |HostFlag|..|c| - 1];
  }

  /** The login command is never the logout command. */
  lemma LoginIsNotLogout(host: Option<string>)
    ensures LoginCommand(host) != LogoutCommand
  {
    assert LoginCommand(host)[14] == 'i';
    assert LogoutCommand[14] == 'o';
  }
}
