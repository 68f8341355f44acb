# Datasphere gateway core, in Dafny

This project models the core of a small HTTP gateway. The gateway checks HTTP
Basic credentials, drives the external `datasphere` command-line tool, and
keeps two JSON files on disk. The model covers five parts:

- **Basic-auth gate** (`auth.dfy`, with `strings.dfy`, `base64.dfy`, `utf8.dfy`).
  - `verify_basic_auth` is a pure verdict function and a method with the
    source's first-match loop, proved equal to that function.
  - `authenticate_request` adds the missing-header check in front.
  - Python's `str.split()`, `str.split(":")`, `base64.b64decode` and
    `bytes.decode("utf-8")` are written out, each with a round-trip lemma.
    Those lemmas let the model prove that a header built from a stored user
    and password is accepted.
  - `str.lower()` is written out for the comparison with "basic";
    `SchemeCaseInsensitive` states exactly which schemes pass.
- **CLI setup** (`cli_setup.dfy`, `process.dfy`).
  - The shell is a class that records every command string it is given.
  - Each answer comes from a fixed oracle, indexed by call position and
    command.
  - `run_command`, `login` and `logout` are methods against that shell.
  - The host is a constant of the loaded module.
- **CLI commands** (`cli_commands.dfy`).
  - The three operations each wrap one command in login and a `finally`
    logout.
  - A specification function, `SessionRun`, gives the trace of issued
    commands and the outcome.
  - Lemmas state the bracketing and error-propagation rules.
  - The command templates are functions.
- **Config store** (`config_handler.dfy`). The file is a field of type
  `Option<map<string, string>>`. `None` means the file does not exist.
- **Secrets store** (`secrets_handler.dfy`). The payload record is a
  datatype and its `dict()` is a map. The file is an `Option<Content>`:
  `None` means no file, `JsonObject(entries)` a complete JSON object, and
  `Truncated` a file left cut short by a failed write.
  Saving replaces the whole object and reports errors in its reply.

`wrappers.dfy` holds `Option` and `Result`, `bytes.dfy` the byte type, and `http.dfy` `HTTPException` and the status codes.

Three behaviours of the code are worth stating plainly:

- A scheme other than "basic" is refused with 401 "Invalid authentication
  type" (auth.py:17-22), before the token is decoded.
- The operations call `login` inside the `try`, so logout runs even when
  login fails (cli_commands.py:22-30).
- A failing logout raises (cli_setup.py:30), and because it runs in the
  `finally`, its error replaces the operation's outcome
  (cli_commands.py:29-30).

## Model

| member | source | states |
|---|---|---|
| Auth.ParseCredentials | auth.py:16-26 | a failure is the 400 or the 401 for the scheme, the 401 exactly when there are two words and the first is not "basic"; a success has two words, a "basic" scheme, a user and password free of colons, and a token that decodes to the UTF-8 of `user:password` |
| Auth.BasicAuthVerdict | auth.py:13-48 | every rejection carries the `WWW-Authenticate: Basic` challenge and is a 400 or a 401 |
| Auth.RequestVerdict | auth.py:51-59 | a missing or empty header is the 401 "Authorization header missing" whatever is stored; every rejection carries the challenge |
| Auth.VerifyBasicAuth | auth.py:13-48 | the loop that stops at the first record matching both username and password hash decides exactly the verdict function: authorized iff the parsed pair is stored |
| Auth.AuthenticateRequest | auth.py:51-59 | the missing-header check followed by verification decides exactly `RequestVerdict` |
| Auth.WrongWordCountRejected | auth.py:16 | a header that does not split into exactly two whitespace-separated words is the 400 "Invalid credentials format" |
| Auth.SchemeCaseInsensitive | auth.py:17 | the scheme test accepts exactly the five-letter spellings of "basic" in any mix of case |
| Auth.OtherSchemeRejected | auth.py:17-22 | any other scheme is the 401 "Invalid authentication type", even when the token would not decode |
| Auth.UndecodableTokenRejected | auth.py:25 | a token that is not base64, or whose bytes are not UTF-8, is the 400 |
| Auth.ColonCountRejected | auth.py:26 | decoded text with no colon or with two or more is the 400 |
| Auth.AuthorizedRecordHasNoColon | auth.py:26-34 | an authorized header parses, and the record it matched is stored and has a username and password hash free of colons |
| Auth.ColonRecordNeverMatches | auth.py:26-34 | a stored record with a colon in its username or password hash lets no header in that the rest of the store would refuse |
| Auth.ParseEncodedCredentials | auth.py:16-26 | a "basic" scheme, a space and the base64 of the UTF-8 of `user:password` parse back to that user and password |
| Auth.EncodedCredentialsVerdict | auth.py:32-41 | such a header is authorized iff that exact pair is stored, and otherwise is the 401 "Incorrect username or password" |
| Auth.StoredOrderIrrelevant | auth.py:32-34 | stores holding the same records in any order and with any repetition give every header the same verdict |
| Auth.EncodedHeaderAuthorized | auth.py:51-59 | a request carrying the encoded credentials of a stored record is let through |
| Auth.EncodedHeaderRefused | auth.py:37-41 | a request carrying the encoded credentials of a pair that is not stored gets the 401 for incorrect credentials |
| Auth.ExampleHeaders | auth.py:13-59 | with alice/p1 stored, `Basic YWxpY2U6cDE=` is accepted |
| Auth.TokenIsWord | auth.py:16 | the base64 of non-empty bytes is one non-empty word with no whitespace |
| Strings.Words | auth.py:16 | `str.split()` yields only non-empty words free of whitespace |
| Strings.WordsOfJoin | auth.py:16 | splitting words joined by single spaces gives the words back |
| Strings.SplitOn | auth.py:26 | `str.split(sep)` yields one more piece than there are separators, none holding the separator |
| Strings.SplitOfJoin | auth.py:26 | splitting separator-free pieces joined by the separator gives the pieces back |
| Strings.JoinOfSplit | auth.py:26 | joining the pieces of a split restores the text |
| Base64.Scan | auth.py:25 | the decoding loop writes at most three bytes for every four characters still to read, plus what the group in progress can finish |
| Base64.Decode | auth.py:25 | a text decodes only if it is ASCII, and to at most three bytes per four characters |
| Base64.DecodeEncode | auth.py:25 | decoding undoes encoding for every byte string |
| Base64.TextAfterPadIgnored | auth.py:25 | after a padded final group the decoder reads no further: any ASCII text after it is ignored |
| Base64.NonAlphabetSkipped | auth.py:25 | a character outside the alphabet that is not a pad is discarded wherever it occurs |
| Base64.EncodeLength | auth.py:25 | an encoding has four characters for every started group of three bytes |
| Base64.EncodeChars | auth.py:25 | an encoding holds only alphabet characters and pads |
| Utf8.Decode | auth.py:25 | a decoded text has no more characters than the bytes it came from |
| Utf8.DecodeEncode | auth.py:25 | UTF-8 decoding undoes encoding for every text |
| Utf8.EncodeDecode | auth.py:25 | the decoder is strict: every byte string it accepts is the encoding of the text it returns, so overlong forms, surrogates and code points above U+10FFFF are refused |
| Process.Shell.Run | cli_setup.py:11 | a run appends its command to the issued trace and returns the oracle's answer for that position and command |
| CliSetup.CommandResult | cli_setup.py:8-14 | a command's result is its stdout iff the exit code is 0; otherwise an HTTP 500 whose detail is "Command failed: " followed by stderr |
| CliSetup.LoginCommand | cli_setup.py:20 | the command starts `datasphere login --secrets-file "secrets.json`, then `" --host "`, the rendered host verbatim and a closing quote |
| CliSetup.LoginCommandNamesHost | cli_setup.py:20 | equal login commands name hosts that render the same |
| CliSetup.Setup.Load | cli_setup.py:5 | the loaded module's host is the config file's host entry, or none when the key is absent |
| CliSetup.Setup.RunCommand | cli_setup.py:8-14 | issues exactly the given command once and returns its result as `CommandResult` says |
| CliSetup.Setup.Login | cli_setup.py:16-24 | issues exactly `datasphere login --secrets-file "secrets.json" --host "<host>"` with the host fixed at load, and re-raises its error unchanged |
| CliSetup.Setup.Logout | cli_setup.py:26-30 | issues exactly `datasphere logout` and propagates its failure |
| CliSetup.LoginIsNotLogout | cli_setup.py:20-30 | the login command is never the logout command |
| CliCommands.TaskChainRunCommand | cli_commands.py:25 | the command is `datasphere tasks chains run --space "`, the space verbatim, `" --object "`, the object verbatim, then `" --host "`, the rendered host and a closing quote |
| CliCommands.LogsListCommand | cli_commands.py:38 | the same layout with the `datasphere tasks logs list` prefix |
| CliCommands.LogsGetCommand | cli_commands.py:54-60 | `datasphere tasks logs get --space "`, then space, log id and info level each verbatim after its flag (`" --log-id "`, `" --info-level "`), then the host as above |
| CliCommands.SessionRun | cli_commands.py:20-30 | a session issues two or three commands, login first and logout last, and the main command second exactly when login succeeded |
| CliCommands.Finally | cli_commands.py:28-30 | a failing release replaces the body's outcome; a succeeding one lets it through unchanged |
| CliCommands.Commands.Load | cli_commands.py:8 | the module's host is the config file's host entry at load time |
| CliCommands.Commands.RunCommand | cli_commands.py:10-17 | issues exactly the given command once and returns stdout on exit code 0, else the 500 with stderr |
| CliCommands.Commands.InSession | cli_commands.py:22-30 | login, the main command only after a successful login, then logout: the trace and outcome are `SessionRun`'s |
| CliCommands.Commands.RunTaskChain | cli_commands.py:20-30 | the session around `datasphere tasks chains run --space "<space>" --object "<object>" --host "<host>"` |
| CliCommands.Commands.GetLogs | cli_commands.py:33-43 | the session around `datasphere tasks logs list --space "<space>" --object "<object>" --host "<host>"` |
| CliCommands.Commands.GetLogsGet | cli_commands.py:45-65 | the session around `datasphere tasks logs get` with the log id and the info level (default "status", unchecked) |
| CliCommands.SessionBracketed | cli_commands.py:22-30 | every operation issues login first and logout last, logout exactly once, on every path |
| CliCommands.MainOnlyAfterLogin | cli_commands.py:23-26 | the main command is issued iff login succeeded |
| CliCommands.LogoutDecidesLast | cli_commands.py:26-30 | a failing logout's error is the outcome; otherwise the outcome is the login error or the main command's result unchanged |
| CliCommands.FailedCommandReported | cli_commands.py:13-17 | a main command that exits non-zero between a good login and logout gives the 500 carrying its stderr |
| CliCommands.OperationCommandsDistinct | cli_commands.py:25-60 | no operation command is the login or the logout command |
| CliCommands.UnescapedParametersCollide | cli_commands.py:25 | parameters are inserted unescaped, so different space/object pairs can produce the same command |
| CliCommands.HostUpdateAfterLoad | cli_commands.py:8 | after a host update in the config file, a task-chain run still uses the host read at load time |
| ConfigHandler.HostIn | config_handler.py:11 | the looked-up host is present iff the key is, and is then the stored value |
| ConfigHandler.ReadHost | config_handler.py:9-11 | the read fails iff there is no file; otherwise the host is present iff the key is, and is the stored value |
| ConfigHandler.WithHost | config_handler.py:13-17 | a set has a result iff there is a file; its keys are the old ones plus the host key, which holds the new host, and every other value is kept |
| ConfigHandler.ConfigStore.LoadConfig | config_handler.py:5-7 | the whole stored object, or `FileNotFoundError` when there is no file |
| ConfigHandler.ConfigStore.GetDatasphereHost | config_handler.py:9-11 | the stored host, none when the key is absent, the load error when the file is |
| ConfigHandler.ConfigStore.SetDatasphereHost | config_handler.py:13-17 | replaces the one key and writes the object back; fails iff there is no file, and then creates none |
| ConfigHandler.SetThenGet | config_handler.py:9-17 | setting the host and reading it back gives the host that was set |
| ConfigHandler.SetKeepsOtherKeys | config_handler.py:14-16 | setting the host leaves every other key and its value as it was |
| ConfigHandler.SetKeys | config_handler.py:14-16 | after a set the object's keys are the old keys plus the host key |
| ConfigHandler.SetIdempotent | config_handler.py:15-17 | setting the same host twice leaves what setting it once leaves |
| ConfigHandler.AbsentHostReadsNone | config_handler.py:11 | an absent host reads as none, not as an error |
| ConfigHandler.MissingFile | config_handler.py:5-7 | without a file the read fails and a set creates nothing |
| SecretsHandler.KeysDistinct | secrets_handler.py:7-22 | the payload's fifteen JSON keys are pairwise distinct |
| SecretsHandler.AsDict | secrets_handler.py:7-22 | a payload's dict has exactly the schema's keys |
| SecretsHandler.DictEntry | secrets_handler.py:7-22 | each key holds the value of its own field, with the field's type |
| SecretsHandler.AsDictInjective | secrets_handler.py:7-22 | no field is lost: payloads with the same dict are equal |
| SecretsHandler.FifteenFields | secrets_handler.py:7-22 | a payload's dict has exactly fifteen entries |
| SecretsHandler.Stored | secrets_handler.py:36-45 | no file reads as `{}`, a complete JSON object reads as exactly its entries, and a read fails iff the file holds a truncated text |
| SecretsHandler.AfterSave | secrets_handler.py:24-34 | after a successful save the file reads back as the data; a failed open leaves the file as it was; a failure after the open leaves a file that does not read |
| SecretsHandler.SaveReply | secrets_handler.py:29-34 | the reply has one entry: the message "Secrets saved successfully" iff the write succeeded, else the error text, never both |
| SecretsHandler.SecretsStore.SaveSecrets | secrets_handler.py:24-34 | the open, which truncates, then the dump: a success replaces the whole stored object, a failure to open leaves the file alone, a failure after it leaves a truncated file; every failure is returned, not raised |
| SecretsHandler.SecretsStore.GetSecrets | secrets_handler.py:36-45 | the stored object, the empty object when there is no file, and the JSON decode error for a truncated file |
| SecretsHandler.SaveThenGet | secrets_handler.py:24-45 | saving and reading back gives the saved object |
| SecretsHandler.FailedSaveThenGet | secrets_handler.py:29-45 | after a failed open a read gives what it gave before; after a failure past the open it gives the decode error |
| SecretsHandler.PayloadRoundTrip | secrets_handler.py:24-45 | a saved payload reads back as its dict with all fifteen fields, and that dict belongs to no other payload |
| SecretsHandler.SaveReplacesWholeObject | secrets_handler.py:30-31 | no key of the old content that the new data lacks survives a save |
| SecretsHandler.MissingFileReadsEmpty | secrets_handler.py:41-45 | reading a missing file gives the empty object, not an error |

## Left out

- `app.py` is not part of this model: routing, the async handlers and the re-wrapping of exceptions into responses.
- Process execution is not modelled. The shell's answers are an oracle, and the model states the command string, not how a shell would parse it.
- `print` logging is not modelled.
- `run_in_threadpool`, concurrency, and races on the shared files are not modelled; every operation runs alone.
- The installers in `cli_setup.py` (`is_installed`, `install_npm`, `install_datasphere`, `check_and_install_tools`) are not modelled. They only run installer processes.
- `load_credentials` is not modelled; the stored users are a parameter.
- Failures of `load_credentials` are not modelled. It runs inside the `try` (auth.py:29), after the header has been parsed. A malformed `credentials.json` raises `json.JSONDecodeError`, which is a `ValueError`, so every well-formed header then gets the 400 "Invalid credentials format" (auth.py:43-48). A missing file, a missing `users` key, or a record without `username` or `password_hash` raises an error the `except` does not name, and it propagates.
- Auth.VerifyBasicAuth: records are compared by exact string equality and stored values are taken to be strings; JSON values of other types in `credentials.json` are not modelled.
- JSON encoding and decoding and Pydantic validation internals are not modelled. Config values are strings; secret values are text, integers or booleans.
- SecretsHandler.SecretsStore.SaveSecrets: a failure after the open is modelled as leaving text that is not a complete JSON object. Which prefix of the JSON text reached the disk is not modelled.
- SecretsHandler.SecretsStore.SaveSecrets: the error text of `str(e)` comes from the file system and is a parameter.
- ConfigHandler.ConfigStore.SetDatasphereHost: a failure while writing the file back is not modelled. Only the missing file on load is.
- ConfigHandler.ConfigStore.GetDatasphereHost: a config file that exists but is not valid JSON is not modelled.
- CliSetup.Setup.Load: a missing config file makes the module fail to import, so the constructor requires a file; no such object exists in the source either.
- CliCommands.Commands.Load: same as `CliSetup.Setup.Load`.
- Auth.SchemeCaseInsensitive: the scheme test lowers ASCII letters only. This decides `lower() == "basic"` exactly, because no other character lowercases to one of those letters. Other uses of `str.lower()` are not modelled.
- Base64.Decode: follows the non-strict reading of CPython's `binascii.a2b_base64` as `b64decode` calls it by default. It skips characters outside the alphabet, stops at a pad that completes a group, and rejects an unfinished group. It does not follow later changes to that function's strict-mode options, which `b64decode` does not use here.
- Auth.EncodedHeaderRefused: the concrete refused header `Basic YWxpY2U6d3Jvbmc=` (alice with the password "wrong") has no literal instance, because evaluating base64 on that literal is too costly for the verifier; the general lemma covers it.
