# sc_clone decision logic in Dafny

sc_clone is a small Windows command-line clone of `sc.exe`. It calls the
Service Control Manager (SCM) to query, create, start, stop, delete and
configure services. Most of the program is plumbing for SCM calls. What this
project models is the decision logic inside that plumbing. Every SCM call is
replaced by an abstract outcome: a flag saying whether the two handles were
opened, and an optional value standing for a query's answer.

- `Wrappers`: `Option` and `Result`.
- `Win32`: the winsvc.h constants the program uses. `DWord` is a 32-bit
  unsigned code. The service-type word is a `bv32`.
- `Decimal`: `std::to_wstring` of a non-negative value (`Render`) and the part
  of `std::stoi` the model covers (`ParseInt`).
- `ServiceType`: `ServiceTypeToString` as a loop over the nine flag checks, in
  source order. It is proved equal to the specification function `TypeText`.
- `StatusQuery`: the run-state label and the report of `QueryServiceStatus`.
- `FailureArgs`: the failure-policy argument parser of
  `ConfigureServiceFailure`, including the `std::getline` split on `/` and the
  action list whose last entry a number token patches. `ParseFailureArgs` is
  the imperative method. `ParseFailure` is the fold that specifies it, and the
  lemmas are stated about `ParseFailure`.
- `FailureConfig`: the branch selection of `ConfigureServiceFailure`, the
  listing of the current policy, the action labels, and a submit-then-query
  round trip.
- `ServiceConfig`: `ConfigureService`. It covers the start-type token mapping
  and the exact argument tuple handed to `ChangeServiceConfigW`.
- `Dispatch`: `wmain`, as a function from the argument vector to the chosen
  operation and the exit code.

The model follows what the code does, including where that departs from
what `sc.exe` users would expect:
- An unrecognised command, or `create` without exactly one path, prints a
  message and exits with 0, not with a non-zero usage error.
- `ConfigureServiceFailure` always queries first. If the query succeeds, it
  only lists the current policy, even when arguments were given. Arguments
  are parsed only when the query fails.
- `config <name> ""` takes the query form, because the code tests
  `startType.empty()` and not whether the argument was passed.
- `config <name> <token>` changes more than the start type. The
  ChangeServiceConfigW call passes SERVICE_ERROR_NORMAL as the error control,
  not SERVICE_NO_CHANGE. A service whose error control was IGNORE, SEVERE or
  CRITICAL is reset to NORMAL.
- A rejected start type is answered with the suggestions the message prints,
  'automatic', 'manual' and 'disabled', although 'automatic' is not accepted
  (see "## Findings").

## Model

| member | source | states |
|---|---|---|
| ServiceType.ServiceTypeToString | sc_clone.cpp:25-63 | The result is `TypeText`. It holds the names of the set flags, in check order, joined by " \| ", headed by "Unknown" when SERVICE_WIN32_OWN_PROCESS is clear. When the text would be just "Unknown", the decimal value is returned instead. |
| ServiceType.DecimalExactlyWhenNoFlag | sc_clone.cpp:57-60 | The text is all digits exactly when `t & 0x13F == 0`, and then it is the decimal rendering of `t`. |
| ServiceType.UnknownPrefixExactly | sc_clone.cpp:26-31 | The text starts with "Unknown" exactly when some tested flag is set and bit 0x10 is clear. |
| ServiceType.NameListedIff | sc_clone.cpp:29-55 | Each tested flag's name appears among the collected names exactly when that flag's bits meet `t`. |
| ServiceType.NameCollectedIff | sc_clone.cpp:32-55 | For flags with distinct names, a name is collected by the first k checks exactly when its flag is among them and set. |
| Decimal.Render | sc_clone.cpp:59 | `to_wstring` of a non-negative value: non-empty, all digits, no leading zero. |
| Decimal.ValueOfRender | sc_clone.cpp:59 | Reading the rendered digits back yields the value itself. |
| Decimal.ParseInt | sc_clone.cpp:406 | A successful `stoi` of a digit string yields a value at most INT_MAX. |
| Decimal.ParseRender | sc_clone.cpp:406 | Every value up to INT_MAX, rendered, parses back to itself. |
| StatusQuery.StateLabel | sc_clone.cpp:88-90 | The label is one of RUNNING, STOPPED, PAUSED and UNKNOWN. It is UNKNOWN exactly for the codes other than SERVICE_RUNNING, SERVICE_STOPPED and SERVICE_PAUSED. |
| StatusQuery.StateLabelRoundTrip | sc_clone.cpp:88-90 | RUNNING, STOPPED and PAUSED read back to their codes, and UNKNOWN reads back to none. |
| StatusQuery.QueryServiceStatus | sc_clone.cpp:66-98 | A report exists exactly when both handles opened and the status query succeeded. It carries the service name, the type text and the state label. |
| FailureArgs.GetLine | sc_clone.cpp:411 | One getline call: nothing once the stream is exhausted. Otherwise a slash-free token and a position past it, where the consumed text is the token plus '/' or the token running to the end. |
| FailureArgs.Tokens | sc_clone.cpp:411 | Splitting a non-empty text yields at least one token. |
| FailureArgs.TokensHaveNoSlash | sc_clone.cpp:411 | No token contains '/'. |
| FailureArgs.TokensRebuild | sc_clone.cpp:411 | Joining the tokens with '/' (plus a trailing '/' when the text ends with one) rebuilds the text, so a trailing empty piece is dropped. |
| FailureArgs.TokensOfJoin | sc_clone.cpp:411 | Slash-free tokens with a non-empty last token split back from their join. |
| FailureArgs.ParseFailureArgs | sc_clone.cpp:398-441 | The loop over the arguments, with its inner getline loop, yields `ParseFailure(args)`. A failed `stoi` aborts with an error; otherwise the record is built with empty texts as null. |
| FailureArgs.ApplyToken | sc_clone.cpp:412-426 | A token fails exactly when it is neither a keyword nor a number `stoi` accepts. A restart, run or reboot token appends exactly one action of that kind with delay 0. A number token changes only the last action's delay; length, earlier actions and the last kind stay, and with no action it changes nothing. |
| FailureArgs.ApplyArg | sc_clone.cpp:405-432 | An argument fails exactly when its reset value or an action token is one `stoi` rejects. `reset=` sets only the reset period, `actions=` extends only the action kinds, and `reboot=` and `command=` set only their text to the whole remainder. An argument with no known prefix changes nothing. |
| FailureArgs.KindsWithLastDelay | sc_clone.cpp:421-423 | Patching the last delay keeps every action kind. |
| FailureArgs.ActionsFollowKeywords | sc_clone.cpp:411-427 | The kinds after a token list are the earlier kinds followed by the keyword tokens' kinds, in order. |
| FailureArgs.TokensParseIff | sc_clone.cpp:411-425 | A token list parses exactly when every token is a keyword or a number `stoi` accepts. |
| FailureArgs.ApplyArgsAppend | sc_clone.cpp:404-433 | Parsing a concatenation equals parsing the first part and continuing from its result. An error in the first part stops the whole parse. |
| FailureArgs.UnrecognisedIgnored | sc_clone.cpp:404-433 | An argument with none of the four prefixes changes nothing, wherever it stands. |
| FailureArgs.PrefixesExclusive | sc_clone.cpp:405-430 | No argument starts with two of `reset=`, `actions=`, `reboot=`, `command=`. |
| FailureArgs.FieldsFromArgs | sc_clone.cpp:404-433 | The last `reset=`, `reboot=` and `command=` win, with the reboot and command taken as the whole remainder. The action kinds are concatenated over the `actions=` arguments. |
| FailureArgs.ParsedRecord | sc_clone.cpp:398-441 | The submitted record has the last reset value, or 0 without one. Its action count and kinds are those of the keyword tokens, in input order. Its reboot message and command are the last remainders, absent when missing or empty. |
| FailureArgs.ParseSucceedsIff | sc_clone.cpp:404-433 | The parse succeeds exactly when every reset value and every action token is one `stoi` accepts. |
| FailureArgs.ExampleActions | sc_clone.cpp:407-427 | `actions=restart/10/reboot/5/run` yields [Restart 10, Reboot 5, Run Command 0]. |
| FailureArgs.ExampleReset | sc_clone.cpp:405-406 | `reset=300` alone yields reset 300, no actions, no reboot message, no command. |
| FailureArgs.ParsedValuesFit | sc_clone.cpp:437-438 | Every number in a submitted record is at most INT_MAX, so it fits the record's DWORD fields. |
| FailureConfig.ActionLabel | sc_clone.cpp:374-387 | The label is Restart, Reboot, Run Command or "Unknown action". It is "Unknown action" exactly for the codes that name no action kind. |
| FailureConfig.ActionLabelRoundTrip | sc_clone.cpp:374-387 | Codes 1, 2 and 3 are labelled Restart, Reboot and Run Command, and the labels read back to those kinds. Every other code names no kind, and its label reads back to none. |
| FailureConfig.KindCodeRoundTrip | sc_clone.cpp:413-418 | Every parsed kind's SC_ACTION_TYPE code maps back to the kind, through the code and through its label. |
| FailureConfig.ListActions | sc_clone.cpp:370-389 | The display loop yields one line per queried action, numbered from 1, with its label and delay. |
| FailureConfig.ConfigureServiceFailure | sc_clone.cpp:346-449 | Closed handles stop everything. A successful query lists the current policy whatever the arguments. A failed query with no arguments gives "none found". Otherwise the parsed record is submitted, or a failed `stoi` aborts, and these are the only ways to submit. |
| FailureConfig.ReadBackListing | sc_clone.cpp:371-388 | Reading labels and delays back from the listing of stored actions yields those actions. |
| FailureConfig.ReadBackIgnoresNumbers | sc_clone.cpp:373 | Reading back does not depend on the line numbers. |
| FailureConfig.SubmitThenQuery | sc_clone.cpp:436-441 | A submitted record fits in DWORDs. A registry that stores it verbatim lists back the same reset period and the same actions, in order. |
| ServiceConfig.StartTypeCode | sc_clone.cpp:268-280 | Exactly auto, manual and disabled are valid, and the token of each resulting code is the token itself. |
| ServiceConfig.StartTypeCodes | sc_clone.cpp:268-275 | auto, manual and disabled map to AUTO_START, DEMAND_START and DISABLED. |
| ServiceConfig.StartTypeRoundTrip | sc_clone.cpp:268-275 | Token to code and code to token agree in both directions. |
| ServiceConfig.ConfigureService | sc_clone.cpp:224-298 | Closed handles stop everything. An empty start type shows the configuration. A valid token issues one change of the start type that also forces error control to NORMAL. Any other token is rejected with the suggestions the message prints: 'automatic', 'manual', 'disabled'. |
| ServiceConfig.ChangesExactlyOnce | sc_clone.cpp:284-288 | A valid token issues exactly one change: service type SERVICE_NO_CHANGE, the token's start type, SERVICE_ERROR_NORMAL, every pointer NULL. An invalid token issues none. |
| ServiceConfig.SuggestionAsWrittenRejected | sc_clone.cpp:268-279 | Whenever ConfigureService rejects a token, the first token it suggests ("automatic") is rejected too. |
| ServiceConfig.ConfigureServiceCorrected | sc_clone.cpp:268-279 | The intended ConfigureService: the same outcome, except that a rejected token is answered with auto, manual and disabled. |
| ServiceConfig.SuggestionsAccepted | sc_clone.cpp:268-276 | With the correction, a token is suggested exactly when it is accepted. |
| Dispatch.Invoke | sc_clone.cpp:457-500 | Fewer than three argv entries give the usage message and `wmain` returns 1. On every other path `wmain` returns 0 if it returns at all; see "## Left out" for the path that does not. |
| Dispatch.UnsupportedIff | sc_clone.cpp:467-497 | "Unsupported" is reached exactly for an unknown command, or for create without exactly four entries. |
| Dispatch.CreateNeedsFourArguments | sc_clone.cpp:470-472 | create is chosen only when argc == 4, forwarding argv[3] as the path. Otherwise it is unsupported. |
| Dispatch.ConfigPassesStartType | sc_clone.cpp:479-485 | config passes argv[3] exactly when argc > 3; otherwise it passes the empty default. |
| Dispatch.FailureForwardsRest | sc_clone.cpp:488-494 | failure forwards argv[3..] in order. |
| Dispatch.ExtraArgumentsIgnored | sc_clone.cpp:468-487 | Extra arguments do not change what query, start, stop, delete and qdescription do. |
| Dispatch.CommandLineRoundTrip | sc_clone.cpp:464-494 | Every selectable operation is chosen, with exit code 0, by its own command line. |
| Dispatch.SelectedLineIsPrefix | sc_clone.cpp:464-494 | The chosen operation's command line is a prefix of argv. |
| Dispatch.ConfigQueryForm | sc_clone.cpp:240-282 | `config <name>` and `config <name> ""` reach the query form. A valid argv[3] reaches a change. |

## Left out

- All SCM calls (OpenSCManager, OpenServiceW, CreateServiceW, StartService, ControlService, DeleteService, QueryServiceConfig*, QueryServiceStatusEx, ChangeServiceConfig*, CloseServiceHandle). They are foreign OS calls. Their results are inputs (`handlesOpen`, an optional query answer), and a change call is modelled as the request it would send.
- Whether QueryServiceConfig2W succeeds with a buffer of only `sizeof(SERVICE_FAILURE_ACTIONS)` is OS behaviour. The query's success is an input.
- Console output text, PrintErrorMessage, FormatMessage and the success or failure messages after a change call are I/O. Only the values that would be shown are modelled.
- LocalAlloc, malloc and free, and the memory-allocation failure branch of the configuration query, are memory plumbing.
- Handle release bookkeeping is resource plumbing. This includes the manager handle not closed when CreateService fails (sc_clone.cpp:125-128).
- CreateServiceEntry, StartServiceEntry, StopServiceEntry, DeleteServiceEntry and QueryServiceDescription are reduced to the operation the dispatcher selects. Their bodies are SCM calls and output only.
- The display of the stored configuration (sc_clone.cpp:241-266) is output only, and appears as the `ShowConfig` outcome.
- Decimal.ParseInt: models `std::stoi` only on non-empty all-digit text up to INT_MAX. It does not model leading whitespace, a sign, a digit prefix followed by other text such as "10abc", or the wrap of a negative value into a DWORD. Every such text is treated as a `stoi` failure.
- Dispatch.Invoke: the exit code modelled is `wmain`'s return value. When `failure` is run, the failure-actions query fails and `std::stoi` throws (the `Aborted` outcome of `FailureConfig.ConfigureServiceFailure`), the process is ended by `std::terminate` with a non-zero status. `wmain` then never returns, so this path is not the exit code 0 the function gives.
- FailureConfig.SubmitThenQuery: assumes a registry that stores the submitted record verbatim (`Stored`). The real SCM may not. When no action was parsed, `lpsaActions` is NULL (sc_clone.cpp:439), and ChangeServiceConfig2W then ignores `cActions` and `dwResetPeriod`. So `reset=300` alone would not read back through a real SCM.
- FailureArgs.ParseFailureArgs: an exception from `std::stoi` is not caught by the program, so the whole invocation ends. The model represents this as an `Err` result with nothing submitted.
- Wide characters, locale and the wide-string API are not modelled; `std::wstring` is `seq<char>`.

## Findings

| source | as written | input that shows it | evidently intended | confidence | as-written member | corrected member |
|---|---|---|---|---|---|---|
| sc_clone.cpp:276 | The invalid-start-type message tells the user to use 'automatic', 'manual' or 'disabled'. | `sc_clone config svc automatic`: the suggested token is itself rejected as invalid. | Suggest the accepted tokens: auto, manual, disabled. | not executed; follows from sc_clone.cpp:268-276 | ServiceConfig.SuggestionAsWrittenRejected | ServiceConfig.ConfigureServiceCorrected |
