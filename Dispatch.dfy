/**
 * The command dispatch of wmain: from the argument vector (argv[0] is the
 * program name) to the operation it selects, with its arguments, and the
 * process exit code.
 */
module Dispatch {
  import opened Wrappers
  import ServiceConfig

  const QueryCommand := "query"
  const CreateCommand := "create"
  const StartCommand := "start"
  const StopCommand := "stop"
  const DeleteCommand := "delete"
  const ConfigCommand := "config"
  const DescriptionCommand := "qdescription"
  const FailureCommand := "failure"

  /** The routine wmain calls, with the arguments it passes. */
  datatype Operation =
    | ShowUsage                                          // fewer than three argv entries
    | QueryStatus(serviceName: string)
    | Create(serviceName: string, executablePath: string)
    | Start(serviceName: string)
    | Stop(serviceName: string)
    | Delete(serviceName: string)
    | Configure(serviceName: string, startType: Option<string>) // None: the default empty start type
    | QueryDescription(serviceName: string)
    | ConfigureFailure(serviceName: string, failureArgs: seq<string>)
    | Unsupported                                        // "Unsupported or incorrect command usage."

  datatype Invocation = Invocation(op: Operation, exitCode: int)

  /** wmain: only the usage error exits with 1; every other path, "unsupported" included, exits with 0. */
  function Invoke(argv: seq<string>): (r: Invocation)
    ensures r.exitCode == 1 <==> |argv| < 3
    ensures r.exitCode == 0 <==> |argv| >= 3
    ensures r.op == ShowUsage <==> |argv| < 3
  {
    if |argv| < 3 then Invocation(ShowUsage, 1)
    else
      var command, serviceName := argv[1], argv[2];
      var op :=
        if command == QueryCommand then QueryStatus(serviceName)
        else if command == CreateCommand && |argv| == 4 then Create(serviceName, argv[3])
        else if command == StartCommand then Start(serviceName)
        else if command == StopCommand then Stop(serviceName)
        else if command == DeleteCommand then Delete(serviceName)
        else if command == ConfigCommand then
          Configure(serviceName, if |argv| > 3 then Some(argv[3]) else None)
        else if command == DescriptionCommand then QueryDescription(serviceName)
        else if command == FailureCommand then ConfigureFailure(serviceName, argv[3..])
        else Unsupported;
      Invocation(op, 0)
  }

  /** The commands wmain knows. */
  predicate KnownCommand(command: string)
  {
    command in {QueryCommand, CreateCommand, StartCommand, StopCommand, DeleteCommand,
                ConfigCommand, DescriptionCommand, FailureCommand}
  }

  /** "Unsupported" is reached exactly for an unknown command, or for create without exactly one path. */
  lemma UnsupportedIff(argv: seq<string>)
    requires |argv| >= 3
    ensures Invoke(argv).op == Unsupported <==>
      !KnownCommand(argv[1]) || (argv[1] == CreateCommand && |argv| != 4)
  {
  }

  /** create is chosen only with exactly four argv entries, and then forwards the path. */
  lemma CreateNeedsFourArguments(argv: seq<string>)
    requires |argv| >= 3 && argv[1] == CreateCommand
    ensures Invoke(argv).op.Create? <==> |argv| == 4
    ensures |argv| == 4 ==> Invoke(argv).op == Create(argv[2], argv[3])
    ensures |argv| != 4 ==> Invoke(argv).op == Unsupported
  {
  }

  /** config passes argv[3] exactly when there is one; otherwise ConfigureService sees its empty default. */
  lemma ConfigPassesStartType(argv: seq<string>)
    requires |argv| >= 3 && argv[1] == ConfigCommand
    ensures Invoke(argv).op.Configure? && Invoke(argv).op.serviceName == argv[2]
    ensures Invoke(argv).op.startType.Some? <==> |argv| > 3
    ensures Invoke(argv).op.startType.GetOr([]) == (if |argv| > 3 then argv[3] else [])
  {
  }

  /** failure forwards every argument after the service name, in order. */
  lemma FailureForwardsRest(argv: seq<string>)
    requires |argv| >= 3 && argv[1] == FailureCommand
    ensures Invoke(argv).op == ConfigureFailure(argv[2], argv[3..])
    ensures argv == argv[..3] + Invoke(argv).op.failureArgs
  {
  }

  /** The commands that look at nothing after the service name. */
  predicate IgnoresExtra(command: string)
  {
    command in {QueryCommand, StartCommand, StopCommand, DeleteCommand, DescriptionCommand}
  }

  /** Extra arguments do not change what query, start, stop, delete and qdescription do. */
  lemma ExtraArgumentsIgnored(argv: seq<string>, extra: seq<string>)
    requires |argv| >= 3 && IgnoresExtra(argv[1])
    ensures Invoke(argv + extra) == Invoke(argv)
  {
  }

  /** The operations a command line can select. */
  predicate Selectable(op: Operation)
  {
    !op.ShowUsage? && !op.Unsupported?
  }

  /** The shortest command line that selects an operation. */
  function CommandLine(program: string, op: Operation): seq<string>
    requires Selectable(op)
  {
    match op
    case QueryStatus(s) => [program, QueryCommand, s]
    case Create(s, path) => [program, CreateCommand, s, path]
    case Start(s) => [program, StartCommand, s]
    case Stop(s) => [program, StopCommand, s]
    case Delete(s) => [program, DeleteCommand, s]
    case Configure(s, t) => [program, ConfigCommand, s] + (match t case Some(x) => [x] case None => [])
    case QueryDescription(s) => [program, DescriptionCommand, s]
    case ConfigureFailure(s, args) => [program, FailureCommand, s] + args
  }

  /** Every selectable operation is selected, with exit code 0, by its command line. */
  lemma CommandLineRoundTrip(program: string, op: Operation)
    requires Selectable(op)
    ensures Invoke(CommandLine(program, op)) == Invocation(op, 0)
  {
  }

  /** The operation chosen from argv is the one its own command line selects, and that line begins argv. */
  lemma SelectedLineIsPrefix(argv: seq<string>)
    requires |argv| >= 3 && Selectable(Invoke(argv).op)
    ensures CommandLine(argv[0], Invoke(argv).op) <= argv
  {
  }

  /**
   * `config <name>` and `config <name> ""` both reach the query form of
   * ConfigureService; any argv[3] that is a valid token reaches a change.
   */
  lemma ConfigQueryForm(argv: seq<string>)
    requires |argv| >= 3 && argv[1] == ConfigCommand
    ensures var o := ServiceConfig.ConfigureService(true, Invoke(argv).op.startType.GetOr([]));
      && (o == ServiceConfig.ShowConfig <==> |argv| == 3 || argv[3] == [])
      && (o.ChangeStartType? <==> |argv| > 3 && ServiceConfig.StartTypeCode(argv[3]).Some?)
  {
    ConfigPassesStartType(argv);
  }
}
