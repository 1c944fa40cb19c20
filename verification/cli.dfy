/**
 * The command line after parsing: the check for option combinations the parser cannot
 * reject on its own, and the log verbosity and colour choice derived from the global flags.
 */
module Cli {
  import opened Ints
  import opened Wrappers
  import Model
  import SizeLimits

  datatype Command =
    | Query(queryOpt: Model.QueryOpt)
    | ListDrivers
    | ListDataSources
    | Insert(insertOpt: Model.InsertOpt)
    | Completions(output: Model.IoArg, shell: string)

  /** The parsed command line: `-q`, the number of `-v`, `--no-color`, and the subcommand. */
  datatype Cli = Cli(quiet: bool, verbose: u8, noColor: bool, command: Command)

  /** A file-splitting option given together with standard output as the target. */
  datatype ValidationError = FileSizeThresholdConflict | RowGroupsPerFileConflict

  /** Rejects file splitting when a query writes to standard output; the threshold is
      reported before the row-group bound. Every other command passes. */
  function PerformExtraValidation(cli: Cli): (r: Outcome<ValidationError>)
    ensures !cli.command.Query? ==> r == Pass
    ensures cli.command.Query? && Model.IsFile(cli.command.queryOpt.output) ==> r == Pass
    ensures r == Fail(FileSizeThresholdConflict) <==>
              && cli.command.Query?
              && !Model.IsFile(cli.command.queryOpt.output)
              && cli.command.queryOpt.fileSizeThreshold.Some?
    ensures r == Fail(RowGroupsPerFileConflict) <==>
              && cli.command.Query?
              && !Model.IsFile(cli.command.queryOpt.output)
              && cli.command.queryOpt.fileSizeThreshold.None?
              && cli.command.queryOpt.rowGroupsPerFile != 0
  {
    match cli.command
    case Query(queryOpt) =>
      if !Model.IsFile(queryOpt.output) then
        if queryOpt.fileSizeThreshold.Some? then Fail(FileSizeThresholdConflict)
        else if queryOpt.rowGroupsPerFile != 0 then Fail(RowGroupsPerFileConflict)
        else Pass
      else Pass
    case _ => Pass
  }

  /** Validation rejects exactly the queries whose output would be split although it goes
      to a single stream: it passes iff the target is a file or the selected policy never
      starts a new file. */
  lemma ValidationIffUnsplitOrFile(cli: Cli)
    requires cli.command.Query?
    ensures PerformExtraValidation(cli).Pass? <==>
              (Model.IsFile(cli.command.queryOpt.output)
               || !SizeLimits.OutputIsSplitted(Model.FileSizeLimitOf(cli.command.queryOpt)))
  {
    SizeLimits.OutputIsSplittedIffConfigured(cli.command.queryOpt.rowGroupsPerFile,
                                            cli.command.queryOpt.fileSizeThreshold);
  }

  /** A validated query to standard output never starts a second file, whatever the number
      of row groups written and the size reached. */
  lemma ValidatedStreamNeverSplits(cli: Cli, numBatch: u32, currentFileSize: u64)
    requires cli.command.Query? && !Model.IsFile(cli.command.queryOpt.output)
    requires PerformExtraValidation(cli) == Pass
    ensures !SizeLimits.ShouldStartNewFile(Model.FileSizeLimitOf(cli.command.queryOpt),
                                           numBatch, currentFileSize)
  {
  }

  /** Options built from a connection string always validate, whatever the global flags,
      and so do they after either builder alone or both. */
  lemma DefaultQueryValidates(quiet: bool, verbose: u8, noColor: bool,
                              connectionString: string, query: string, output: string,
                              threshold: u64, limit: usize)
    ensures PerformExtraValidation(Cli(quiet, verbose, noColor,
              Query(Model.FromConnectionString(connectionString, query, output)))) == Pass
    ensures PerformExtraValidation(Cli(quiet, verbose, noColor,
              Query(Model.WithFileSizeThreshold(Model.FromConnectionString(connectionString, query, output), threshold)))) == Pass
    ensures PerformExtraValidation(Cli(quiet, verbose, noColor,
              Query(Model.WithColumnLengthLimit(Model.FromConnectionString(connectionString, query, output), limit)))) == Pass
    ensures PerformExtraValidation(Cli(quiet, verbose, noColor,
              Query(Model.WithColumnLengthLimit(
                Model.WithFileSizeThreshold(Model.FromConnectionString(connectionString, query, output), threshold), limit)))) == Pass
  {
  }

  /** Verbosity handed to the logger: 0 (errors only) when quiet, otherwise one level above
      errors plus one per `-v`. */
  function Verbosity(cli: Cli): (v: nat)
    ensures v == 0 <==> cli.quiet
    ensures !cli.quiet ==> v == cli.verbose + 1
    ensures v <= 256
  {
    if cli.quiet then 0 else cli.verbose + 1
  }

  /** Log levels, most severe first. */
  datatype LogLevel = Error | Warn | Info | Debug | Trace

  /** The most detailed level the logger emits at a given verbosity (the mapping of the
      logging library: 0 errors, 1 warnings, 2 info, 3 debug, beyond that trace). */
  function MostDetailedLevel(verbosity: nat): LogLevel {
    if verbosity == 0 then Error
    else if verbosity == 1 then Warn
    else if verbosity == 2 then Info
    else if verbosity == 3 then Debug
    else Trace
  }

  /** The levels the flags are documented to select: `-q` errors only, no flag warnings,
      `-v` info, `-vv` debug, `-vvv` and more trace. */
  function DocumentedLevel(quiet: bool, verbose: nat): LogLevel {
    if quiet then Error
    else match verbose
      case 0 => Warn
      case 1 => Info
      case 2 => Debug
      case _ => Trace
  }

  /** The computed verbosity makes the logger emit exactly the documented levels. */
  lemma VerbosityMatchesDocumentation(cli: Cli)
    ensures MostDetailedLevel(Verbosity(cli)) == DocumentedLevel(cli.quiet, cli.verbose)
  {
  }

  /** Colour use of the log output. */
  datatype ColorChoice = Never | Auto

  /** `--no-color` forbids colours; otherwise the logger decides from the terminal. */
  function ColorChoiceOf(cli: Cli): (c: ColorChoice)
    ensures c == Never <==> cli.noColor
  {
    if cli.noColor then Never else Auto
  }
}
