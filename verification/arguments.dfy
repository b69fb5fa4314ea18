/** `Config::build`: turns the command-line arguments into a search
    configuration. The `IGNORE_CASE` environment lookup is a parameter:
    `ignoreCaseSet` is whether that variable is set to a valid Unicode value. */
module Arguments {

  datatype Config = Config(query: string, filePath: string, ignoreCase: bool)

  datatype BuildResult = Built(config: Config) | Rejected(message: string)

  const MissingArguments: string := "You must pass 2 parameters"

  /** Rejects an argument list without a query and a file path after the
      program name; otherwise takes them from positions 1 and 2 and ignores
      any further arguments. */
  function Build(args: seq<string>, ignoreCaseSet: bool): (r: BuildResult)
    ensures r.Rejected? <==> |args| < 3
    ensures r.Rejected? ==> r.message == MissingArguments
    ensures r.Built? ==> r.config.query == args[1] && r.config.filePath == args[2]
    ensures r.Built? ==> r.config.ignoreCase == ignoreCaseSet
  {
    if |args| < 3 then Rejected(MissingArguments)
    else Built(Config(args[1], args[2], ignoreCaseSet))
  }

  /** The argument list a configuration comes from: the program name, then
      the query, then the file path. */
  function CommandLine(program: string, c: Config): seq<string> {
    [program, c.query, c.filePath]
  }

  /** Building from a configuration's own command line, with the variable set
      as the configuration says, gives that configuration back, whatever
      trailing arguments follow. */
  lemma BuildCommandLine(program: string, c: Config, extra: seq<string>)
    ensures Build(CommandLine(program, c) + extra, c.ignoreCase) == Built(c)
  {
    var args := CommandLine(program, c) + extra;
    assert args[1] == c.query && args[2] == c.filePath;
  }
}
