/** Command-line validation: the program takes exactly one argument, the
    path of its configuration file. */
module Args {
  import opened Wrappers

  datatype Args = Args(configPath: string)

  datatype ArgsError = NotEnoughArguments | TooManyArguments
  {
    function Message(): string {
      match this
      case NotEnoughArguments => "Not enough arguments provided"
      case TooManyArguments => "Too many arguments provided"
    }
  }

  /** Validates the argument vector, program name first. */
  function ParseArgs(args: seq<string>): (r: Result<Args, ArgsError>)
    ensures r == Err(NotEnoughArguments) <==> |args| < 2
    ensures r == Err(TooManyArguments) <==> |args| > 2
    ensures r.Ok? ==> |args| == 2 && r.value.configPath == args[|args| - 1]
  {
    if |args| < 2 then Err(NotEnoughArguments)
    else if |args| > 2 then Err(TooManyArguments)
    else Ok(Args(args[|args| - 1]))
  }

  /** The program name never influences the result. */
  lemma ProgramNameIgnored(args: seq<string>, name: string)
    requires |args| > 0
    ensures ParseArgs([name] + args[1..]) == ParseArgs(args)
  {
  }

  /** The two failures are reported with different messages. */
  lemma ErrorMessagesDistinct()
    ensures NotEnoughArguments.Message() != TooManyArguments.Message()
  {
  }
}
