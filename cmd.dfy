/**
 * The command registry and dispatcher of go-cmd (cmd.go): CmdInit installs
 * the table of commands, CmdProcess tokenizes a raw command line, looks the
 * first token up as the command name, binds the remaining tokens to the
 * command's declared parameters with a hand-advanced cursor and, only when
 * all of that succeeded, calls the command's handler.
 */
module Cmd {
  import opened Tokenizer

  datatype Option<T> = None | Some(value: T)

  /**
   * The declared type of a parameter. The dispatcher only ever asks whether
   * it is bool (a flag that takes no value); every other type, whatever its
   * name, takes the next token as its value.
   */
  datatype ParamKind = Bool | Other(typeName: string)

  /** Names a handler function; what the handler does is not part of this model. */
  type HandlerId = nat

  /** The parsed parameters a handler receives: parameter name to value text. */
  type Params = map<string, string>

  /**
   * What the handler named by the first argument returns when called with
   * the given parameters: None is a nil error, Some(msg) an error.
   */
  type HandlerCall = (HandlerId, Params) -> Option<string>

  /** A command descriptor (CmdCommand); handler None is a nil handler. */
  datatype Command = Command(
    commandName: string,
    handler: Option<HandlerId>,
    parameters: map<string, ParamKind>,
    helpMessage: string)

  /** The errors CmdProcess returns, with the token or name each one reports. */
  datatype CmdError =
    | CommandNotFound(name: string)
    | UnknownParameter(word: string)
    | MissingValue(parameter: string)
    | NilHandler(commandName: string)
    | HandlerFailed(cause: string)

  datatype ParseResult = Parsed(params: Params) | ParseError(error: CmdError)

  /**
   * What one call of CmdProcess did: either it stopped with an error before
   * any handler ran, or it called a handler with the parsed parameters and
   * got back `result`.
   */
  datatype Outcome =
    | Rejected(error: CmdError)
    | Invoked(handler: HandlerId, params: Params, result: Option<string>)
  {
    /**
     * The error value CmdProcess returns; None stands for nil. It is nil
     * exactly when a handler ran and returned nil; a handler's own error comes
     * back wrapped, and an error raised before any handler ran comes back as
     * it is.
     */
    function Returned(): (r: Option<CmdError>)
      ensures r.None? <==> Invoked? && result.None?
      ensures Invoked? && result.Some? ==> r == Some(HandlerFailed(result.value))
      ensures Rejected? ==> r == Some(error)
    {
      match this
      case Rejected(e) => Some(e)
      case Invoked(_, _, None) => None
      case Invoked(_, _, Some(cause)) => Some(HandlerFailed(cause))
    }
  }

  /**
   * The parameter loop of CmdProcess, with the tokens not yet visited and the
   * bindings made so far: a token must be a declared parameter; a bool
   * parameter is bound to "true" and the cursor moves on by one; any other
   * parameter is bound to the next token, whatever it is, and the cursor moves
   * on by two. A later binding of the same parameter replaces an earlier one.
   */
  function ParseParams(kinds: map<string, ParamKind>, words: seq<string>, acc: Params): (r: ParseResult)
    ensures r.ParseError? ==> r.error.UnknownParameter? || r.error.MissingValue?
    ensures r.Parsed? ==> acc.Keys <= r.params.Keys <= acc.Keys + kinds.Keys
    decreases |words|
  {
    if words == [] then Parsed(acc)
    else
      var word := words[0];
      if word !in kinds then ParseError(UnknownParameter(word))
      else if kinds[word] == Bool then ParseParams(kinds, words[1..], acc[word := "true"])
      else if |words| < 2 then ParseError(MissingValue(word))
      else ParseParams(kinds, words[2..], acc[word := words[1]])
  }

  /**
   * What CmdProcess(rawCmd) does against the registry `registry`. An error
   * raised before the handler runs is never a handler failure; a handler is
   * only called when token 0 names a registered command, it is that
   * command's handler, it sees only that command's declared parameters, and
   * its result is recorded as returned.
   */
  function Process(registry: map<string, Command>, rawCmd: string, call: HandlerCall): (r: Outcome)
    ensures r.Rejected? ==> !r.error.HandlerFailed?
    ensures r.Invoked? ==>
      && Tokenize(rawCmd)[0] in registry
      && registry[Tokenize(rawCmd)[0]].handler == Some(r.handler)
      && r.params.Keys <= registry[Tokenize(rawCmd)[0]].parameters.Keys
      && r.result == call(r.handler, r.params)
  {
    var listCmd := Tokenize(rawCmd);
    if listCmd[0] !in registry then Rejected(CommandNotFound(listCmd[0]))
    else
      var command := registry[listCmd[0]];
      match ParseParams(command.parameters, listCmd[1..], map[])
      case ParseError(e) => Rejected(e)
      case Parsed(params) =>
        if command.handler.None? then Rejected(NilHandler(command.commandName))
        else Invoked(command.handler.value, params, call(command.handler.value, params))
  }

  /** The package state of go-cmd: the table of registered commands. */
  class Registry {
    var registeredCommands: map<string, Command>

    /** Before CmdInit the table is Go's nil map, in which no lookup succeeds. */
    constructor ()
      ensures registeredCommands == map[]
    {
      registeredCommands := map[];
    }

    /**
     * Replaces the whole table by a copy of cmdMap: afterwards exactly the
     * names of cmdMap are registered, each with cmdMap's descriptor, and
     * nothing registered before survives.
     */
    method CmdInit(cmdMap: map<string, Command>)
      modifies this
      ensures registeredCommands.Keys == cmdMap.Keys
      ensures forall name :: name in cmdMap ==> registeredCommands[name] == cmdMap[name]
    {
      registeredCommands := map[];
      registeredCommands := registeredCommands + cmdMap;
    }

    /**
     * Runs one command line. The result is the one Process specifies; the
     * lemmas of CmdProperties state what that means.
     */
    method CmdProcess(rawCmd: string, call: HandlerCall) returns (r: Outcome)
      ensures r == Process(registeredCommands, rawCmd, call)
    {
      var trimmedCmd := TrimSpace(rawCmd);
      var normalizedCmd := Normalize(trimmedCmd);
      var listCmd := Split(normalizedCmd);
      assert listCmd == Tokenize(rawCmd);

      if listCmd[0] !in registeredCommands {
        return Rejected(CommandNotFound(listCmd[0]));
      }
      var specificCmd := registeredCommands[listCmd[0]];

      var parsedParams: Params := map[];
      var it := 1;
      while it < |listCmd|
        invariant 1 <= it <= |listCmd|
        invariant ParseParams(specificCmd.parameters, listCmd[1..], map[])
               == ParseParams(specificCmd.parameters, listCmd[it..], parsedParams)
        decreases |listCmd| - it
      {
        ghost var rest := listCmd[it..];
        var word := listCmd[it];
        assert rest[0] == word;
        if word !in specificCmd.parameters {
          assert ParseParams(specificCmd.parameters, rest, parsedParams) == ParseError(UnknownParameter(word));
          return Rejected(UnknownParameter(word));
        }
        var parameterName := word;
        if specificCmd.parameters[word] == Bool {
          parsedParams := parsedParams[parameterName := "true"];
          assert rest[1..] == listCmd[it + 1..];
        } else {
          it := it + 1;
          if it >= |listCmd| {
            assert ParseParams(specificCmd.parameters, rest, parsedParams) == ParseError(MissingValue(word));
            return Rejected(MissingValue(parameterName));
          }
          parsedParams := parsedParams[parameterName := listCmd[it]];
          assert rest[1] == listCmd[it] && rest[2..] == listCmd[it + 1..];
        }
        it := it + 1;
      }
      assert ParseParams(specificCmd.parameters, listCmd[1..], map[]) == Parsed(parsedParams) by {
        assert listCmd[it..] == [];
      }

      if specificCmd.handler.None? {
        return Rejected(NilHandler(specificCmd.commandName));
      }
      var err := call(specificCmd.handler.value, parsedParams);
      return Invoked(specificCmd.handler.value, parsedParams, err);
    }
  }
}
