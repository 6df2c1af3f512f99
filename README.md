# go-cmd command dispatcher, modelled in Dafny

go-cmd is a small Go library for command-line style dispatch. `CmdInit`
installs a table that maps command names to descriptors. Each descriptor
holds a handler function, a map from parameter flag (such as `--foo`) to
its declared type, and a help text. `CmdProcess` takes one raw command line
and does the following:

1. It trims white space at both ends.
2. It turns every `=` into a space, so `--foo=bar` is the same as `--foo bar`.
3. It splits the line on single spaces.
4. It looks the first token up as the command name.
5. It walks the remaining tokens with a cursor that the loop body advances
   by hand. A `bool` parameter is bound to `"true"`. Any other parameter
   takes the next token as its value.
6. If all of that succeeded, it calls the handler with the bound
   parameters.

The project has three modules:

- `Tokenizer` (`tokenizer.dfy`) models trimming, `=` rewriting, splitting
  and joining as pure functions. It also holds their round-trip and
  separator lemmas.
- `Cmd` (`cmd.dfy`) holds the data model and the specification functions
  `ParseParams` (the parameter loop) and `Process` (one whole call). It
  also holds the class `Registry`, which models the package-level table
  `registeredCommands`. `Registry.CmdInit` replaces that table.
  `Registry.CmdProcess` is the imperative dispatcher: the same `while` loop
  with the same cursor and the same early returns. It is proved to compute
  `Process`.
- `CmdProperties` (`cmd_properties.dfy`) holds the lemmas that say what
  `ParseParams` and `Process` promise.

Modelling choices:

- A parameter's `reflect.Type` becomes `ParamKind = Bool | Other(typeName)`.
  The code only ever compares it with the type of `bool`.
- A handler function becomes `Option<HandlerId>`, where `None` is a nil
  handler. What a handler returns comes from a parameter
  `call: (HandlerId, Params) -> Option<string>`, where `None` is a nil
  error.
- The result of a call is an `Outcome`. It is either `Rejected(error)`,
  where no handler ran, or `Invoked(handler, params, result)`.
  `Outcome.Returned()` gives the Go error value. A handler's own error comes
  back as `HandlerFailed(cause)`, which stands for the `%w` wrapping.

Behaviour the model follows because `cmd.go` is written that way:

- `cmd.go` splits the line on single spaces (`strings.Split` with `" "`),
  not on runs of white space. Consecutive spaces therefore give empty
  tokens, and a blank line gives the single token `""`.
- Token 0 is always the command name. `cmd.go` has no single default
  command.
- `cmd.go` has no help flag and no help short-circuit. `cmd_test.go`
  (cmd_test.go:17-63) uses a help flag and a `CMD_MAIN` default command,
  but it calls an API that `cmd.go` does not define.

## Model

| member | source | states |
|---|---|---|
| `Tokenizer.TrimSpace` | cmd.go:59 | `strings.TrimSpace` gives a result no longer than the input that neither starts nor ends with white space (Go's `unicode.IsSpace` set) |
| `Tokenizer.TrimSpaceSlice` | cmd.go:59 | the trimmed line is a contiguous slice of the input, and everything cut off before and after it is white space |
| `Tokenizer.Normalize` | cmd.go:60-61 | `strings.ReplaceAll(s, "=", " ")` keeps the length and leaves no `=` |
| `Tokenizer.NormalizeAt` | cmd.go:60-61 | each character stays in place: an `=` becomes a space and every other character is unchanged |
| `Tokenizer.Split` | cmd.go:62 | `strings.Split(s, " ")` never gives an empty list (`""` gives `[""]`), and no token contains a space |
| `Tokenizer.SplitCount` | cmd.go:62 | there is one token more than `s` has spaces, so two consecutive spaces give an empty token |
| `Tokenizer.JoinSplit` | cmd.go:62 | joining the tokens of `s` with single spaces gives `s` back |
| `Tokenizer.SplitJoin` | cmd.go:62 | splitting the join of a non-empty list of space-free tokens gives the list back |
| `Tokenizer.Tokenize` | cmd.go:59-65 | the token list is never empty, so `listCmd[0]` exists, and no token contains `=` or a space |
| `Tokenizer.TokenizeJoin` | cmd.go:59-62 | the number of tokens is the number of spaces in the normalized line plus one; joined with spaces, the tokens are the trimmed line with `=` replaced by space |
| `Tokenizer.TokenizeSeparator` | cmd.go:60-62 | `a=b` and `a b` give identical token lists when both parts have a non-blank character |
| `Cmd.Outcome.Returned` | cmd.go:101-109 | the returned error is nil exactly when a handler ran and returned nil; a handler's error comes back wrapped as `HandlerFailed`, and an error raised before any handler ran comes back unchanged |
| `Cmd.ParseParams` | cmd.go:73-98 | the parameter loop fails only with an unknown-parameter or a missing-value error; on success it keeps every binding it started with and adds only declared parameters |
| `Cmd.Process` | cmd.go:57-111 | an error raised before a handler runs is never a handler failure; a handler is called only for a registered token 0, it is that command's handler, it sees only that command's declared parameters, and its result is what is recorded |
| `Cmd.Registry.constructor` | cmd.go:25-26 | before `CmdInit` the table is empty (Go's nil map) |
| `Cmd.Registry.CmdInit` | cmd.go:48-52 | afterwards the table has exactly the keys of `cmdMap`, each with `cmdMap`'s descriptor; earlier contents are discarded |
| `Cmd.Registry.CmdProcess` | cmd.go:57-111 | the imperative dispatcher (trim, normalize, split, lookup, cursor loop that fills `parsedParams`, nil-handler check, handler call) returns exactly what `Process` specifies for the current table |
| `CmdProperties.ParseAppend` | cmd.go:74-98 | the cursor never revisits a token: after a prefix parses, the whole list parses as the rest does, starting from the prefix's bindings |
| `CmdProperties.BoolParamAdvancesOne` | cmd.go:84-85 | a declared bool parameter is bound to `"true"` and the cursor moves on by exactly one token |
| `CmdProperties.ValueParamAdvancesTwo` | cmd.go:86-97 | any other declared parameter is bound to the next token character for character, even when that token spells another flag; the cursor moves on by two |
| `CmdProperties.LastWriteWins` | cmd.go:85-96 | binding a parameter again replaces its earlier value and leaves every other binding as it was |
| `CmdProperties.MissingValueAtEnd` | cmd.go:88-94 | a value-taking parameter at the last token fails with the missing-value error naming that parameter |
| `CmdProperties.UnknownParameterAborts` | cmd.go:76-80 | a token read as a parameter name that is not declared stops the parse with the unknown-parameter error naming that token, whatever follows |
| `CmdProperties.ParsedParamsDeclared` | cmd.go:73-98 | on success every parsed key is a declared parameter that occurs among the tokens; bool keys are `"true"`; other keys are bound to a token |
| `CmdProperties.AllBoolParams` | cmd.go:74-86 | a line made only of declared bool parameters always parses and binds exactly those parameters to `"true"` |
| `CmdProperties.ParseErrorNamesToken` | cmd.go:76-94 | the loop fails only with an unknown parameter that is one of the tokens and not declared, or with a value-taking parameter that is the last token |
| `CmdProperties.ProcessCommandNotFound` | cmd.go:64-68 | the call fails with "command doesn't exist", naming token 0, exactly when token 0 is not registered; no handler runs |
| `CmdProperties.ProcessBlankLine` | cmd.go:59-68 | a blank line tokenizes to the single token `""` and fails with "command doesn't exist" unless `""` is registered |
| `CmdProperties.ProcessInvokesOnlyAfterParse` | cmd.go:100-109 | the handler is called if and only if the command exists, the whole parse succeeds and the handler is non-nil; it then gets exactly the parsed parameters |
| `CmdProperties.ProcessNilHandler` | cmd.go:100-103 | the "not specified" error arises if and only if the command exists, the whole parse succeeds and the handler is nil; in that case the outcome is exactly that error, carrying the descriptor's `CommandName` |
| `CmdProperties.ProcessParseErrorPropagates` | cmd.go:64-98 | when the command exists but its parameters do not parse, the call fails with that parse error (unknown parameter or missing value) and no handler runs, whether or not the handler is nil |
| `CmdProperties.ProcessParamsDeclared` | cmd.go:73-104 | the handler only sees declared parameters of its command, each named by a token after the command name |
| `CmdProperties.ProcessReturnedError` | cmd.go:57-111 | nil is returned only when the handler ran and returned nil; a handler error comes back wrapped; each other error carries its offending token or name, and each arises only in its own situation |
| `CmdProperties.ProcessSeparatorEquivalence` | cmd.go:60-62 | `x --foo=bar` and `x --foo bar` give the same outcome, including the same handler call with the same parameters |

## Left out

- The help flag, the help short-circuit, the single default command (`CMD_MAIN`) and help rendering are not in `cmd.go`. They exist only in `cmd_test.go`, against a different API, so they are not modelled.
- Error message text is not modelled. The `fmt.Errorf` format strings and `%w` wrapping become the structured `CmdError` kinds, each with the token or name its message contains.
- Handler bodies are not modelled. They are user code that cannot be seen; their results are the `call` parameter.
- `TypeOf` and `reflect.Type` are not modelled; the `ParamKind` tag replaces them. A nil `reflect.Type` in a parameter map would be an `Other` kind, because it is not equal to the type of `bool`.
- Concurrent access to the package-level table is not modelled. The model has a single `Registry` object.
- Invalid UTF-8 in the raw line is not modelled. Dafny strings are sequences of Unicode scalar values, so `TrimSpace` works on characters rather than bytes.
- `Cmd.Registry.CmdInit` does not model the sharing left by Go's shallow copy. `maps.Copy` copies the outer map only, so each descriptor's `Parameters` map (cmd.go:43) is still shared with the caller after `CmdInit` (cmd.go:51). The model treats descriptors as values and does not capture that sharing: a later change to a descriptor's parameter map made through the caller's map is not seen by the table.
- `CmdProperties.ProcessSeparatorEquivalence` assumes that handlers are deterministic. A handler's result is modelled as the pure function `call` of the handler and its parameters, so two calls with the same handler and the same parameters give the same result. A Go handler with side effects or hidden state could return different results on the two lines; what the lemma states unconditionally is that the same handler is called with the same parameters.
