/**
 * What the dispatcher of cmd.go promises, stated over the specification
 * functions ParseParams and Process of module Cmd (which Registry.CmdProcess
 * is proved to compute).
 */
module CmdProperties {
  import opened Tokenizer
  import opened Cmd

  // ---------------------------------------------------------------------------
  // The parameter loop
  // ---------------------------------------------------------------------------

  /**
   * The cursor never looks back: once a prefix of the parameter tokens has
   * been parsed without error, parsing the whole list is parsing the rest
   * starting from the bindings the prefix made.
   */
  lemma {:induction false} ParseAppend(kinds: map<string, ParamKind>, p: seq<string>, q: seq<string>, acc: Params)
    requires ParseParams(kinds, p, acc).Parsed?
    ensures ParseParams(kinds, p + q, acc) == ParseParams(kinds, q, ParseParams(kinds, p, acc).params)
    decreases |p|
  {
    if p == [] {
      assert p + q == q;
    } else {
      var word := p[0];
      assert (p + q)[0] == word;
      if kinds[word] == Bool {
        assert (p + q)[1..] == p[1..] + q;
        ParseAppend(kinds, p[1..], q, acc[word := "true"]);
      } else {
        assert (p + q)[1] == p[1];
        assert (p + q)[2..] == p[2..] + q;
        ParseAppend(kinds, p[2..], q, acc[word := p[1]]);
      }
    }
  }

  /**
   * A bool parameter met by the cursor is bound to "true" and the cursor
   * moves on by exactly one token: the token after it is read as the next
   * parameter name, not as a value.
   */
  lemma BoolParamAdvancesOne(kinds: map<string, ParamKind>, p: seq<string>, f: string, q: seq<string>)
    requires ParseParams(kinds, p, map[]).Parsed?
    requires f in kinds && kinds[f] == Bool
    ensures ParseParams(kinds, p + [f] + q, map[])
         == ParseParams(kinds, q, ParseParams(kinds, p, map[]).params[f := "true"])
  {
    assert p + [f] + q == p + ([f] + q);
    ParseAppend(kinds, p, [f] + q, map[]);
    assert ([f] + q)[1..] == q;
  }

  /**
   * A parameter of any other type met by the cursor is bound to the very next
   * token, character for character and whatever it is (even the spelling of
   * another declared parameter), and the cursor moves on by two tokens.
   */
  lemma ValueParamAdvancesTwo(kinds: map<string, ParamKind>, p: seq<string>, f: string, v: string, q: seq<string>)
    requires ParseParams(kinds, p, map[]).Parsed?
    requires f in kinds && kinds[f] != Bool
    ensures ParseParams(kinds, p + [f, v] + q, map[])
         == ParseParams(kinds, q, ParseParams(kinds, p, map[]).params[f := v])
  {
    assert p + [f, v] + q == p + ([f, v] + q);
    ParseAppend(kinds, p, [f, v] + q, map[]);
    assert ([f, v] + q)[2..] == q;
  }

  /**
   * A repeated parameter keeps its last binding: binding f again replaces
   * whatever an earlier occurrence bound, and leaves every other binding as
   * it was.
   */
  lemma LastWriteWins(kinds: map<string, ParamKind>, p: seq<string>, f: string, v: string)
    requires ParseParams(kinds, p, map[]).Parsed?
    requires f in kinds && kinds[f] != Bool
    ensures var before := ParseParams(kinds, p, map[]).params;
      var after := ParseParams(kinds, p + [f, v], map[]);
      && after.Parsed?
      && after.params.Keys == before.Keys + {f}
      && after.params[f] == v
      && forall k :: k in before && k != f ==> after.params[k] == before[k]
  {
    ValueParamAdvancesTwo(kinds, p, f, v, []);
    assert p + [f, v] + [] == p + [f, v];
  }

  /**
   * A parameter that needs a value but stands where the cursor reaches the
   * last token fails with the missing-value error naming that parameter.
   */
  lemma MissingValueAtEnd(kinds: map<string, ParamKind>, p: seq<string>, f: string)
    requires ParseParams(kinds, p, map[]).Parsed?
    requires f in kinds && kinds[f] != Bool
    ensures ParseParams(kinds, p + [f], map[]) == ParseError(MissingValue(f))
  {
    ParseAppend(kinds, p, [f], map[]);
  }

  /**
   * A token the cursor reads as a parameter name that the command does not
   * declare stops the parse with the unknown-parameter error naming that
   * token, whatever follows it.
   */
  lemma UnknownParameterAborts(kinds: map<string, ParamKind>, p: seq<string>, w: string, q: seq<string>)
    requires ParseParams(kinds, p, map[]).Parsed?
    requires w !in kinds
    ensures ParseParams(kinds, p + [w] + q, map[]) == ParseError(UnknownParameter(w))
  {
    assert p + [w] + q == p + ([w] + q);
    ParseAppend(kinds, p, [w] + q, map[]);
  }

  /** Every binding the loop adds is for a declared parameter named by a token, with a value that is a token. */
  lemma {:induction false} ParseBindsTokens(kinds: map<string, ParamKind>, words: seq<string>, acc: Params)
    requires ParseParams(kinds, words, acc).Parsed?
    ensures var m := ParseParams(kinds, words, acc).params;
      && acc.Keys <= m.Keys
      && forall k :: k in m ==>
           || (k in acc && m[k] == acc[k])
           || (k in kinds && k in words && (if kinds[k] == Bool then m[k] == "true" else m[k] in words))
    decreases |words|
  {
    if words != [] {
      var word := words[0];
      if kinds[word] == Bool {
        ParseBindsTokens(kinds, words[1..], acc[word := "true"]);
      } else {
        ParseBindsTokens(kinds, words[2..], acc[word := words[1]]);
        assert words[1] in words;
      }
    }
  }

  /**
   * On success every parsed parameter is a declared parameter that occurs
   * among the tokens; a bool one is bound to "true", any other one to a
   * token of the command line.
   */
  lemma ParsedParamsDeclared(kinds: map<string, ParamKind>, words: seq<string>)
    requires ParseParams(kinds, words, map[]).Parsed?
    ensures var m := ParseParams(kinds, words, map[]).params;
      && m.Keys <= kinds.Keys
      && forall k :: k in m ==> k in words && (if kinds[k] == Bool then m[k] == "true" else m[k] in words)
  {
    ParseBindsTokens(kinds, words, map[]);
  }

  /**
   * A command line made only of declared bool parameters never needs a
   * value: it parses, and binds each of them to "true".
   */
  lemma {:induction false} AllBoolParams(kinds: map<string, ParamKind>, words: seq<string>, acc: Params)
    requires forall w :: w in words ==> w in kinds && kinds[w] == Bool
    ensures var r := ParseParams(kinds, words, acc);
      && r.Parsed?
      && (forall k :: k in r.params <==> k in acc || k in words)
      && (forall k :: k in r.params ==> r.params[k] == if k in words then "true" else acc[k])
    decreases |words|
  {
    if words != [] {
      var word := words[0];
      AllBoolParams(kinds, words[1..], acc[word := "true"]);
      assert forall k :: k in words <==> k == word || k in words[1..] by {
        assert words == [word] + words[1..];
      }
    }
  }

  /**
   * The loop only fails in two ways: on a token that is not a declared
   * parameter, naming that token, or on a value-taking parameter that is the
   * last token, naming that parameter.
   */
  lemma {:induction false} ParseErrorNamesToken(kinds: map<string, ParamKind>, words: seq<string>, acc: Params)
    requires ParseParams(kinds, words, acc).ParseError?
    ensures var e := ParseParams(kinds, words, acc).error;
      || (e.UnknownParameter? && e.word in words && e.word !in kinds)
      || (e.MissingValue? && |words| > 0 && e.parameter == words[|words| - 1]
          && e.parameter in kinds && kinds[e.parameter] != Bool)
    decreases |words|
  {
    var word := words[0];
    if word in kinds {
      if kinds[word] == Bool {
        ParseErrorNamesToken(kinds, words[1..], acc[word := "true"]);
        assert words[1..][|words| - 2] == words[|words| - 1];
      } else if |words| >= 2 {
        ParseErrorNamesToken(kinds, words[2..], acc[word := words[1]]);
        assert words[2..][|words| - 3] == words[|words| - 1];
      }
    }
  }

  // ---------------------------------------------------------------------------
  // One call of CmdProcess
  // ---------------------------------------------------------------------------

  /**
   * The first token is always there and is the command name: the call fails
   * with "command doesn't exist", naming it, exactly when it is not
   * registered, and then no handler runs.
   */
  lemma ProcessCommandNotFound(registry: map<string, Command>, rawCmd: string, call: HandlerCall)
    ensures var o := Process(registry, rawCmd, call);
      && (o.Rejected? && o.error.CommandNotFound? <==> Tokenize(rawCmd)[0] !in registry)
      && (Tokenize(rawCmd)[0] !in registry ==> o == Rejected(CommandNotFound(Tokenize(rawCmd)[0])))
  {
    var tokens := Tokenize(rawCmd);
    if tokens[0] in registry {
      var command := registry[tokens[0]];
      var parsed := ParseParams(command.parameters, tokens[1..], map[]);
      if parsed.ParseError? {
        ParseErrorNamesToken(command.parameters, tokens[1..], map[]);
      }
    }
  }

  /**
   * A blank command line is the single empty token: unless "" is a
   * registered name it fails with "command doesn't exist".
   */
  lemma ProcessBlankLine(registry: map<string, Command>, rawCmd: string, call: HandlerCall)
    requires !HasNonSpace(rawCmd)
    requires "" !in registry
    ensures Tokenize(rawCmd) == [""]
    ensures Process(registry, rawCmd, call) == Rejected(CommandNotFound(""))
  {
    TrimLeftBlank(rawCmd);
    assert Normalize(TrimSpace(rawCmd)) == [];
  }

  /**
   * The handler is called if and only if the command is registered, every
   * parameter token parsed and the handler is not nil; it then receives
   * exactly the parsed parameters, and what it returns is recorded.
   */
  lemma ProcessInvokesOnlyAfterParse(registry: map<string, Command>, rawCmd: string, call: HandlerCall)
    ensures var o := Process(registry, rawCmd, call);
      var tokens := Tokenize(rawCmd);
      && (o.Invoked? <==>
           && tokens[0] in registry
           && ParseParams(registry[tokens[0]].parameters, tokens[1..], map[]).Parsed?
           && registry[tokens[0]].handler.Some?)
      && (o.Invoked? ==>
           && o.handler == registry[tokens[0]].handler.value
           && o.params == ParseParams(registry[tokens[0]].parameters, tokens[1..], map[]).params
           && o.result == call(o.handler, o.params))
  {
  }

  /**
   * A parse that succeeds for a command with a nil handler fails with the
   * "not specified" error, which names the descriptor's own CommandName; no
   * other situation gives that error.
   */
  lemma ProcessNilHandler(registry: map<string, Command>, rawCmd: string, call: HandlerCall)
    ensures var o := Process(registry, rawCmd, call);
      var tokens := Tokenize(rawCmd);
      (o.Rejected? && o.error.NilHandler?) <==>
        && tokens[0] in registry
        && ParseParams(registry[tokens[0]].parameters, tokens[1..], map[]).Parsed?
        && registry[tokens[0]].handler.None?
    ensures var o := Process(registry, rawCmd, call);
      var tokens := Tokenize(rawCmd);
      (&& tokens[0] in registry
       && ParseParams(registry[tokens[0]].parameters, tokens[1..], map[]).Parsed?
       && registry[tokens[0]].handler.None?) ==>
        o == Rejected(NilHandler(registry[tokens[0]].commandName))
  {
    var tokens := Tokenize(rawCmd);
    if tokens[0] in registry {
      var command := registry[tokens[0]];
      var parsed := ParseParams(command.parameters, tokens[1..], map[]);
      if parsed.ParseError? {
        ParseErrorNamesToken(command.parameters, tokens[1..], map[]);
      }
    }
  }

  /**
   * When the command exists but its parameters do not parse, the call fails
   * with the parse error itself (an unknown parameter or a missing value)
   * and no handler runs, whether or not the handler is nil.
   */
  lemma ProcessParseErrorPropagates(registry: map<string, Command>, rawCmd: string, call: HandlerCall)
    ensures var tokens := Tokenize(rawCmd);
      tokens[0] in registry && ParseParams(registry[tokens[0]].parameters, tokens[1..], map[]).ParseError? ==>
        Process(registry, rawCmd, call)
          == Rejected(ParseParams(registry[tokens[0]].parameters, tokens[1..], map[]).error)
  {
  }

  /**
   * The handler only ever sees declared parameters of the command it
   * belongs to, each named by a token after the command name; bool ones are
   * "true" and the others carry a token of the command line.
   */
  lemma ProcessParamsDeclared(registry: map<string, Command>, rawCmd: string, call: HandlerCall)
    requires Process(registry, rawCmd, call).Invoked?
    ensures var o := Process(registry, rawCmd, call);
      var tokens := Tokenize(rawCmd);
      var kinds := registry[tokens[0]].parameters;
      && o.params.Keys <= kinds.Keys
      && forall k :: k in o.params ==>
           && k in tokens[1..]
           && (if kinds[k] == Bool then o.params[k] == "true" else o.params[k] in tokens[1..])
  {
    var tokens := Tokenize(rawCmd);
    ParsedParamsDeclared(registry[tokens[0]].parameters, tokens[1..]);
  }

  /**
   * Every error CmdProcess returns is one of the five kinds, carrying the
   * offending token or name; a handler's own error comes back wrapped, and
   * nil comes back only when the handler ran and returned nil.
   */
  lemma ProcessReturnedError(registry: map<string, Command>, rawCmd: string, call: HandlerCall)
    ensures var o := Process(registry, rawCmd, call);
      var tokens := Tokenize(rawCmd);
      && (o.Returned().None? <==> o.Invoked? && o.result.None?)
      && (o.Invoked? && o.result.Some? ==> o.Returned() == Some(HandlerFailed(o.result.value)))
      && (o.Rejected? ==>
           match o.error
           case CommandNotFound(name) => name == tokens[0] && name !in registry
           case UnknownParameter(word) =>
             tokens[0] in registry && word in tokens[1..] && word !in registry[tokens[0]].parameters
           case MissingValue(param) =>
             && tokens[0] in registry && param == tokens[|tokens| - 1] && |tokens| >= 2
             && param in registry[tokens[0]].parameters && registry[tokens[0]].parameters[param] != Bool
           case NilHandler(name) => tokens[0] in registry && name == registry[tokens[0]].commandName
           case HandlerFailed(_) => false)
  {
    var o := Process(registry, rawCmd, call);
    var tokens := Tokenize(rawCmd);
    if o.Rejected? && tokens[0] in registry {
      var kinds := registry[tokens[0]].parameters;
      if ParseParams(kinds, tokens[1..], map[]).ParseError? {
        ParseErrorNamesToken(kinds, tokens[1..], map[]);
      }
    }
  }

  /**
   * `x --foo=bar` and `x --foo bar` are the same call: '=' between two
   * non-blank parts of the line acts exactly like a space. The same handler
   * is called with the same parameters; the results agree because a
   * handler's result is modelled as the pure function `call`.
   */
  lemma ProcessSeparatorEquivalence(registry: map<string, Command>, a: string, b: string, call: HandlerCall)
    requires HasNonSpace(a) && HasNonSpace(b)
    ensures Process(registry, a + "=" + b, call) == Process(registry, a + " " + b, call)
  {
    TokenizeSeparator(a, b);
  }
}
