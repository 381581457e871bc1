# oi: daemon and control-client core, modelled in Dafny

oi is a small Python package for writing a long-running program (the daemon,
`Program`) together with a control client (`CtlProgram`). The two talk over a
nanoservice request/reply socket. This project models the package's core:

- `split` of `oi/util.py`, a tokenizer for command lines with double-quoted
  multi-word arguments (module `Util`, file `util.dfy`). The Python loop is the
  method `Util.Split`. It is proved equal to the fold `Util.Tokens`, and the
  tokenizer's guarantees are proved as lemmas about that fold.
- The classes of `oi/core.py` (module `Core`, file `core.dfy`):
  - `State`, the attribute-style dictionary;
  - the command registry that `add_command` fills, and the `Program` and
    `CtlProgram` constructors that seed it;
  - the daemon's `ping` and `help` commands;
  - the control client's local-first dispatch (`call`), its display policy
    (`show`), its input parsing (`parse_input`), and one turn of its `loop`.
- The Python built-ins these depend on (module `Python`, file `python.dfy`):
  - truthiness;
  - the whitespace class of `str.strip()` and of the regular expression `\s`;
  - `re.sub(r'\s+', ' ', ·)`, `str.split(' ')`, `sep.join`, `str.lower()`;
  - the decimal text of a count.
- The cases of `test/test_util.py`, plus a few more (module `TestUtil`, file
  `test_util.dfy`). Each is proved first for arbitrary letter-and-digit words
  and then instantiated.

How the state is modelled:

- `State`, `Service`, `Program` and `CtlProgram` are classes whose methods
  update fields in place.
- `registered` is a `Registry` value: the names in insertion order plus a map
  from each name to its command. Python dictionaries keep insertion order
  from Python 3.7 on, and `help` then lists the names in that order (see
  "Left out" for the versions the package declares).
- The functions stored in the registry are named handlers:
  - the package's own: `Pong`, `Help`, `Quit`;
  - ones added by a program's author: `ServiceCode(id)` or `CtlCode(id)`. What
    those do is the parameter `user`.
- What `res, err = client.call(command, *args)` ends with is the parameter
  `remote`. It is either the two values unpacked, or an exception raised by the
  transport or by unpacking a reply that is not a pair. Such an exception is
  raised inside `except KeyError:`, so it escapes `call` and ends `loop`.
- An exception raised by a registered function is split three ways:
  - `KeyError`, which `call` catches on its own;
  - any other `Exception`, kept with its kind and `str(e)`;
  - `sys.exit`, which raises `SystemExit` and is not an `Exception`, so it
    leaves `call` untouched.

Some consequences of the code that the model keeps:

- `help` lists the commands in registration order; it does not sort them.
- `parse_input` splits on single spaces with `str.split(' ')`; it does not use
  the quote-aware `split`. Doubled spaces therefore give empty arguments.
- `ping` and `help` are registered only when the daemon has a truthy address.
- `show` prints a truthy result whether it came from the local or the remote
  side. It prints `<dest> err: <err>` only when the result is falsy and an
  error is present.

## Model

| member | source | states |
|---|---|---|
| Util.Normalize | oi/util.py:10-12 | The clean-up `text.strip()` then `re.sub('\s+', ' ', text)`; specified by NormalizeCanonical, CanonicalIsNormal and NormalizeIdempotent |
| Util.Step | oi/util.py:19-46 | One pass of the loop body, branch for branch; tokens already emitted are never changed, at most one is appended, and a closing quote always appends one and empties the buffer |
| Util.Run | oi/util.py:17-46 | The loop as a fold of `Step`; it only appends to the emitted tokens, at most one per character |
| Util.Finish | oi/util.py:48-51 | After the loop a non-empty buffer is appended, stripped, and an empty one adds nothing |
| Util.Tokens | oi/util.py:6-51 | What `split` returns, as a function; specified by the lemmas below and computed by `Split` |
| Util.Split | oi/util.py:6-51 | The character loop, with its `quoted` flag and `part` buffer, returns exactly `Tokens(text)`, and no token holds a `"` |
| Util.TokensHaveNoQuotes | oi/util.py:17-49 | No token returned by `split` contains a double quote |
| Util.BlankGivesNoTokens | oi/util.py:11-51 | Empty or all-whitespace text gives no tokens |
| Util.NormalizeCanonical | oi/util.py:11-12 | After `strip` and `re.sub`, whitespace appears only as single spaces between other characters, and the other characters are kept in order |
| Util.CanonicalIsNormal | oi/util.py:11-12 | Text already in that form is left unchanged by the clean-up |
| Util.NormalizeIdempotent | oi/util.py:11-12 | Cleaning up twice is cleaning up once |
| Util.TokensOfNormalized | oi/util.py:11-12 | The tokens depend only on the cleaned-up text |
| Util.TokensIgnorePadding | oi/util.py:11 | Leading and trailing whitespace do not change the tokens |
| Util.TokensIgnoreRunLength | oi/util.py:12 | A run of whitespace of any length acts as one space |
| Util.QuotedSegment | oi/util.py:19-29 | A quoted segment read outside quotes emits exactly one token: the unflushed buffer followed by the segment, stripped |
| Util.TokensWithoutQuotes | oi/util.py:36-49 | For text without `"`, the tokens are exactly the non-empty space-separated words of the cleaned-up text |
| Util.UnquotedTokensAreNonEmpty | oi/util.py:37-41 | Without quotes, no token is empty |
| Util.TokensKeepOrder | oi/util.py:17-51 | Read in order, the tokens hold exactly the characters of the text other than whitespace and `"`, in their original order |
| Util.TokensEmptyIff | oi/util.py:6-51 | `split` returns nothing if and only if the text holds only whitespace and at most one `"` |
| Util.EmptyTokensNeedQuotes | oi/util.py:24-29 | Every empty token costs a pair of quotes: twice the number of empty tokens is at most the number of `"` |
| Util.TokensRejoin | oi/util.py:36-49 | For quote-free text, joining the tokens with single spaces and splitting again gives the same tokens |
| Util.TokensOfRendered | oi/util.py:6-8 | Well-formed bare words and quoted phrases written between single spaces tokenize to their meanings: each word as written, each phrase stripped of its outer spaces |
| Python.Truthy | oi/core.py:163 | `bool(v)` for the values modelled: None, False, 0, '' and [] are false; used by `if not command`, `if res` and `if self.address` |
| Python.IsSpace | oi/util.py:11-12 | The whitespace set of `str.strip()` and of `\s`; specified through StripSpec and CollapseSolid |
| Python.StripStart | oi/util.py:11 | `str.lstrip()`: never longer than its input, and shorter when the input starts with whitespace; StripStartSpec gives its full contract |
| Python.StripEnd | oi/util.py:11 | `str.rstrip()`: never longer than its input; StripEndSpec gives its full contract |
| Python.Strip | oi/util.py:11 | `str.strip()`; specified by StripSpec |
| Python.Collapse | oi/util.py:12 | `re.sub(r'\s+', ' ', ·)`: empty exactly for empty input, and starting with whitespace exactly when the input does; CollapseSolid, CollapseSpacedResult and CollapseRun give the rest |
| Python.SplitOn | oi/core.py:194 | `str.split(sep)` always gives at least one piece; JoinSplitOn, SplitOnPieces and SplitOnJoin relate it to `Join` |
| Python.Join | oi/core.py:99 | `sep.join(parts)`; JoinSplitOn and SplitOnJoin make it the inverse of `SplitOn` |
| Python.Lower | oi/core.py:193 | `str.lower()` keeps the length and maps every character on its own |
| Python.NatToString | oi/core.py:170 | The decimal text of an argument count in a `TypeError` message: non-empty, digits only; NatToStringValue ties it to the count |
| Python.NatToStringValue | oi/core.py:170 | The digits of the text denote the count itself, read as a decimal number, and there is no leading zero |
| Python.StripSpec | oi/util.py:11 | `str.strip()` keeps every non-whitespace character, is empty exactly for blank text, and leaves no whitespace at either end |
| Python.CollapseSolid | oi/util.py:12 | `re.sub(r'\s+', ' ', ·)` keeps the non-whitespace characters in order |
| Python.CollapseSpacedResult | oi/util.py:12 | After the substitution the only whitespace left is single spaces |
| Python.CollapseRun | oi/util.py:12 | A whitespace run collapses to the same single space whatever its length |
| Python.JoinSplitOn | oi/core.py:194 | Joining the pieces of `str.split(sep)` with `sep` gives the text back |
| Python.SplitOnPieces | oi/core.py:194 | No piece of `str.split(sep)` contains `sep` |
| Python.SplitOnJoin | oi/core.py:194 | Splitting a join of separator-free pieces gives the pieces back |
| Python.LowerKeepsSpaces | oi/core.py:193 | `lower()` keeps whitespace exactly where it was |
| TestUtil.SplitOne | test/test_util.py:6 | `one` gives `['one']` |
| TestUtil.SplitPadded | test/test_util.py:7 | ` one ` gives `['one']` |
| TestUtil.SplitPaddedPhrase | test/test_util.py:8 | ` " one " ` gives `['one']` |
| TestUtil.SplitTwo | test/test_util.py:9 | `one two` gives `['one', 'two']` |
| TestUtil.SplitSpaceRun | test/test_util.py:10 | `one   two` gives `['one', 'two']` |
| TestUtil.SplitPhrase | test/test_util.py:11 | `one "two three" four` gives `['one', 'two three', 'four']` |
| TestUtil.SplitMixed | test/test_util.py:12 | `1 2 "3 4" 5 6 "7 8"` gives `['1', '2', '3 4', '5', '6', '7 8']` |
| TestUtil.SplitTwoPhrases | oi/util.py:6-51 | `1 2 "3 4" 5 "6 7"` gives `['1', '2', '3 4', '5', '6 7']` |
| TestUtil.SplitEmpty | oi/util.py:48-51 | The empty line gives no tokens |
| TestUtil.SplitLoose | oi/util.py:11-12 | `  a   b  ` gives `['a', 'b']` |
| TestUtil.SplitGlued | oi/util.py:19-29 | `ab"cd"ef` gives `['abcd', 'ef']`: an opening quote does not flush the buffer |
| TestUtil.SplitEmptyQuotes | oi/util.py:24-29 | `""` gives `['']`: a closing quote always emits |
| TestUtil.SplitUnterminated | oi/util.py:48-49 | `a "b c` gives `['a', 'b c']`: an unclosed phrase is emitted at the end |
| Core.HasAddress | oi/core.py:76 | `if address` (also at line 150): the address is used exactly when it is truthy |
| Core.HelpFunction | oi/core.py:93-99 | `help_function(command)` raises if and only if the command is truthy and unregistered, and then raises `KeyError` of it; a falsy command gives the names joined by ', '; it never exits. HelpAfterAdd, HelpListAfterAdd and HelpMissing give the rest |
| Core.Program.Respond | oi/core.py:90-99 | A registered daemon function called with `args`: `ping` returns 'pong' exactly when given no argument and raises `TypeError` otherwise; `help` with more than one argument raises `TypeError`, else it is `help_function`; neither exits |
| Core.CtlProgram.RunHandler | oi/core.py:158-170 | `function(self, *args)` for a ctl command: `quit` exits, with status 0, exactly when given no argument, and raises `TypeError` otherwise |
| Core.CtlProgram.Call | oi/core.py:160-180 | `call` gives nothing exactly for a falsy command. An exception escapes only after a local `KeyError`: it is the `AttributeError` of a missing client, or the exception that the client's call raised. A `remote` reply is the pair that the client's call returned. A `local` answer means the local attempt did not raise `KeyError`. CallLocal, CallForwards and RemoteExactly give the rest |
| Core.CtlProgram.ParseInput | oi/core.py:190-197 | There is no command exactly when the stripped line is empty, and then no arguments; otherwise the command followed by the arguments are exactly the pieces of `split(' ')` of the stripped, lower-cased line. ParseInputSpec gives the rest |
| Core.CtlProgram.Interact | oi/core.py:202-208 | One turn of `loop`: it skips exactly the lines without a truthy command; it crashes only with the `AttributeError` of a missing client or with the exception of the client's call, never by unpacking nothing; it stops only for a line with a command |
| Core.ArityError | oi/core.py:90-91 | Calling a Python function with the wrong number of positional arguments raises `TypeError` |
| Core.Registry.Add | oi/core.py:54-59 | `registered[c] = {...}` sets the entry for `c`, leaves every other entry and key alone, and keeps a well-formed registry; a known name keeps its place in the order and a new name goes last |
| Core.State.constructor | oi/core.py:19-20 | A new `State` is empty |
| Core.State.SetAttr | oi/core.py:28-31 | `state.key = v` stores `v` under `key` and changes nothing else |
| Core.State.GetAttr | oi/core.py:16-26 | As written: a `dict` method name gives the bound method; any other key gives its stored value when it is stored and raises `AttributeError` when it is not |
| Core.State.Get | oi/core.py:16-26 | As the docstring ("a dot access dictionary") says: a key gives its stored value exactly when it is stored, and never a method |
| Core.Service.Register | oi/core.py:104 | `service.register(name, f)` exposes `f` under `name` and changes no other name |
| Core.Program.constructor | oi/core.py:73-91 | With a truthy address: a service on that address, one service worker, and `ping` then `help` registered in that order and exposed on the service. Without one: no service, no workers, no commands. The state is always a new empty `State` |
| Core.Program.AddCommand | oi/core.py:101-104 | The registry entry is written first. With a service the function is also exposed under that name; without one, `AttributeError` is raised after the registry has changed. The registry and the service keep agreeing |
| Core.DaemonRegistry | oi/core.py:90-91 | The two default registrations give the names `ping, help` with no descriptions |
| Core.DaemonDefaults | oi/core.py:90-99 | `ping` answers `pong`; `help` lists `ping, help`; `help ping` and `help help` give None |
| Core.DaemonArity | oi/core.py:90-93 | `ping` with any argument, or `help` with more than one, raises `TypeError`; `help` with at most one never exits |
| Core.HelpAfterAdd | oi/core.py:93-98 | After `add_command(c, f, d)`, `help_function(c)` returns `d`, which is None when no description was given |
| Core.HelpListAfterAdd | oi/core.py:99 | A new command is listed last by `help_function()`, and one added again keeps its place |
| Core.HelpMissing | oi/core.py:95-99 | An unregistered truthy name raises `KeyError`; a falsy name gives the listing of all names |
| Core.AddOverwrites | oi/core.py:54-59 | Adding a name twice keeps only the second entry, in the first entry's place |
| Core.CtlProgram.constructor | oi/core.py:147-158 | A client exists exactly for a truthy address; the only command is `quit`, described as `quit ctl`; there are no workers |
| Core.CtlProgram.AddCommand | oi/core.py:54-59 | The inherited `add_command` updates the registry only |
| Core.CtlProgram.Show | oi/core.py:182-188 | The result is printed if and only if it is truthy; otherwise `<dest> err: <err>` is printed if and only if an error is present; otherwise nothing |
| Core.CallFalsy | oi/core.py:163-164 | A falsy command gives no reply, whatever the functions and the remote side would do |
| Core.CallLocal | oi/core.py:166-180 | A local command that does not raise `KeyError` answers `('local', res, None)`, `('local', None, str(e))`, or exits; the client is never consulted |
| Core.CallForwards | oi/core.py:171-175 | An unknown command, or a `KeyError` raised by a local one, goes to the client. A pair it returns comes back as `('remote', res, err)`, and an exception it raises escapes. Without a client the `AttributeError` escapes |
| Core.RemoteExactly | oi/core.py:160-180 | The reply is tagged `remote` if and only if there is a client, the local attempt raised `KeyError`, and the client's call returned a pair |
| Core.QuitExits | oi/core.py:158 | `quit` exits with status 0 |
| Core.QuitArity | oi/core.py:158-178 | `quit` with arguments does not exit; it answers with the local `TypeError` message of its one-parameter function |
| Core.ParseInputSpec | oi/core.py:190-197 | Blank input gives no command and no arguments. Otherwise the command is non-empty, no piece holds a space, and the command and arguments joined by single spaces give back the stripped, lower-cased line |
| Core.ParseNormal | oi/core.py:194-197 | A line that `strip` and `lower` leave alone gives its first `split(' ')` piece as the command and the others as the arguments |
| Core.ParseInputWords | oi/core.py:190-197 | Lower-case words without whitespace joined by single spaces parse back into the same words; empty words in the middle stand for doubled spaces |
| Core.InteractBlank | oi/core.py:204-206 | A blank line gives the `Skip` turn: nothing is dispatched or shown |
| Core.InteractQuit | oi/core.py:202-208 | A line reading `quit`, once stripped and lower-cased, ends the loop with status 0 |
| Core.InteractShows | oi/core.py:202-208 | Any other line is not skipped and is dispatched; `call` always returns a triple for it, and that triple is shown, or the exit or escaping exception ends the loop |
| Core.GetAfterSet | oi/core.py:22-31 | With the lookup the docstring describes, a stored value reads back and no other key changes |
| Core.GetAttrAfterSet | oi/core.py:22-31 | As written, a stored value reads back as an attribute unless its key names a `dict` method |
| Core.ShadowedAttribute | oi/core.py:16-31 | `state.keys = v` stores `v`, but `state.keys` then gives the `dict` method |

## Left out

- The transport: the nanoservice `Service`/`Client` sockets and the
  encoding of requests. A service is a table of exposed names, and what the
  client's call ends with is the parameter `remote`. Which transport errors
  can occur, and their messages, are not modelled: an exception from the call
  is any `Exception` value.
- The actual call of a registered function over the network, by the service
  worker. nanoservice is not part of this model. Core.Program.Respond assumes
  that the service calls the registered function as `function(*args)` with
  the request's arguments.
- The effects of the functions a program's author registers. They are the
  parameter `user`, which sees only a handler's number and the arguments and
  gives back an outcome. A ctl function is called as `function(self, *args)`,
  and a daemon function usually closes over its program. The reads and writes
  such a function makes to the program or its `State` (for example
  `setattr(program.state, key, val)` in example/programd.py) are not captured.
- Threads: the `ServiceWorker` thread and its start/join in `Program.run`, and
  the lock around `State.__setattr__`. Under a single thread the lock changes
  nothing.
- `argparse`: `new_parser`, `--version`, `--config`, the ctl's positional
  `command`, and `run`, `parse_config` and the configuration file. `run` only
  wires these to `call`/`show`, which are modelled.
- Reading lines from the terminal in `loop`. The model is one turn,
  `Core.CtlProgram.Interact`, on a given line.
- Python values other than None, booleans, integers, strings and lists.
- `split` compares characters with `is` (`char is quote`, `char is space`).
  The model uses equality. The two agree on CPython, which keeps a single
  shared object for each one-character Latin-1 string.
- The Python version is taken to be CPython 3.7 to 3.9. setup.py declares
  2.7 and 3.3 to 3.5, where the behaviour differs in three places:
  - Before 3.7 a `dict` does not keep insertion order. `', '.join(self.registered)`
    then lists the names in hash order, so `Registry.names`, the `ping, help`
    listing of DaemonDefaults and the "listed last" of HelpListAfterAdd hold
    only from 3.7 on.
  - On 2.7, `str.strip()` and `\s` work on byte strings and treat only ASCII
    whitespace as whitespace, a smaller set than `IsSpace`.
  - The wording of `ArityError` is that of 3.3 to 3.9. 2.7 writes, for
    example, "takes no arguments (1 given)", and 3.10 on prefixes the
    function's qualified name.
- Python.Lower: lower-cases ASCII letters only. Python's `str.lower()` also maps
  non-ASCII letters.
- Core.ArityError: the message follows CPython's wording for a wrong number of
  positional arguments. Only its kind is stated as a contract.
- Core.QuitArity: states the reply through `ArityError` rather than with the
  message text spelled out.
- The `State(*args, **kwargs)` constructor with initial items. The source
  passes the `State` itself as the first positional argument, which `dict`
  reads as an empty mapping; the model covers only `State()`. Attributes other
  than the public `dict` methods (such as dunder names) are not modelled.
- The `state` and `workers` constructor arguments of `BaseProgram`. The model
  always starts from `State()` and `[]`, which is what `Program` and
  `CtlProgram` pass.
- What `service.register` does with a name that is already exposed. The model
  takes it to overwrite, like the registry.

## Findings

| source | as written | input that shows it | evidently intended | confidence | as-written member | corrected member |
|---|---|---|---|---|---|---|
| oi/core.py:16-26 | `State` is a `dict` subclass, and `__getattr__` runs only when ordinary lookup fails, so a key named like a `dict` method cannot be read as an attribute | `state.keys = 1` followed by `state.keys` gives the bound method `dict.keys`, not `1` | "a dot access dictionary": every stored key reads back as an attribute | not executed | Core.ShadowedAttribute | Core.GetAfterSet |
