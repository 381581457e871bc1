/** The program classes of oi/core.py: the attribute-style `State` map, the
    registry of commands shared by the daemon (`Program`) and the control
    client (`CtlProgram`), the daemon's default commands and help text, and
    the control client's local-first dispatch, display policy and input
    parsing.  The transport is represented by what the programs see of it:
    a service's table of registered names, and the reply of a client's call,
    which is a parameter. */
module Core {
  import opened Python

  // ---------------------------------------------------------------------
  // Exceptions, outcomes and handlers

  /** An exception as `CtlProgram.call` tells them apart: `KeyError` is
      caught on its own, every other `Exception` by `except Exception as e`,
      where `message` is `str(e)`. */
  datatype Exception =
    | KeyError(key: string)
    | Error(kind: string, message: string)

  /** What calling a registered function does.  `sys.exit` raises
      `SystemExit`, which is not an `Exception`, so it is kept apart. */
  datatype Outcome =
    | Returns(value: Value)
    | Raises(exception: Exception)
    | Exits(code: int)

  /** The functions the daemon side registers: `lambda: 'pong'`, the bound
      method `help_function`, or one added by the program's author. */
  datatype ServiceHandler = Pong | Help | ServiceCode(id: nat)

  /** The functions the control side registers: `lambda p: sys.exit(0)`, or
      one added by the program's author. */
  datatype CtlHandler = Quit | CtlCode(id: nat)

  /** What the functions added by a program's author do with the arguments
      they receive; the package does not fix them. */
  type UserCode = (nat, seq<string>) -> Outcome

  /** What `res, err = self.client.call(command, *args)` ends with: the two
      values unpacked, or an exception, raised by the transport or by the
      unpacking of a reply that is not a pair. */
  datatype RemoteResult = Pair(res: Value, err: Option<string>) | Fails(exception: Exception)

  /** `client.call(command, *args)` of the transport: from the client's
      address, the command and its arguments, what the call ends with. */
  type RemoteCall = (string, string, seq<string>) -> RemoteResult

  /** CPython's `TypeError` for a call with the wrong number of positional
      arguments; `given` counts every positional argument passed. */
  function ArityError(name: string, takes: string, given: nat): (o: Outcome)
    ensures IsTypeError(o)
  {
    var verb := if given == 1 then " was given" else " were given";
    Raises(Error("TypeError", name + "() takes " + takes + " but " + NatToString(given) + verb))
  }

  predicate IsTypeError(o: Outcome) {
    o.Raises? && o.exception.Error? && o.exception.kind == "TypeError"
  }

  /** An address is used only when it is truthy (`if address`): not None
      and not ''. */
  predicate HasAddress(address: Option<string>) {
    address.Some? && Truthy(Str(address.value))
  }

  // ---------------------------------------------------------------------
  // The registry

  /** An entry of `registered`: `{'function': f, 'description': d}`. */
  datatype Command<H> = Command(handler: H, description: Option<string>)

  /** A Python `dict` from command names to commands: its keys in insertion
      order, and its entries. */
  datatype Registry<H(==)> = Registry(names: seq<string>, entries: map<string, Command<H>>)
  {
    /** Every key is listed exactly once, and only keys are listed. */
    ghost predicate Valid() {
      && (forall i, j :: 0 <= i < j < |names| ==> names[i] != names[j])
      && (forall c :: c in entries <==> c in names)
    }

    /** `registered[c] = cmd` (`BaseProgram.add_command`): insert or
        overwrite.  A key already present keeps its place in the order; a
        new key goes last. */
    function Add(c: string, cmd: Command<H>): (r: Registry<H>)
      ensures c in r.entries && r.entries[c] == cmd
      ensures forall k :: k != c ==> (k in r.entries <==> k in entries)
      ensures forall k :: k != c && k in entries ==> r.entries[k] == entries[k]
      ensures Valid() ==> r.Valid()
      ensures Valid() && c in names ==> r.names == names
      ensures Valid() && c !in names ==> r.names == names + [c]
    {
      Registry(if c in entries then names else names + [c], entries[c := cmd])
    }
  }

  /** `Program.help_function(command)` over `self.registered`. A truthy
      command gives its stored description, or `KeyError` when it is not
      registered; otherwise the names, in insertion order, joined by ', '. */
  function HelpFunction<H(==)>(r: Registry<H>, command: Option<string>): (o: Outcome)
    ensures o.Raises? <==> command.Some? && command.value != "" && command.value !in r.entries
    ensures o.Raises? ==> o.exception == KeyError(command.value)
    ensures (command.None? || command.value == "") ==> o == Returns(Str(Join(r.names, ", ")))
    ensures !o.Exits?
  {
    if command.Some? && command.value != "" then
      if command.value in r.entries then Returns(OptionalText(r.entries[command.value].description))
      else Raises(KeyError(command.value))
    else Returns(Str(Join(r.names, ", ")))
  }

  // ---------------------------------------------------------------------
  // State

  /** Reading an attribute of a `State`: a stored value, a method of `dict`
      found before `__getattr__` is consulted, or `AttributeError`. */
  datatype Attribute = Found(value: Value) | BoundMethod(name: string) | AttributeError

  /** The public methods of `dict`.  Ordinary attribute lookup finds these on
      the class, so `__getattr__` is never called for them. */
  const DictMethods: set<string> :=
    {"clear", "copy", "fromkeys", "get", "items", "keys", "pop", "popitem", "setdefault", "update", "values"}

  /** `State`, a `dict` whose keys are also read and written as attributes. */
  class State {
    var items: map<string, Value>

    constructor ()
      ensures items == map[]
    {
      items := map[];
    }

    /** `state.key = value`, which `__setattr__` turns into `state[key] = value`. */
    method SetAttr(key: string, value: Value)
      modifies this
      ensures items == old(items)[key := value]
    {
      items := items[key := value];
    }

    /** `state.key` as written: `__getattr__` runs only when ordinary lookup
        fails, so the name of a `dict` method gives that method, even when
        the same key was stored. */
    function GetAttr(key: string): (a: Attribute)
      reads this
      ensures key in DictMethods ==> a == BoundMethod(key)
      ensures key !in DictMethods ==> (a.Found? <==> key in items)
      ensures key !in DictMethods && key !in items ==> a == AttributeError
      ensures a.Found? ==> key in items && a.value == items[key]
    {
      if key in DictMethods then BoundMethod(key)
      else if key in items then Found(items[key])
      else AttributeError
    }

    /** `state.key` as the class's docstring, "a dot access dictionary",
        describes it: the stored value of every key. */
    function Get(key: string): (a: Attribute)
      reads this
      ensures a.Found? <==> key in items
      ensures a.Found? ==> a.value == items[key]
      ensures !a.BoundMethod?
    {
      if key in items then Found(items[key]) else AttributeError
    }
  }

  // ---------------------------------------------------------------------
  // The daemon

  /** A nanoservice endpoint as far as the program uses it: its address and
      the functions registered on it by name. */
  class Service {
    const address: string
    var exposed: map<string, ServiceHandler>

    constructor (address: string)
      ensures this.address == address && exposed == map[]
    {
      this.address := address;
      exposed := map[];
    }

    /** `service.register(name, function)`. */
    method Register(name: string, handler: ServiceHandler)
      modifies this
      ensures exposed == old(exposed)[name := handler]
    {
      exposed := exposed[name := handler];
    }
  }

  /** `worker.ServiceWorker(service)`: the thread that runs a service. */
  datatype Worker = ServiceWorker(service: Service)

  const AttributeErrorRegister := Error("AttributeError", "'NoneType' object has no attribute 'register'")
  const AttributeErrorCall := Error("AttributeError", "'NoneType' object has no attribute 'call'")

  /** The two registrations `Program.__init__` makes, one after the other
      on an empty registry. */
  lemma DaemonRegistry()
    ensures Registry([], map[]).Add("ping", Command(Pong, None)).Add("help", Command(Help, None))
      == Registry(["ping", "help"], map["ping" := Command(Pong, None), "help" := Command(Help, None)])
  {
    var r0: Registry<ServiceHandler> := Registry([], map[]);
    var r1 := r0.Add("ping", Command(Pong, None));
    assert r1 == Registry(["ping"], map["ping" := Command(Pong, None)]);
  }

  /** `Program`: the long-running daemon with a service endpoint. */
  class Program {
    const description: string
    const address: Option<string>
    const state: State
    var workers: seq<Worker>
    var registered: Registry<ServiceHandler>
    const service: Service?

    /** The registry is a well-formed dict, and the service, when there is
        one, exposes exactly the registered names with their functions. */
    ghost predicate Valid()
      reads this, service
    {
      && registered.Valid()
      && (service != null ==>
            && service.exposed.Keys == registered.entries.Keys
            && forall c :: c in service.exposed ==> service.exposed[c] == registered.entries[c].handler)
    }

    /** `Program(description, address)`: with a truthy address, a service, a
        service worker and the commands `ping` and `help`; without one, none
        of them. */
    constructor (description: string, address: Option<string>)
      ensures this.description == description && this.address == address
      ensures fresh(state) && state.items == map[]
      ensures service != null <==> HasAddress(address)
      ensures service != null ==> fresh(service) && service.address == address.value
      ensures service != null ==> workers == [ServiceWorker(service)]
      ensures service != null ==> registered.names == ["ping", "help"]
      ensures service != null ==> registered.entries == map["ping" := Command(Pong, None), "help" := Command(Help, None)]
      ensures service == null ==> workers == [] && registered == Registry([], map[])
      ensures Valid()
    {
      this.description := description;
      this.address := address;
      state := new State();
      workers := [];
      registered := Registry([], map[]);
      if HasAddress(address) {
        service := new Service(address.value);
      } else {
        service := null;
      }
      new;
      if service != null {
        workers := workers + [ServiceWorker(service)];
        var _ := AddCommand("ping", Pong, None);
        var _ := AddCommand("help", Help, None);
        DaemonRegistry();
      }
    }

    /** `Program.add_command`: the registry entry is written first, then the
        name is registered on the service; without a service that second
        step raises `AttributeError`, after the registry has changed. */
    method AddCommand(command: string, handler: ServiceHandler, description: Option<string>)
      returns (raised: Option<Exception>)
      requires Valid()
      modifies this, service
      ensures Valid()
      ensures registered == old(registered).Add(command, Command(handler, description))
      ensures workers == old(workers)
      ensures service != null ==> service.exposed == old(service.exposed)[command := handler]
      ensures raised == if service == null then Some(AttributeErrorRegister) else None
    {
      registered := registered.Add(command, Command(handler, description));
      if service == null {
        raised := Some(AttributeErrorRegister);
      } else {
        service.Register(command, handler);
        raised := None;
      }
    }

    /** What a registered function gives when the service calls it as
        `function(*args)`: `ping` takes no argument, `help_function` an
        optional command name. */
    function Respond(handler: ServiceHandler, args: seq<string>, user: UserCode): (o: Outcome)
      reads this
      ensures handler == Pong ==> (o.Returns? <==> args == []) && (o.Returns? ==> o.value == Str("pong"))
      ensures handler == Pong && args != [] ==> IsTypeError(o)
      ensures handler == Help && |args| > 1 ==> IsTypeError(o)
      ensures handler == Help && |args| <= 1 ==> o == HelpFunction(registered, if args == [] then None else Some(args[0]))
      ensures !handler.ServiceCode? ==> !o.Exits?
    {
      match handler
      case Pong =>
        if args == [] then Returns(Str("pong")) else ArityError("<lambda>", "0 positional arguments", |args|)
      case Help =>
        if |args| == 0 then HelpFunction(registered, None)
        else if |args| == 1 then HelpFunction(registered, Some(args[0]))
        else ArityError("help_function", "from 1 to 2 positional arguments", |args| + 1)
      case ServiceCode(id) => user(id, args)
    }
  }

  // ---------------------------------------------------------------------
  // The control client

  /** A nanoservice client, known by its address. */
  datatype Client = Client(address: string)

  datatype Dest = Local | Remote

  function DestName(d: Dest): string {
    match d
    case Local => "local"
    case Remote => "remote"
  }

  /** What `CtlProgram.call` gives: nothing for a falsy command, the triple
      `(dest, res, err)`, an exception that escapes it, or the exit. */
  datatype Reply =
    | NoReply
    | Answer(dest: Dest, res: Value, err: Option<string>)
    | Escapes(exception: Exception)
    | Exit(code: int)

  /** What `CtlProgram.show` prints. */
  datatype Shown = PrintValue(value: Value) | PrintLine(line: string) | PrintNothing

  /** One turn of the interactive loop: skip a line without a command, go on
      after showing a reply, leave with `sys.exit`, or stop on an exception
      that escapes. */
  datatype Turn = Skip | Continue(shown: Shown) | Stop(code: int) | Crash(exception: Exception)

  /** `CtlProgram`: the control client. */
  class CtlProgram {
    const description: string
    const address: Option<string>
    const state: State
    var workers: seq<Worker>
    var registered: Registry<CtlHandler>
    const client: Option<Client>

    /** `CtlProgram(description, address)`: a client only for a truthy
        address, and always the command `quit`, described as 'quit ctl'. */
    constructor (description: string, address: Option<string>)
      ensures this.description == description && this.address == address
      ensures fresh(state) && state.items == map[] && workers == []
      ensures client == if HasAddress(address) then Some(Client(address.value)) else None
      ensures registered == Registry(["quit"], map["quit" := Command(Quit, Some("quit ctl"))])
      ensures registered.Valid()
    {
      this.description := description;
      this.address := address;
      state := new State();
      workers := [];
      registered := Registry([], map[]);
      client := if HasAddress(address) then Some(Client(address.value)) else None;
      new;
      AddCommand("quit", Quit, Some("quit ctl"));
    }

    /** `add_command`, inherited from `BaseProgram`: the registry only. */
    method AddCommand(command: string, handler: CtlHandler, description: Option<string>)
      modifies this`registered
      ensures registered == old(registered).Add(command, Command(handler, description))
    {
      registered := registered.Add(command, Command(handler, description));
    }

    /** What a registered function gives when `call` runs it as
        `function(self, *args)`: `quit` takes only `self`. */
    static function RunHandler(handler: CtlHandler, args: seq<string>, user: UserCode): (o: Outcome)
      ensures handler == Quit ==> (o.Exits? <==> args == []) && (o.Exits? ==> o.code == 0)
      ensures handler == Quit && args != [] ==> IsTypeError(o)
    {
      match handler
      case Quit => if args == [] then Exits(0) else ArityError("<lambda>", "1 positional argument", |args| + 1)
      case CtlCode(id) => user(id, args)
    }

    /** `CtlProgram.call(command, *args)`: nothing for a falsy command; a
        local command's value or error, tagged 'local'; on `KeyError` (no
        such local command, or one raised by its function) the client's
        reply, tagged 'remote', or the exception the client's call raises. */
    function Call(command: Option<string>, args: seq<string>, user: UserCode, remote: RemoteCall): (r: Reply)
      reads this
      ensures r.NoReply? <==> command.None? || command.value == ""
      ensures r.Escapes? ==> command.Some? && IsKeyError(LocalOutcome(this, command.value, args, user))
      ensures r.Escapes? ==>
        || (client.None? && r.exception == AttributeErrorCall)
        || (client.Some? && remote(client.value.address, command.value, args) == Fails(r.exception))
      ensures r.Answer? && r.dest == Remote ==>
        client.Some? && remote(client.value.address, command.value, args) == Pair(r.res, r.err)
      ensures r.Answer? && r.dest == Local ==> command.Some? && !IsKeyError(LocalOutcome(this, command.value, args, user))
    {
      if command.None? || command.value == "" then NoReply
      else
        var c := command.value;
        match LocalOutcome(this, c, args, user)
        case Returns(v) => Answer(Local, v, None)
        case Exits(code) => Exit(code)
        case Raises(Error(_, m)) => Answer(Local, NoneValue, Some(m))
        case Raises(KeyError(_)) =>
          if client.None? then Escapes(AttributeErrorCall)
          else
            match remote(client.value.address, c, args)
            case Pair(res, err) => Answer(Remote, res, err)
            case Fails(e) => Escapes(e)
    }

    /** `CtlProgram.show(dest, res, err)`: a truthy result is printed; else a
        present error is printed after its destination; else nothing. */
    static function Show(dest: Dest, res: Value, err: Option<string>): (s: Shown)
      ensures s.PrintValue? <==> Truthy(res)
      ensures s.PrintLine? <==> !Truthy(res) && err.Some?
      ensures s.PrintValue? ==> s.value == res
      ensures s.PrintLine? ==> s.line == DestName(dest) + " err: " + err.value
    {
      if Truthy(res) then PrintValue(res)
      else if err.Some? then PrintLine(DestName(dest) + " err: " + err.value)
      else PrintNothing
    }

    /** `CtlProgram.parse_input(text)`: strip and lower-case the line, split
        it on single spaces, and take the first piece as the command (None
        for an empty line) and the others as its arguments. */
    static function ParseInput(text: string): (r: (Option<string>, seq<string>))
      ensures r.0.None? <==> Strip(text) == []
      ensures r.0.None? ==> r.1 == []
      ensures r.0.Some? ==> [r.0.value] + r.1 == SplitOn(Lower(Strip(text)), ' ')
    {
      var t := Lower(Strip(text));
      var parts := SplitOn(t, ' ');
      var command := if t != [] && parts != [] then Some(parts[0]) else None;
      var args := if |parts| > 1 then parts[1..] else [];
      (command, args)
    }

    /** One turn of `loop` on the line `text`: parse, skip a line without a
        command, otherwise call and show. */
    function Interact(text: string, user: UserCode, remote: RemoteCall): (r: Turn)
      reads this
      ensures r.Skip? <==> ParseInput(text).0.None? || ParseInput(text).0.value == ""
      ensures r.Crash? ==>
        || (client.None? && r.exception == AttributeErrorCall)
        || (client.Some? && remote(client.value.address, ParseInput(text).0.value, ParseInput(text).1) == Fails(r.exception))
      ensures r.Stop? ==> ParseInput(text).0.Some?
    {
      var (command, args) := ParseInput(text);
      if command.None? || command.value == "" then Skip
      else
        var reply := Call(command, args, user, remote);
        match reply
        case Answer(dest, res, err) => Continue(Show(dest, res, err))
        case Exit(code) => Stop(code)
        case Escapes(e) => Crash(e)
        // `call` gives nothing only for a falsy command, so `NoReply` (whose
        // unpacking would raise `TypeError`) cannot occur here
    }
  }

  // ---------------------------------------------------------------------
  // The registry and the daemon's commands

  /** Adding a name twice keeps only the second entry, in the first one's place. */
  lemma AddOverwrites<H>(r: Registry<H>, c: string, first: Command<H>, second: Command<H>)
    requires r.Valid()
    ensures r.Add(c, first).Add(c, second) == r.Add(c, second)
  {
  }

  /** After `add_command(c, f, d)`, `help_function(c)` gives `d`, which is
      None when the command was added without a description. */
  lemma HelpAfterAdd<H>(r: Registry<H>, c: string, cmd: Command<H>)
    requires c != ""
    ensures HelpFunction(r.Add(c, cmd), Some(c)) == Returns(OptionalText(cmd.description))
    ensures cmd.description.None? ==> HelpFunction(r.Add(c, cmd), Some(c)) == Returns(NoneValue)
  {
  }

  /** A new command is listed last by `help_function()`; one added again
      keeps its place in the listing. */
  lemma HelpListAfterAdd<H>(r: Registry<H>, c: string, cmd: Command<H>)
    requires r.Valid()
    ensures c !in r.names && r.names != [] ==>
      HelpFunction(r.Add(c, cmd), None) == Returns(Str(Join(r.names, ", ") + ", " + c))
    ensures c !in r.names && r.names == [] ==> HelpFunction(r.Add(c, cmd), None) == Returns(Str(c))
    ensures c in r.names ==> HelpFunction(r.Add(c, cmd), None) == HelpFunction(r, None)
  {
    if c !in r.names {
      if r.names != [] {
        JoinSnoc(r.names, c, ", ");
      } else {
        assert r.Add(c, cmd).names == [c];
      }
    }
  }

  /** `help_function(c)` for a name that is not registered raises `KeyError`;
      a falsy argument gives the listing. */
  lemma HelpMissing<H>(r: Registry<H>, c: string)
    ensures c != "" && c !in r.entries ==> HelpFunction(r, Some(c)) == Raises(KeyError(c))
    ensures HelpFunction(r, Some("")) == HelpFunction(r, None) == Returns(Str(Join(r.names, ", ")))
  {
  }

  /** A daemon built with an address answers `ping` with 'pong', and `help`
      with the two default names or, for either of them, no description. */
  lemma DaemonDefaults(p: Program, user: UserCode)
    requires p.registered.names == ["ping", "help"]
    requires p.registered.entries == map["ping" := Command(Pong, None), "help" := Command(Help, None)]
    ensures p.Respond(Pong, [], user) == Returns(Str("pong"))
    ensures p.Respond(Help, [], user) == Returns(Str("ping, help"))
    ensures p.Respond(Help, ["ping"], user) == Returns(NoneValue)
    ensures p.Respond(Help, ["help"], user) == Returns(NoneValue)
  {
    DefaultListing(p.registered.names);
  }

  lemma DefaultListing(names: seq<string>)
    requires names == ["ping", "help"]
    ensures Join(names, ", ") == "ping, help"
  {
    assert names[..1] == ["ping"];
  }

  /** `ping` called with arguments, and `help` with more than one, raise
      `TypeError`. */
  lemma DaemonArity(p: Program, args: seq<string>, user: UserCode)
    ensures args != [] ==> IsTypeError(p.Respond(Pong, args, user))
    ensures |args| > 1 ==> IsTypeError(p.Respond(Help, args, user))
    ensures |args| <= 1 ==> !p.Respond(Help, args, user).Exits?
  {
  }

  // ---------------------------------------------------------------------
  // Dispatch in the control client

  /** A falsy command dispatches nothing: the reply is empty whatever the
      local functions and the remote side would do. */
  lemma CallFalsy(p: CtlProgram, command: Option<string>, args: seq<string>, user: UserCode, remote: RemoteCall)
    requires command.None? || command.value == ""
    ensures p.Call(command, args, user, remote) == NoReply
  {
  }

  /** The result of running a local command, or `KeyError` when there is none. */
  function LocalOutcome(p: CtlProgram, c: string, args: seq<string>, user: UserCode): Outcome
    reads p
  {
    if c in p.registered.entries then CtlProgram.RunHandler(p.registered.entries[c].handler, args, user)
    else Raises(KeyError(c))
  }

  predicate IsKeyError(o: Outcome) {
    o.Raises? && o.exception.KeyError?
  }

  /** A local command that does not raise `KeyError` answers in one of two
      shapes tagged 'local' (or exits), and the client is never used. */
  lemma CallLocal(p: CtlProgram, c: string, args: seq<string>, user: UserCode, remote: RemoteCall, other: RemoteCall)
    requires c != "" && !IsKeyError(LocalOutcome(p, c, args, user))
    ensures var o, r := LocalOutcome(p, c, args, user), p.Call(Some(c), args, user, remote);
      && (o.Returns? ==> r == Answer(Local, o.value, None))
      && (o.Raises? ==> r == Answer(Local, NoneValue, Some(o.exception.message)))
      && (o.Exits? ==> r == Exit(o.code))
    ensures p.Call(Some(c), args, user, remote) == p.Call(Some(c), args, user, other)
  {
  }

  /** An unknown command, or a `KeyError` raised by a local one, goes to the
      client, whose `(res, err)` comes back tagged 'remote' and whose own
      exception escapes; without a client the `AttributeError` escapes. */
  lemma CallForwards(p: CtlProgram, c: string, args: seq<string>, user: UserCode, remote: RemoteCall)
    requires c != "" && IsKeyError(LocalOutcome(p, c, args, user))
    ensures p.client.Some? ==>
      var reply := remote(p.client.value.address, c, args);
      && (reply.Pair? ==> p.Call(Some(c), args, user, remote) == Answer(Remote, reply.res, reply.err))
      && (reply.Fails? ==> p.Call(Some(c), args, user, remote) == Escapes(reply.exception))
    ensures p.client.None? ==> p.Call(Some(c), args, user, remote) == Escapes(AttributeErrorCall)
  {
  }

  /** The reply is tagged 'remote' exactly when the client exists, the
      local attempt raised `KeyError`, and the client's call returned a pair. */
  lemma RemoteExactly(p: CtlProgram, c: string, args: seq<string>, user: UserCode, remote: RemoteCall)
    requires c != ""
    ensures (var r := p.Call(Some(c), args, user, remote); r.Answer? && r.dest == Remote)
        <==> p.client.Some? && IsKeyError(LocalOutcome(p, c, args, user)) && remote(p.client.value.address, c, args).Pair?
  {
  }

  /** `quit` exits with status 0. */
  lemma QuitExits(p: CtlProgram, user: UserCode, remote: RemoteCall)
    requires "quit" in p.registered.entries && p.registered.entries["quit"].handler == Quit
    ensures p.Call(Some("quit"), [], user, remote) == Exit(0)
  {
  }

  /** `quit` with arguments reports the `TypeError` of its one-parameter
      function as a local error, worded by `ArityError`. */
  lemma QuitArity(p: CtlProgram, args: seq<string>, user: UserCode, remote: RemoteCall)
    requires "quit" in p.registered.entries && p.registered.entries["quit"].handler == Quit
    requires args != []
    ensures p.Call(Some("quit"), args, user, remote) ==
      Answer(Local, NoneValue, Some(ArityError("<lambda>", "1 positional argument", |args| + 1).exception.message))
  {
  }

  // ---------------------------------------------------------------------
  // Input parsing

  /** A blank line has no command and no arguments; any other line has a
      non-empty command, and the command and arguments joined by single
      spaces give back the stripped, lower-cased line.  No piece contains a
      space, and the arguments may be empty strings. */
  lemma ParseInputSpec(text: string)
    ensures var (command, args) := CtlProgram.ParseInput(text);
      && (command.None? <==> Solid(text) == [])
      && (command.None? ==> args == [])
      && (command.Some? ==> command.value != [] && Join([command.value] + args, " ") == Lower(Strip(text)))
      && (command.Some? ==> ' ' !in command.value && forall k :: 0 <= k < |args| ==> ' ' !in args[k])
  {
    var t := Lower(Strip(text));
    var parts := SplitOn(t, ' ');
    StripSpec(text);
    JoinSplitOn(t, ' ');
    SplitOnPieces(t, ' ');
    if t != [] {
      LowerKeepsSpaces(Strip(text));
      assert t[0] != ' ';
      SplitOnFirst(t, ' ');
      assert [parts[0]] + parts[1..] == parts;
    }
  }

  /** What `parse_input` gives back as one piece: no whitespace and no
      upper-case letter. */
  predicate Word(w: string) {
    forall i :: 0 <= i < |w| ==> !IsSpace(w[i]) && LowerChar(w[i]) == w[i]
  }

  /** Words joined by single spaces are left alone by `strip` and `lower`. */
  lemma WordsNormal(words: seq<string>)
    requires words != [] && words[0] != [] && words[|words| - 1] != []
    requires forall k :: 0 <= k < |words| ==> Word(words[k])
    ensures Lower(Strip(Join(words, " "))) == Join(words, " ")
  {
    var t := Join(words, " ");
    JoinFirst(words, " ");
    JoinLast(words, " ");
    assert Word(words[0]) && Word(words[|words| - 1]);
    StripInked(t);
    forall k | 0 <= k < |words| ensures Lower(words[k]) == words[k] {
      assert Word(words[k]);
    }
    LowerJoin(words);
  }

  /** Words joined by single spaces split back into the same words. */
  lemma WordsSplit(words: seq<string>)
    requires words != []
    requires forall k :: 0 <= k < |words| ==> Word(words[k])
    ensures SplitOn(Join(words, " "), ' ') == words
  {
    forall k | 0 <= k < |words| ensures ' ' !in words[k] {
      assert Word(words[k]);
      assert IsSpace(' ');
    }
    SplitOnJoin(words, ' ');
  }

  /** A line that `strip` and `lower` leave alone parses into the pieces of
      `split(' ')`, the first as the command. */
  lemma ParseNormal(t: string, parts: seq<string>)
    requires Lower(Strip(t)) == t && t != [] && SplitOn(t, ' ') == parts
    ensures CtlProgram.ParseInput(t) == (Some(parts[0]), parts[1..])
  {
    assert |parts| <= 1 ==> parts[1..] == [];
  }

  /** Words joined by single spaces parse back into the same words, the first
      as the command; empty words in the middle stand for doubled spaces. */
  lemma ParseInputWords(words: seq<string>)
    requires words != [] && words[0] != [] && words[|words| - 1] != []
    requires forall k :: 0 <= k < |words| ==> Word(words[k])
    ensures CtlProgram.ParseInput(Join(words, " ")) == (Some(words[0]), words[1..])
  {
    WordsNormal(words);
    WordsSplit(words);
    JoinFirst(words, " ");
    ParseNormal(Join(words, " "), words);
  }

  // ---------------------------------------------------------------------
  // One turn of the interactive loop

  /** A blank line is skipped without dispatching anything. */
  lemma InteractBlank(p: CtlProgram, text: string, user: UserCode, remote: RemoteCall)
    requires Solid(text) == []
    ensures p.Interact(text, user, remote) == Skip
  {
    ParseInputSpec(text);
  }

  /** A line that reads `quit` once stripped and lower-cased ends the loop
      with status 0. */
  lemma InteractQuit(p: CtlProgram, text: string, user: UserCode, remote: RemoteCall)
    requires "quit" in p.registered.entries && p.registered.entries["quit"].handler == Quit
    requires Lower(Strip(text)) == "quit"
    ensures p.Interact(text, user, remote) == Stop(0)
  {
    assert SplitOn("quit", ' ') == ["quit"] by {
      SplitOnJoin(["quit"], ' ');
    }
    assert CtlProgram.ParseInput(text) == (Some("quit"), []);
    QuitExits(p, user, remote);
  }

  /** Any other line is parsed, dispatched, and its reply shown. */
  lemma InteractShows(p: CtlProgram, text: string, user: UserCode, remote: RemoteCall)
    requires Solid(text) != []
    ensures var (command, args) := CtlProgram.ParseInput(text);
      var r := p.Call(command, args, user, remote);
      && command.Some?
      && !p.Interact(text, user, remote).Skip?
      && (r.Answer? ==> p.Interact(text, user, remote) == Continue(CtlProgram.Show(r.dest, r.res, r.err)))
      && (r.Exit? ==> p.Interact(text, user, remote) == Stop(r.code))
      && (r.Escapes? ==> p.Interact(text, user, remote) == Crash(r.exception))
      && !r.NoReply?
  {
    ParseInputSpec(text);
  }

  // ---------------------------------------------------------------------
  // State

  /** A stored value reads back through `Get`, and no other key changes. */
  lemma GetAfterSet(s: State, before: map<string, Value>, k: string, v: Value)
    requires s.items == before[k := v]
    ensures s.Get(k) == Found(v)
    ensures forall j :: j != k ==> s.Get(j) == if j in before then Found(before[j]) else AttributeError
  {
  }

  /** As written, a stored value reads back as an attribute unless its key
      names a `dict` method. */
  lemma GetAttrAfterSet(s: State, before: map<string, Value>, k: string, v: Value)
    requires s.items == before[k := v] && k !in DictMethods
    ensures s.GetAttr(k) == Found(v)
  {
  }

  /** `state.keys = v` stores `v`, but reading `state.keys` gives the `dict`
      method, not `v`. */
  lemma ShadowedAttribute(s: State, before: map<string, Value>, v: Value)
    requires s.items == before["keys" := v]
    ensures s.GetAttr("keys") == BoundMethod("keys") && s.GetAttr("keys") != Found(v)
    ensures s.Get("keys") == Found(v)
  {
  }
}
