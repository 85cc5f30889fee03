/*
 * The command-line front end of src/app-options.c. The executable name is
 * the part of argv[0] after its last '/'; an argument is a flag when it is
 * '-' and one printable character. A first pass over every argument looks
 * only for -h, -? and -v; a second pass applies the options in order, each
 * of -c -f -g -l -m -r -a consuming the argument after it, and takes the one
 * argument that is not a flag as the ELF path. Where the source prints a
 * message and exits, the model ends with an Outcome instead.
 */
module Options {
  import opened Common
  import opened CLib
  import opened NetUtils

  const LOCALHOST := "127.0.0.1"
  const DEFAULT_GDB_BIND_ADDRESS := LOCALHOST + ":3333"
  const DEFAULT_LUA_BIND_ADDRESS := LOCALHOST + ":2323"
  const DEFAULT_ROM_SIZE: nat := 4 * 1024 * 1024
  const MAX_ROM_SIZE: nat := 256 * 1024 * 1024
  const DEFAULT_RAM_SIZE: nat := 4 * 1024 * 1024
  const MAX_RAM_SIZE: nat := 256 * 1024 * 1024

  /** app_log_priority_t, least severe first (DETAIL is the zero value). */
  datatype Priority = Detail | Info | Warning | Error | Fatal

  /** app_options_lua_input_type_t. */
  datatype LuaInputKind = File | Chunk

  /** What one Lua input descriptor says: its kind and its text. */
  datatype Input = Input(kind: LuaInputKind, data: string)

  /** Why the arguments were refused (each is a message and exit status 1 in the source). */
  datatype BadArg =
    | MissingOperand(flag: char)
    | InvalidAddress(flag: char)
    | InvalidSize(flag: char)
    | InvalidOption(flag: char)
    | ElfPathRepeated
    | ElfPathMissing

  /** How app_options_init ends: it returns, or the process exits after help, version or a bad argument. */
  datatype Outcome = Proceed | HelpExit | VersionExit | BadArgExit(reason: BadArg)

  /** The module's static variables as values; `execName` and `elf` are None while the pointer is NULL. */
  datatype Config = Config(
    execName: Option<string>,
    inputs: seq<Input>,
    gdb: Address,
    lua: Address,
    mach: Address,
    priority: Priority,
    romSize: nat,
    ramSize: nat,
    testing: bool,
    elf: Option<string>)

  const ZERO_ADDRESS := Address(0, 0, 0)

  /** Zero-initialised static storage, before app_options_init runs. */
  const INITIAL := Config(None, [], ZERO_ADDRESS, ZERO_ADDRESS, ZERO_ADDRESS, Detail, 0, 0, false, None)

  predicate AllCStrings(args: seq<string>) {
    forall k :: 0 <= k < |args| ==> IsCString(args[k])
  }

  /*
   * get_exec_name
   */

  /** The part of `path` after its last '/', or all of `path` when it has none. */
  function BaseName(path: string): (name: string)
    ensures |name| <= |path| && name == path[|path| - |name|..]
    ensures '/' !in name
    ensures |name| < |path| ==> path[|path| - |name| - 1] == '/'
  {
    match LastIndexOf(path, '/')
    case Some(k) => path[k + 1..]
    case None => path
  }

  /** The three properties of BaseName pin it down: no other suffix has them. */
  lemma {:induction false} BaseNameUnique(path: string, name: string)
    requires |name| <= |path| && name == path[|path| - |name|..]
    requires '/' !in name
    requires |name| < |path| ==> path[|path| - |name| - 1] == '/'
    ensures name == BaseName(path)
  {
    var m := |path| - |name|;
    assert forall j :: m <= j < |path| ==> path[j] != '/' by {
      forall j | m <= j < |path| ensures path[j] != '/' {
        assert path[j] == name[j - m];
      }
    }
    match LastIndexOf(path, '/')
    case Some(k) =>
      assert forall j :: k < j < |path| ==> path[j] != '/' by {
        forall j | k < j < |path| ensures path[j] != '/' {
          assert path[j] == path[k + 1..][j - k - 1];
        }
      }
    case None =>
  }

  /** get_exec_name: one pass over the path, remembering where the text after the latest '/' starts. */
  method GetExecName(path: string) returns (name: string)
    ensures name == BaseName(path)
  {
    var i, start := 0, 0;
    while i < |path|
      invariant 0 <= start <= i <= |path|
      invariant '/' !in path[start..i]
      invariant start > 0 ==> path[start - 1] == '/'
    {
      var c := path[i];
      i := i + 1;
      if c == '/' {
        start := i;
      } else {
        assert path[start..i] == path[start..i - 1] + [c];
      }
    }
    name := path[start..];
    BaseNameUnique(path, name);
  }

  /*
   * get_flag and the operand checks
   */

  /**
   * get_flag: the letter of an argument that is '-' followed by exactly one
   * character above ' ' as a signed char; NUL for anything else.
   */
  function Flag(arg: string): (f: char)
    requires IsCString(arg)
    ensures f != '\0' <==> |arg| == 2 && arg[0] == '-' && SignedChar(arg[1]) > ' ' as int
    ensures f != '\0' ==> f == arg[1]
  {
    if CharAt(arg, 0) == '-' && SignedChar(CharAt(arg, 1)) > ' ' as int && CharAt(arg, 2) == '\0' then arg[1] else '\0'
  }

  /** '-' alone and "-ab" are not flags, "--" is the flag '-', and a byte above 127 is negative as a char. */
  lemma FlagExamples()
    ensures Flag("-") == '\0' && Flag("-ab") == '\0' && Flag("--") == '-'
    ensures Flag("-h") == 'h' && Flag("- ") == '\0' && Flag("-é") == '\0' && Flag("elf") == '\0'
  {
  }

  /** The options that consume the argument after them. */
  predicate TakesOperand(flag: char) {
    flag == 'c' || flag == 'f' || flag == 'g' || flag == 'l' || flag == 'm' || flag == 'r' || flag == 'a'
  }

  /**
   * The memory size an operand of -r or -a gives, None where
   * parse_mem_size_operand refuses it: strtol with base 0 must use up the
   * whole text, and the value must lie in 1..max and be a multiple of 4.
   */
  function MemSize(arg: string, max: nat): (r: Option<nat>)
    requires max > 0
    ensures r.Some? ==> 1 <= r.value <= max && r.value % 4 == 0
    ensures !FullyParsed(arg, Strtol(arg, 0)) ==> r.None?
  {
    var p := Strtol(arg, 0);
    if p.end != |arg| || p.value < 1 || p.value > max || p.value % 4 != 0 then None else Some(p.value)
  }

  /** Read back on a decimal spelling, MemSize accepts exactly the multiples of 4 in 1..max. */
  lemma MemSizeOfDecimal(n: nat, max: nat)
    requires 0 < max && n <= LONG_MAX
    ensures MemSize(Decimal(n), max) == if 1 <= n <= max && n % 4 == 0 then Some(n) else None
  {
    DecimalRoundTrip(n, 0);
  }

  /** An empty operand reads as 0 and is refused. */
  lemma EmptySizeRejected(max: nat)
    requires 0 < max
    ensures MemSize("", max) == None
  {
    assert Strtol("", 0).value == 0;
  }

  /*
   * The two passes of app_options_init
   */

  /** The flags the first pass acts on: -h and -? for help, -v for the version. */
  predicate IsTerminating(flag: char) {
    flag == 'h' || flag == '?' || flag == 'v'
  }

  /** What the first pass finds from position `i` on: the first -h, -? or -v, operands included. */
  function Terminating(args: seq<string>, i: nat): (r: Option<Outcome>)
    requires 1 <= i <= |args| && AllCStrings(args)
    ensures r.Some? <==> exists j :: i <= j < |args| && IsTerminating(Flag(args[j]))
    ensures r.Some? ==> r.value == HelpExit || r.value == VersionExit
    decreases |args| - i
  {
    if i == |args| then None
    else
      var flag := Flag(args[i]);
      if flag == 'h' || flag == '?' then Some(HelpExit)
      else if flag == 'v' then Some(VersionExit)
      else Terminating(args, i + 1)
  }

  /** The first -h, -? or -v decides: help for the first two, version for the last. */
  lemma {:induction false} FirstTerminatingDecides(args: seq<string>, i: nat, j: nat)
    requires 1 <= i <= j < |args| && AllCStrings(args)
    requires IsTerminating(Flag(args[j]))
    requires forall k :: i <= k < j ==> !IsTerminating(Flag(args[k]))
    ensures Terminating(args, i) == Some(if Flag(args[j]) == 'v' then VersionExit else HelpExit)
    decreases j - i
  {
    if i < j {
      assert !IsTerminating(Flag(args[i]));
      FirstTerminatingDecides(args, i + 1, j);
    }
  }

  /** The first loop of app_options_init: the first -h, -? or -v ends the run. */
  method FirstPass(argv: seq<string>) returns (ending: Option<Outcome>)
    requires |argv| >= 1 && AllCStrings(argv)
    ensures ending == Terminating(argv, 1)
  {
    var i: nat := 1;
    while i < |argv|
      invariant 1 <= i <= |argv|
      invariant Terminating(argv, 1) == Terminating(argv, i)
    {
      var flag := Flag(argv[i]);
      if flag == 'h' || flag == '?' {
        return Some(HelpExit);
      } else if flag == 'v' {
        return Some(VersionExit);
      }
      i := i + 1;
    }
    return None;
  }

  /** What an option does to the configuration, or why it is refused. */
  datatype Applied = Applied(config: Config) | Refused(reason: BadArg)

  /**
   * An option with its operand: -c and -f append a Lua input, -g -l -m store
   * the parsed address (127.0.0.1 when only a port is given), -r and -a store
   * the memory size. A refused operand changes nothing.
   */
  function WithOperand(flag: char, operand: string, c: Config, resolver: Resolver): (r: Applied)
    requires TakesOperand(flag)
    ensures r.Applied? ==> r.config.execName == c.execName && r.config.priority == c.priority && r.config.elf == c.elf
    ensures r.Applied? ==> r.config.inputs == c.inputs + (if flag == 'c' then [Input(Chunk, operand)] else if flag == 'f' then [Input(File, operand)] else [])
    ensures r.Refused? ==> r.reason == if flag == 'g' || flag == 'l' || flag == 'm' then InvalidAddress(flag) else InvalidSize(flag)
    ensures flag == 'c' || flag == 'f' ==> r.Applied?
  {
    if flag == 'c' then Applied(c.(inputs := c.inputs + [Input(Chunk, operand)]))
    else if flag == 'f' then Applied(c.(inputs := c.inputs + [Input(File, operand)]))
    else if flag == 'g' || flag == 'l' || flag == 'm' then
      var e := Parse(operand, Some(LOCALHOST), resolver);
      if e.None? then Refused(InvalidAddress(flag))
      else if flag == 'g' then Applied(c.(gdb := Stored(c.gdb, e)))
      else if flag == 'l' then Applied(c.(lua := Stored(c.lua, e)))
      else Applied(c.(mach := Stored(c.mach, e)))
    else
      var size := MemSize(operand, if flag == 'r' then MAX_ROM_SIZE else MAX_RAM_SIZE);
      if size.None? then Refused(InvalidSize(flag))
      else if flag == 'r' then Applied(c.(romSize := size.value))
      else Applied(c.(ramSize := size.value))
  }

  /**
   * An argument that takes no operand: -q and -V set the priority, -t
   * enables test instructions, any other flag is invalid, and a non-flag is
   * the ELF path unless one was taken already.
   */
  function WithoutOperand(flag: char, arg: string, c: Config): (r: Applied)
    requires !TakesOperand(flag)
    ensures r.Applied? ==> r.config.execName == c.execName && r.config.inputs == c.inputs
    ensures r.Applied? && flag != 'q' && flag != 'V' ==> r.config.priority == c.priority
    ensures r.Refused? <==> (flag != '\0' && flag != 'q' && flag != 't' && flag != 'V') || (flag == '\0' && c.elf.Some?)
    ensures r.Applied? && flag == '\0' ==> r.config.elf == Some(arg)
  {
    if flag == 'q' then Applied(c.(priority := Error))
    else if flag == 't' then Applied(c.(testing := true))
    else if flag == 'V' then Applied(c.(priority := Detail))
    else if flag != '\0' then Refused(InvalidOption(flag))
    else if c.elf.Some? then Refused(ElfPathRepeated)
    else Applied(c.(elf := Some(arg)))
  }

  /** One position of the second pass: the new configuration and where to go on, or the reason to stop. */
  datatype ArgStep = Next(config: Config, next: nat) | Stop(reason: BadArg)

  /**
   * The second pass at position `i`: an option that takes an operand fails
   * when it is the last argument and otherwise consumes the next one without
   * looking at it.
   */
  function ScanStep(args: seq<string>, i: nat, c: Config, resolver: Resolver): (s: ArgStep)
    requires 1 <= i < |args| && AllCStrings(args)
    ensures s.Next? ==> s.next == (if TakesOperand(Flag(args[i])) then i + 2 else i + 1) && s.next <= |args|
    ensures s.Next? ==> s.config.execName == c.execName && c.inputs <= s.config.inputs
    ensures s.Next? && Flag(args[i]) != 'q' && Flag(args[i]) != 'V' ==> s.config.priority == c.priority
  {
    var flag := Flag(args[i]);
    if TakesOperand(flag) then
      if i + 1 >= |args| then Stop(MissingOperand(flag))
      else
        match WithOperand(flag, args[i + 1], c, resolver)
        case Applied(c') => Next(c', i + 2)
        case Refused(reason) => Stop(reason)
    else
      match WithoutOperand(flag, args[i], c)
      case Applied(c') => Next(c', i + 1)
      case Refused(reason) => Stop(reason)
  }

  /** The outcome of a pass and the configuration it leaves. */
  datatype Scanned = Scanned(outcome: Outcome, config: Config)

  /** The second pass from position `i` on, stopping at the first bad argument. */
  function Scan(args: seq<string>, i: nat, c: Config, resolver: Resolver): (r: Scanned)
    requires 1 <= i <= |args| && AllCStrings(args)
    ensures r.outcome == Proceed || r.outcome.BadArgExit?
    ensures r.outcome.BadArgExit? ==> r.outcome.reason != ElfPathMissing
    ensures r.config.execName == c.execName && c.inputs <= r.config.inputs
    decreases |args| - i
  {
    if i == |args| then Scanned(Proceed, c)
    else
      match ScanStep(args, i, c, resolver)
      case Stop(reason) => Scanned(BadArgExit(reason), c)
      case Next(c', j) => Scan(args, j, c', resolver)
  }

  /** The configuration app_options_init sets before looking at the options. */
  function Defaults(c: Config, argv: seq<string>, resolver: Resolver): (d: Config)
    requires |argv| >= 1
    ensures d.execName == Some(BaseName(argv[0]))
    ensures d.inputs == c.inputs && d.mach == c.mach && d.elf == c.elf
    ensures d.priority == Info && d.romSize == DEFAULT_ROM_SIZE && d.ramSize == DEFAULT_RAM_SIZE && !d.testing
  {
    c.(execName := Some(BaseName(argv[0])),
       gdb := Stored(c.gdb, Parse(DEFAULT_GDB_BIND_ADDRESS, None, resolver)),
       lua := Stored(c.lua, Parse(DEFAULT_LUA_BIND_ADDRESS, None, resolver)),
       priority := Info, romSize := DEFAULT_ROM_SIZE, ramSize := DEFAULT_RAM_SIZE, testing := false)
  }

  /** The two passes of app_options_init and the ELF path check, from the defaults `d`. */
  function Passes(d: Config, argv: seq<string>, resolver: Resolver): (r: Scanned)
    requires |argv| >= 1 && AllCStrings(argv)
    ensures r.outcome == Proceed ==> r.config.elf.Some?
    ensures r.config.execName == d.execName && d.inputs <= r.config.inputs
    ensures r.outcome.BadArgExit? && r.outcome.reason == ElfPathMissing ==> r.config.elf.None?
  {
    match Terminating(argv, 1)
    case Some(o) => Scanned(o, d)
    case None =>
      var s := Scan(argv, 1, d, resolver);
      if s.outcome == Proceed && s.config.elf.None? then Scanned(BadArgExit(ElfPathMissing), s.config) else s
  }

  /** app_options_init from the statics `c`: the defaults, then the passes. */
  function Run(c: Config, argv: seq<string>, resolver: Resolver): (r: Scanned)
    requires |argv| >= 1 && AllCStrings(argv)
    ensures r.outcome == Proceed ==> r.config.elf.Some?
    ensures r.config.execName == Some(BaseName(argv[0])) && c.inputs <= r.config.inputs
  {
    Passes(Defaults(c, argv, resolver), argv, resolver)
  }

  /*
   * Properties of the two passes
   */

  /** -h, -? or -v anywhere after argv[0] ends the run before any option is applied, even after a bad option or as an operand. */
  lemma HelpOrVersionWins(c: Config, argv: seq<string>, resolver: Resolver, j: nat)
    requires |argv| >= 1 && AllCStrings(argv)
    requires 1 <= j < |argv| && IsTerminating(Flag(argv[j]))
    ensures Run(c, argv, resolver).outcome in {HelpExit, VersionExit}
    ensures Run(c, argv, resolver).config == Defaults(c, argv, resolver)
  {
    assert Terminating(argv, 1).Some?;
  }

  /** An option that needs an operand, given as the last argument, stops the scan. */
  lemma MissingOperandRejected(args: seq<string>, c: Config, resolver: Resolver)
    requires |args| >= 2 && AllCStrings(args)
    requires TakesOperand(Flag(args[|args| - 1]))
    ensures Scan(args, |args| - 1, c, resolver) == Scanned(BadArgExit(MissingOperand(Flag(args[|args| - 1]))), c)
  {
  }

  /**
   * An operand is consumed whatever it looks like: after -c or -f it is
   * appended to the Lua inputs as it stands, and the scan goes on two places
   * later, so it is never read as a flag or as the ELF path.
   */
  lemma OperandConsumed(args: seq<string>, i: nat, c: Config, resolver: Resolver)
    requires 1 <= i && i + 1 < |args| && AllCStrings(args)
    requires Flag(args[i]) == 'c' || Flag(args[i]) == 'f'
    ensures var kind := if Flag(args[i]) == 'c' then Chunk else File;
      Scan(args, i, c, resolver) == Scan(args, i + 2, c.(inputs := c.inputs + [Input(kind, args[i + 1])]), resolver)
  {
  }

  /** A second argument that is not a flag is refused, whatever came between. */
  lemma ElfPathOnlyOnce(args: seq<string>, i: nat, c: Config, resolver: Resolver)
    requires 1 <= i < |args| && AllCStrings(args)
    requires c.elf.Some? && Flag(args[i]) == '\0'
    ensures Scan(args, i, c, resolver) == Scanned(BadArgExit(ElfPathRepeated), c)
  {
  }

  /** Positions from `i` on never carry -q or -V (not even as operands). */
  predicate NoPriorityFlags(args: seq<string>, i: nat)
    requires AllCStrings(args)
  {
    forall k :: i <= k < |args| ==> Flag(args[k]) != 'q' && Flag(args[k]) != 'V'
  }

  /** Without -q or -V ahead, the priority the scan ends with is the one it started with. */
  lemma {:induction false} PriorityKept(args: seq<string>, i: nat, c: Config, resolver: Resolver)
    requires 1 <= i <= |args| && AllCStrings(args)
    requires NoPriorityFlags(args, i)
    ensures Scan(args, i, c, resolver).config.priority == c.priority
    decreases |args| - i
  {
    if i < |args| {
      match ScanStep(args, i, c, resolver)
      case Stop(_) =>
      case Next(c', j) =>
        assert c'.priority == c.priority;
        PriorityKept(args, j, c', resolver);
    }
  }

  /** The last -q or -V wins: what it sets is what the scan ends with. */
  lemma LastPriorityFlagWins(args: seq<string>, i: nat, c: Config, resolver: Resolver)
    requires 1 <= i < |args| && AllCStrings(args)
    requires Flag(args[i]) == 'q' || Flag(args[i]) == 'V'
    requires NoPriorityFlags(args, i + 1)
    ensures Scan(args, i, c, resolver).config.priority == if Flag(args[i]) == 'q' then Error else Detail
  {
    var c' := ScanStep(args, i, c, resolver).config;
    PriorityKept(args, i + 1, c', resolver);
  }

  /** The GDB default names port 3333 on the loopback address. */
  lemma DefaultGdbAddressParses(resolver: Resolver, ip: bv32)
    requires Resolve(resolver, LOCALHOST) == Some(ip)
    ensures Parse(DEFAULT_GDB_BIND_ADDRESS, None, resolver) == Some(Endpoint(3333, ip))
  {
    assert Decimal(3333) == "3333" by {
      assert Decimal(3) == "3";
      assert Decimal(33) == "33";
      assert Decimal(333) == "333";
    }
    assert DEFAULT_GDB_BIND_ADDRESS == LOCALHOST + [':'] + Decimal(3333);
    ParseRoundTrip(LOCALHOST, 3333, None, resolver);
  }

  /** The Lua default names port 2323 on the loopback address. */
  lemma DefaultLuaAddressParses(resolver: Resolver, ip: bv32)
    requires Resolve(resolver, LOCALHOST) == Some(ip)
    ensures Parse(DEFAULT_LUA_BIND_ADDRESS, None, resolver) == Some(Endpoint(2323, ip))
  {
    assert Decimal(2323) == "2323" by {
      assert Decimal(2) == "2";
      assert Decimal(23) == "23";
      assert Decimal(232) == "232";
    }
    assert DEFAULT_LUA_BIND_ADDRESS == LOCALHOST + [':'] + Decimal(2323);
    ParseRoundTrip(LOCALHOST, 2323, None, resolver);
  }

  /**
   * From zero-initialised statics, the defaults: INFO, 4 MiB of ROM and RAM,
   * no test instructions, GDB on 127.0.0.1:3333 and Lua on 127.0.0.1:2323;
   * the machine-interface address gets no default and stays zero.
   */
  lemma InitialDefaults(argv: seq<string>, resolver: Resolver, ip: bv32)
    requires |argv| >= 1
    requires Resolve(resolver, LOCALHOST) == Some(ip)
    ensures var d := Defaults(INITIAL, argv, resolver);
      && d.gdb == Address(AF_INET, Htons(3333), ip)
      && d.lua == Address(AF_INET, Htons(2323), ip)
      && d.mach == ZERO_ADDRESS
      && d.inputs == [] && d.elf == None
  {
    DefaultGdbAddressParses(resolver, ip);
    DefaultLuaAddressParses(resolver, ip);
  }

  /** A command line without an ELF path is refused once both passes are done. */
  lemma NoElfPathRefused(d: Config, resolver: Resolver)
    requires d.elf == None
    ensures Passes(d, ["x0"], resolver).outcome == BadArgExit(ElfPathMissing)
  {
  }

  /** A second ELF path is refused. */
  lemma SecondElfPathRefused(d: Config, resolver: Resolver)
    requires d.elf == None
    ensures Passes(d, ["x0", "a.elf", "b.elf"], resolver).outcome == BadArgExit(ElfPathRepeated)
  {
  }

  /** An unknown flag is refused, and -h after it still wins. */
  lemma UnknownFlagRefused(d: Config, resolver: Resolver)
    ensures Passes(d, ["x0", "-z", "a.elf"], resolver).outcome == BadArgExit(InvalidOption('z'))
    ensures Passes(d, ["x0", "-z", "-h"], resolver).outcome == HelpExit
  {
  }

  /*
   * The module's statics and its list of Lua inputs
   */

  /** app_options_lua_input_t: a node of a singly linked list. */
  class LuaInput {
    var next: LuaInput?
    const kind: LuaInputKind
    const data: string

    constructor (kind: LuaInputKind, data: string)
      ensures next == null && this.kind == kind && this.data == data
    {
      next := null;
      this.kind := kind;
      this.data := data;
    }
  }

  /** The descriptors' contents in list order. */
  function Contents(nodes: seq<LuaInput>): (r: seq<Input>)
    ensures |r| == |nodes|
  {
    seq(|nodes|, k requires 0 <= k < |nodes| => Input(nodes[k].kind, nodes[k].data))
  }

  /**
   * The statics of app-options.c. The Lua inputs are a head/tail list;
   * `nodes` is the list in order, from the head to the tail.
   */
  class Options {
    var execName: Option<string>
    var luaHead: LuaInput?
    var luaTail: LuaInput?
    const gdbBind: SockAddr
    const luaBind: SockAddr
    const machBind: SockAddr
    var minLogPriority: Priority
    var romSize: nat
    var ramSize: nat
    var testingEnabled: bool
    var elfPath: Option<string>
    ghost var nodes: seq<LuaInput>

    /** The head is the first node, the tail the last, each node's next is the one after it, and the tail's is NULL. */
    ghost predicate Valid()
      reads this, nodes
    {
      && gdbBind != luaBind && gdbBind != machBind && luaBind != machBind
      && (nodes == [] ==> luaHead == null && luaTail == null)
      && (nodes != [] ==> luaHead == nodes[0] && luaTail == nodes[|nodes| - 1] && luaTail.next == null)
      && (forall k :: 0 <= k < |nodes| - 1 ==> nodes[k].next == nodes[k + 1])
    }

    ghost function Snapshot(): Config
      reads this, gdbBind, luaBind, machBind
    {
      Config(execName, Contents(nodes), gdbBind.Value(), luaBind.Value(), machBind.Value(),
             minLogPriority, romSize, ramSize, testingEnabled, elfPath)
    }

    /** Static storage before the program starts: everything zero, the list empty. */
    constructor Zeroed()
      ensures Valid() && Snapshot() == INITIAL
    {
      execName, luaHead, luaTail := None, null, null;
      gdbBind := new SockAddr.Zeroed();
      luaBind := new SockAddr.Zeroed();
      machBind := new SockAddr.Zeroed();
      minLogPriority, romSize, ramSize, testingEnabled, elfPath := Detail, 0, 0, false, None;
      nodes := [];
    }

    /** append_lua_input: a new descriptor becomes the tail (and the head of an empty list). */
    method AppendLuaInput(kind: LuaInputKind, data: string)
      requires Valid()
      modifies this, nodes
      ensures Valid() && |nodes| == |old(nodes)| + 1 && nodes[..|old(nodes)|] == old(nodes) && fresh(nodes[|old(nodes)|])
      ensures forall k :: 0 <= k < |nodes| ==> nodes[k] in old(nodes) || fresh(nodes[k])
      ensures Snapshot() == old(Snapshot()).(inputs := old(Snapshot()).inputs + [Input(kind, data)])
    {
      var input := new LuaInput(kind, data);
      if luaTail != null {
        luaTail.next := input;
      } else {
        luaHead := input;
      }
      luaTail := input;
      nodes := nodes + [input];
      assert Contents(nodes) == Contents(old(nodes)) + [Input(kind, data)];
    }

    /** cleanup: the list is walked from the head, every node let go, and both ends cleared. */
    method Cleanup()
      requires Valid()
      modifies this
      ensures Valid() && nodes == []
      ensures Snapshot() == old(Snapshot()).(inputs := [])
    {
      while luaHead != null
        invariant Valid() || (luaHead == null && nodes == [])
        invariant nodes != [] ==> luaHead == nodes[0] && nodes[|nodes| - 1].next == null
        invariant forall k :: 0 <= k < |nodes| - 1 ==> nodes[k].next == nodes[k + 1]
        invariant Snapshot() == old(Snapshot()).(inputs := Contents(nodes))
        decreases |nodes|
      {
        luaHead := luaHead.next;
        nodes := nodes[1..];
      }
      luaTail := null;
    }

    /**
     * app_options_init: sets the executable name and the defaults, runs the
     * first pass and then the second, and checks that an ELF path was given.
     */
    method Init(argv: seq<string>, resolver: Resolver) returns (outcome: Outcome)
      requires Valid() && |argv| >= 1 && AllCStrings(argv)
      modifies this, nodes, gdbBind, luaBind, machBind
      ensures Valid()
      ensures var r := Run(old(Snapshot()), argv, resolver); outcome == r.outcome && Snapshot() == r.config
    {
      SetDefaults(argv, resolver);
      outcome := ApplyOptions(argv, resolver);
    }

    /** The first pass, the second pass and the ELF path check of app_options_init. */
    method ApplyOptions(argv: seq<string>, resolver: Resolver) returns (outcome: Outcome)
      requires Valid() && |argv| >= 1 && AllCStrings(argv)
      modifies this, nodes, gdbBind, luaBind, machBind
      ensures Valid()
      ensures var r := Passes(old(Snapshot()), argv, resolver); outcome == r.outcome && Snapshot() == r.config
    {
      var ending := FirstPass(argv);
      if ending.Some? {
        return ending.value;
      }
      outcome := SecondPass(argv, resolver);
      if outcome == Proceed && elfPath.None? {
        outcome := BadArgExit(ElfPathMissing);
      }
    }

    /** The start of app_options_init: the executable name and the default option values. */
    method SetDefaults(argv: seq<string>, resolver: Resolver)
      requires Valid() && |argv| >= 1
      modifies this, gdbBind, luaBind
      ensures Valid() && nodes == old(nodes)
      ensures Snapshot() == Defaults(old(Snapshot()), argv, resolver)
    {
      var name := GetExecName(argv[0]);
      execName := Some(name);
      minLogPriority, romSize, ramSize, testingEnabled := Info, DEFAULT_ROM_SIZE, DEFAULT_RAM_SIZE, false;
      ghost var c := Snapshot();
      var _ := StoreAddress(gdbBind, DEFAULT_GDB_BIND_ADDRESS, None, resolver);
      ghost var gdb := gdbBind.Value();
      var _ := StoreAddress(luaBind, DEFAULT_LUA_BIND_ADDRESS, None, resolver);
      assert gdbBind.Value() == gdb;
      assert Snapshot() == c.(gdb := gdb, lua := luaBind.Value());
    }

    /** app_net_utils_str_to_addr on one of the three bind addresses. */
    method StoreAddress(dest: SockAddr, text: string, defaultAddress: Option<string>, resolver: Resolver) returns (result: AppResult)
      requires Valid() && (dest == gdbBind || dest == luaBind || dest == machBind)
      modifies dest
      ensures Valid() && unchanged(this)
      ensures result == Ok <==> Parse(text, defaultAddress, resolver).Some?
      ensures dest.Value() == Stored(old(dest.Value()), Parse(text, defaultAddress, resolver))
    {
      result := StrToAddr(dest, text, defaultAddress, resolver);
      assert unchanged(this) && unchanged(nodes);
    }

    /** The second loop of app_options_init, up to the first refused argument. */
    method SecondPass(argv: seq<string>, resolver: Resolver) returns (outcome: Outcome)
      requires Valid() && |argv| >= 1 && AllCStrings(argv)
      modifies this, nodes, gdbBind, luaBind, machBind
      ensures Valid()
      ensures forall k :: 0 <= k < |nodes| ==> nodes[k] in old(nodes) || fresh(nodes[k])
      ensures var r := Scan(argv, 1, old(Snapshot()), resolver); outcome == r.outcome && Snapshot() == r.config
    {
      var i: nat := 1;
      while i < |argv|
        invariant 1 <= i <= |argv| && Valid()
        invariant forall k :: 0 <= k < |nodes| ==> nodes[k] in old(nodes) || fresh(nodes[k])
        invariant Scan(argv, 1, old(Snapshot()), resolver) == Scan(argv, i, Snapshot(), resolver)
        decreases |argv| - i
      {
        var stop;
        stop, i := ApplyArg(argv, i, resolver);
        if stop.Some? {
          return BadArgExit(stop.value);
        }
      }
      return Proceed;
    }

    /** One iteration of the second loop: check_for_operand, then the switch on the flag. */
    method ApplyArg(argv: seq<string>, i: nat, resolver: Resolver) returns (stop: Option<BadArg>, next: nat)
      requires Valid() && 1 <= i < |argv| && AllCStrings(argv)
      modifies this, nodes, gdbBind, luaBind, machBind
      ensures Valid()
      ensures forall k :: 0 <= k < |nodes| ==> nodes[k] in old(nodes) || fresh(nodes[k])
      ensures match ScanStep(argv, i, old(Snapshot()), resolver)
        case Stop(reason) => stop == Some(reason) && Snapshot() == old(Snapshot())
        case Next(c, j) => stop == None && next == j && Snapshot() == c
    {
      var flag := Flag(argv[i]);
      if TakesOperand(flag) {
        if i + 1 >= |argv| {
          return Some(MissingOperand(flag)), i;
        }
        stop := ApplyOperand(flag, argv[i + 1], resolver);
        next := i + 2;
      } else {
        stop := ApplySwitch(flag, argv[i]);
        next := i + 1;
      }
    }

    /** The cases of the switch that consume an operand. */
    method ApplyOperand(flag: char, operand: string, resolver: Resolver) returns (stop: Option<BadArg>)
      requires Valid() && TakesOperand(flag)
      modifies this, nodes, gdbBind, luaBind, machBind
      ensures Valid()
      ensures forall k :: 0 <= k < |nodes| ==> nodes[k] in old(nodes) || fresh(nodes[k])
      ensures match WithOperand(flag, operand, old(Snapshot()), resolver)
        case Refused(reason) => stop == Some(reason) && Snapshot() == old(Snapshot())
        case Applied(c) => stop == None && Snapshot() == c
    {
      if flag == 'c' || flag == 'f' {
        AppendLuaInput(if flag == 'c' then Chunk else File, operand);
        return None;
      } else if flag == 'g' || flag == 'l' || flag == 'm' {
        var dest := if flag == 'g' then gdbBind else if flag == 'l' then luaBind else machBind;
        var result := StoreAddress(dest, operand, Some(LOCALHOST), resolver);
        return if result == Ok then None else Some(InvalidAddress(flag));
      } else {
        var size := MemSize(operand, if flag == 'r' then MAX_ROM_SIZE else MAX_RAM_SIZE);
        if size.None? {
          return Some(InvalidSize(flag));
        }
        if flag == 'r' {
          romSize := size.value;
        } else {
          ramSize := size.value;
        }
        return None;
      }
    }

    /** The cases of the switch that take no operand, and the default case. */
    method ApplySwitch(flag: char, arg: string) returns (stop: Option<BadArg>)
      requires Valid() && !TakesOperand(flag)
      modifies this
      ensures Valid() && nodes == old(nodes)
      ensures match WithoutOperand(flag, arg, old(Snapshot()))
        case Refused(reason) => stop == Some(reason) && Snapshot() == old(Snapshot())
        case Applied(c) => stop == None && Snapshot() == c
    {
      stop := None;
      if flag == 'q' {
        minLogPriority := Error;
      } else if flag == 't' {
        testingEnabled := true;
      } else if flag == 'V' {
        minLogPriority := Detail;
      } else if flag != '\0' {
        stop := Some(InvalidOption(flag));
      } else if elfPath.Some? {
        stop := Some(ElfPathRepeated);
      } else {
        elfPath := Some(arg);
      }
    }
  }
}
