/**
 * The launcher's command-line processing: the framework options it recognises are turned
 * into framework property settings and taken out of the arguments, the rest are left for the
 * application, in their original order.
 */
module CommandLine {
  import opened Wrappers

  const CleanOption: string := "-clean"
  const ConsoleOption: string := "-console"
  const ConsoleLogOption: string := "-consoleLog"
  const DebugOption: string := "-debug"
  const InitializeOption: string := "-initialize"
  const DevOption: string := "-dev"
  const WsOption: string := "-ws"
  const OsOption: string := "-os"
  const ArchOption: string := "-arch"
  const NlOption: string := "-nl"
  const ConfigurationOption: string := "-configuration"
  const UserOption: string := "-user"
  const NoExitOption: string := "-noExit"
  const DataOption: string := "-data"

  /** The framework properties an option sets. */
  datatype PropertyKey =
    | Debug          // osgi.debug
    | Dev            // osgi.dev
    | Clean          // osgi.clean
    | ConsoleLog     // eclipse.consoleLog
    | Console        // osgi.console
    | NoShutdown     // osgi.noShutdown
    | ConfigArea     // the configuration area property of the location manager
    | InstanceArea   // the instance area property of the location manager
    | UserArea       // the user area property of the location manager
    | Ws             // osgi.ws
    | Os             // osgi.os
    | Arch           // osgi.arch
    | Nl             // osgi.nl

  /** One FrameworkProperties.setProperty call. */
  datatype Setting = Setting(key: PropertyKey, value: string)

  function LowerAscii(c: char): char {
    if 'A' <= c <= 'Z' then (c as int + 32) as char else c
  }

  /** The ASCII lower-case form of a string. */
  function LowerString(s: string): (r: string)
    ensures |r| == |s|
  {
    seq(|s|, k requires 0 <= k < |s| => LowerAscii(s[k]))
  }

  /** String.equalsIgnoreCase, for the ASCII letters the option names are made of. */
  predicate EqualsIgnoreCase(a: string, b: string) {
    LowerString(a) == LowerString(b)
  }

  /** The options the launcher recognises. */
  datatype OptionName =
    | DashClean | DashConsole | DashConsoleLog | DashDebug | DashInitialize | DashDev | DashWs
    | DashOs | DashArch | DashNl | DashConfiguration | DashUser | DashNoExit | DashData

  function Spelling(n: OptionName): string {
    match n
    case DashClean => CleanOption
    case DashConsole => ConsoleOption
    case DashConsoleLog => ConsoleLogOption
    case DashDebug => DebugOption
    case DashInitialize => InitializeOption
    case DashDev => DevOption
    case DashWs => WsOption
    case DashOs => OsOption
    case DashArch => ArchOption
    case DashNl => NlOption
    case DashConfiguration => ConfigurationOption
    case DashUser => UserOption
    case DashNoExit => NoExitOption
    case DashData => DataOption
  }

  /** Every option, in the order the source tests them. */
  const AllOptions: seq<OptionName> :=
    [DashDebug, DashDev, DashInitialize, DashClean, DashConsoleLog, DashConsole, DashNoExit,
     DashConfiguration, DashData, DashUser, DashWs, DashOs, DashArch, DashNl]

  /** The first of `names` whose spelling `arg` equals, ignoring case. */
  function Recognize(arg: string, names: seq<OptionName>): Option<OptionName> {
    if names == [] then None
    else if EqualsIgnoreCase(arg, Spelling(names[0])) then Some(names[0])
    else Recognize(arg, names[1..])
  }

  /** A recognised option is one whose spelling the argument equals, ignoring case. */
  lemma {:induction false} RecognizeSound(arg: string, names: seq<OptionName>)
    ensures Recognize(arg, names).Some? ==>
      Recognize(arg, names).value in names && EqualsIgnoreCase(arg, Spelling(Recognize(arg, names).value))
  {
    if names != [] && !EqualsIgnoreCase(arg, Spelling(names[0])) {
      RecognizeSound(arg, names[1..]);
    }
  }

  /** An option among `names`, none before it having the same lower-case spelling, is recognised. */
  lemma {:induction false} RecognizeComplete(arg: string, names: seq<OptionName>, n: OptionName)
    requires n in names && EqualsIgnoreCase(arg, Spelling(n))
    requires forall m :: m in names && m != n ==> LowerString(Spelling(m)) != LowerString(Spelling(n))
    ensures Recognize(arg, names) == Some(n)
  {
    if names[0] != n {
      RecognizeComplete(arg, names[1..], n);
    }
  }

  /** The lower-case spellings of the options. */
  lemma {:induction false} LowerSpellings(n: OptionName)
    ensures LowerString(Spelling(n)) == match n
      case DashClean => "-clean"
      case DashConsole => "-console"
      case DashConsoleLog => "-consolelog"
      case DashDebug => "-debug"
      case DashInitialize => "-initialize"
      case DashDev => "-dev"
      case DashWs => "-ws"
      case DashOs => "-os"
      case DashArch => "-arch"
      case DashNl => "-nl"
      case DashConfiguration => "-configuration"
      case DashUser => "-user"
      case DashNoExit => "-noexit"
      case DashData => "-data"
  {
  }

  /**
   * An argument is recognised as an option exactly when it equals that option's spelling
   * ignoring case: the spellings differ even ignoring case, so the source's chain of
   * independent tests selects at most one option.
   */
  lemma RecognizeIff(arg: string, n: OptionName)
    ensures Recognize(arg, AllOptions) == Some(n) <==> EqualsIgnoreCase(arg, Spelling(n))
  {
    RecognizeSound(arg, AllOptions);
    LowerSpellings(n);
    forall m | m in AllOptions && m != n
      ensures LowerString(Spelling(m)) != LowerString(Spelling(n))
    {
      LowerSpellings(m);
    }
    if EqualsIgnoreCase(arg, Spelling(n)) {
      RecognizeComplete(arg, AllOptions, n);
    }
  }

  predicate StartsWithDash(s: string) {
    |s| > 0 && s[0] == '-'
  }

  /** The argument after `i` is absent or is itself an option. */
  predicate NextIsOption(args: seq<string>, i: nat)
    requires i < |args|
  {
    i + 1 == |args| || StartsWithDash(args[i + 1])
  }

  /**
   * What processing a stretch of arguments produces: which of them are framework arguments,
   * the settings made in order, and whether the debug and initialize flags were raised.
   */
  datatype Scan = Scan(marks: seq<bool>, settings: seq<Setting>, debug: bool, initialize: bool)

  function Join(a: Scan, b: Scan): Scan {
    Scan(a.marks + b.marks, a.settings + b.settings, a.debug || b.debug, a.initialize || b.initialize)
  }

  const Nothing := Scan([], [], false, false)

  /**
   * The flag stage for a recognised option: -debug, -dev and -console count as flags only
   * when `bare` (nothing but options follow).
   */
  function FlagOf(option: Option<OptionName>, bare: bool): (s: Option<Scan>)
    ensures s.Some? ==> s.value.marks == [true]
  {
    match option
    case Some(DashDebug) => if bare then Some(Scan([true], [Setting(Debug, "")], true, false)) else None
    case Some(DashDev) => if bare then Some(Scan([true], [Setting(Dev, "")], false, false)) else None
    case Some(DashInitialize) => Some(Scan([true], [], false, true))
    case Some(DashClean) => Some(Scan([true], [Setting(Clean, "true")], false, false))
    case Some(DashConsoleLog) => Some(Scan([true], [Setting(ConsoleLog, "true")], false, false))
    case Some(DashConsole) => if bare then Some(Scan([true], [Setting(Console, "")], false, false)) else None
    case Some(DashNoExit) => Some(Scan([true], [Setting(NoShutdown, "true")], false, false))
    case _ => None
  }

  /** An option with its parameter that sets `key` to the parameter. */
  function Param(key: PropertyKey, arg: string): Option<Scan> {
    Some(Scan([true, true], [Setting(key, arg)], false, false))
  }

  /** The parameter stage: a recognised option taking `arg` as its parameter, if it takes one. */
  function ParamOf(option: Option<OptionName>, arg: string): (s: Option<Scan>)
    ensures s.Some? ==> s.value.marks == [true, true] && |s.value.settings| == 1 && s.value.settings[0].value == arg
  {
    match option
    case Some(DashConsole) => Param(Console, arg)
    case Some(DashConfiguration) => Param(ConfigArea, arg)
    case Some(DashData) => Param(InstanceArea, arg)
    case Some(DashUser) => Param(UserArea, arg)
    case Some(DashDev) => Param(Dev, arg)
    case Some(DashDebug) => Some(Scan([true, true], [Setting(Debug, arg)], true, false))
    case Some(DashWs) => Param(Ws, arg)
    case Some(DashOs) => Param(Os, arg)
    case Some(DashArch) => Param(Arch, arg)
    case Some(DashNl) => Param(Nl, arg)
    case _ => None
  }

  /**
   * One step of the reading at position `i`: a flag is taken alone; an argument followed by
   * an option or by nothing is skipped; otherwise the argument and the next one are taken
   * together, as an option with its parameter when the first is one, and as two application
   * arguments when not (the second is then never looked at as an option).
   */
  function Step(args: seq<string>, i: nat): (s: Scan)
    requires i < |args|
    ensures 1 <= |s.marks| <= 2 && (|s.marks| == 2 ==> i + 1 < |args|)
  {
    var option := Recognize(args[i], AllOptions);
    match FlagOf(option, NextIsOption(args, i))
    case Some(flag) => flag
    case None =>
      if NextIsOption(args, i) then Scan([false], [], false, false)
      else
        match ParamOf(option, args[i + 1])
        case Some(param) => param
        case None => Scan([false, false], [], false, false)
  }

  /** The reference reading of the arguments from position `i`, step by step. */
  function ScanFrom(args: seq<string>, i: nat): (s: Scan)
    ensures |s.marks| == if i <= |args| then |args| - i else 0
    decreases |args| - i
  {
    if i >= |args| then Nothing
    else
      var step := Step(args, i);
      Join(step, ScanFrom(args, i + |step.marks|))
  }

  /** The number of the first `i` marks that equal `b`. */
  function CountUpTo(marks: seq<bool>, b: bool, i: nat): (n: nat)
    requires i <= |marks|
    ensures n <= i
  {
    if i == 0 then 0 else CountUpTo(marks, b, i - 1) + (if marks[i - 1] == b then 1 else 0)
  }

  /** The first `i` arguments whose mark is `b`, in order. */
  function SelectUpTo(args: seq<string>, marks: seq<bool>, b: bool, i: nat): (r: seq<string>)
    requires |marks| == |args| && i <= |args|
    ensures |r| == CountUpTo(marks, b, i)
  {
    if i == 0 then [] else SelectUpTo(args, marks, b, i - 1) + (if marks[i - 1] == b then [args[i - 1]] else [])
  }

  /** The arguments whose mark is `b`, in order. */
  function Select(args: seq<string>, marks: seq<bool>, b: bool): seq<string>
    requires |marks| == |args|
  {
    SelectUpTo(args, marks, b, |args|)
  }

  /** The positions among the first `i` marks that are true, ascending. */
  function PositionsUpTo(marks: seq<bool>, i: nat): (p: seq<int>)
    requires i <= |marks|
    ensures |p| == CountUpTo(marks, true, i)
  {
    if i == 0 then [] else PositionsUpTo(marks, i - 1) + (if marks[i - 1] then [i - 1] else [])
  }

  /**
   * processCommandLine.  Returns the application arguments, and, as what the call does to
   * the environment, the framework arguments, the property settings in order, and whether
   * the static debug and initialize flags were raised.
   */
  method ProcessCommandLine(args: seq<string>)
    returns (appArgs: seq<string>, frameworkArgs: seq<string>, settings: seq<Setting>, debug: bool, initialize: bool)
    ensures var s := ScanFrom(args, 0);
      && appArgs == Select(args, s.marks, false)
      && frameworkArgs == Select(args, s.marks, true)
      && settings == s.settings && debug == s.debug && initialize == s.initialize
  {
    if |args| == 0 {
      return args, [], [], false, false;
    }
    var configArgs, configArgIndex;
    configArgs, configArgIndex, settings, debug, initialize := RecordFrameworkArgs(args);
    ghost var marks := ScanFrom(args, 0).marks;
    if configArgIndex == 0 {
      NoMarksSelect(args, marks, |args|);
      return args, [], settings, debug, initialize;
    }
    appArgs, frameworkArgs := SplitArgs(args, configArgs, configArgIndex, marks);
  }

  /**
   * The first loop of processCommandLine: reads the arguments, makes the settings and
   * records in `configArgs` the positions of the framework arguments.  Java's array starts
   * zero-filled, with -1 in its first entry.
   */
  method RecordFrameworkArgs(args: seq<string>)
    returns (configArgs: array<int>, configArgIndex: nat, settings: seq<Setting>, debug: bool, initialize: bool)
    requires |args| > 0
    ensures fresh(configArgs) && configArgs.Length == |args|
    ensures var s := ScanFrom(args, 0);
      && settings == s.settings && debug == s.debug && initialize == s.initialize
      && configArgIndex == CountUpTo(s.marks, true, |args|)
      && forall c :: 0 <= c < configArgIndex ==> configArgs[c] == PositionsUpTo(s.marks, |args|)[c]
    ensures forall c :: configArgIndex <= c < |args| && 0 < c ==> configArgs[c] == 0
  {
    configArgs := new int[|args|](_ => 0);
    configArgs[0] := -1;
    configArgIndex := 0;
    settings, debug, initialize := [], false, false;
    ghost var recorded: seq<int> := [];
    var i := 0;
    ReadNothing(args);
    while i < |args|
      invariant ReadSoFar(args, i, settings, debug, initialize, recorded)
      invariant configArgIndex == |recorded|
      invariant forall c :: 0 <= c < configArgIndex ==> configArgs[c] == recorded[c]
      invariant forall c :: configArgIndex <= c < |args| && 0 < c ==> configArgs[c] == 0
      decreases |args| - i
    {
      i, configArgIndex, settings, debug, initialize, recorded :=
        ReadStep(args, i, configArgs, configArgIndex, settings, debug, initialize, recorded);
    }
    ReadAll(args, settings, debug, initialize, recorded);
  }

  /**
   * The first loop's invariant: a step of the reading starts at `i`, and the reading of the
   * arguments before `i` has made these settings, raised these flags and recorded these
   * positions.
   */
  ghost predicate ReadSoFar(args: seq<string>, i: nat, settings: seq<Setting>, debug: bool, initialize: bool, recorded: seq<int>) {
    MarksRead(args, i) && SettingsRead(args, i, settings, debug, initialize) && PositionsRead(args, i, recorded)
  }

  /** A step of the reading starts at `i`: the marks from there on are those read from `i`. */
  ghost predicate MarksRead(args: seq<string>, i: nat) {
    i <= |args| && ScanFrom(args, 0).marks[i..] == ScanFrom(args, i).marks
  }

  /** The settings and flags made before `i`, with those read from `i`, are the whole reading's. */
  ghost predicate SettingsRead(args: seq<string>, i: nat, settings: seq<Setting>, debug: bool, initialize: bool) {
    var whole := ScanFrom(args, 0);
    var rest := ScanFrom(args, i);
    && settings + rest.settings == whole.settings
    && (debug || rest.debug) == whole.debug
    && (initialize || rest.initialize) == whole.initialize
  }

  /** The recorded positions are those of the framework arguments before `i`. */
  ghost predicate PositionsRead(args: seq<string>, i: nat, recorded: seq<int>) {
    i <= |args| && recorded == PositionsUpTo(ScanFrom(args, 0).marks, i)
  }

  lemma ReadNothing(args: seq<string>)
    ensures ReadSoFar(args, 0, [], false, false, [])
  {
    var whole := ScanFrom(args, 0);
    assert whole.marks[0..] == whole.marks;
    assert [] + whole.settings == whole.settings;
  }

  /** At the end of the arguments the reading is the whole one. */
  lemma ReadAll(args: seq<string>, settings: seq<Setting>, debug: bool, initialize: bool, recorded: seq<int>)
    requires ReadSoFar(args, |args|, settings, debug, initialize, recorded)
    ensures var whole := ScanFrom(args, 0);
      && settings == whole.settings && debug == whole.debug && initialize == whole.initialize
      && recorded == PositionsUpTo(whole.marks, |args|)
  {
    var rest := ScanFrom(args, |args|);
    assert rest == Nothing;
    assert settings + rest.settings == settings;
  }

  /** One turn of the first loop: the step at `i` is read and its positions recorded. */
  method ReadStep(args: seq<string>, i: nat, configArgs: array<int>, configArgIndex: nat,
                  settings: seq<Setting>, debug: bool, initialize: bool, ghost recorded: seq<int>)
    returns (next: nat, count: nat, nowSettings: seq<Setting>, nowDebug: bool, nowInitialize: bool, ghost nowRecorded: seq<int>)
    requires i < |args| == configArgs.Length && ReadSoFar(args, i, settings, debug, initialize, recorded)
    requires configArgIndex == |recorded| && forall c :: 0 <= c < configArgIndex ==> configArgs[c] == recorded[c]
    modifies configArgs
    ensures i < next && ReadSoFar(args, next, nowSettings, nowDebug, nowInitialize, nowRecorded)
    ensures configArgIndex <= count == |nowRecorded| && forall c :: 0 <= c < count ==> configArgs[c] == nowRecorded[c]
    ensures forall c :: count <= c < configArgs.Length ==> configArgs[c] == old(configArgs[c])
  {
    var made, raisedDebug, raisedInitialize;
    next, count, made, raisedDebug, raisedInitialize, nowRecorded := RecordStep(args, i, configArgs, configArgIndex, recorded);
    nowSettings, nowDebug, nowInitialize := settings + made, debug || raisedDebug, initialize || raisedInitialize;
    SettingsAdvance(args, i, next, settings, nowSettings, debug, nowDebug, initialize, nowInitialize);
    ghost var all, marks, rest := ScanFrom(args, 0).marks, Step(args, i).marks, ScanFrom(args, next).marks;
    MarksUnfold(args, i, next);
    StepMarks(args, i);
    PositionsAfter(all, i, next, marks, rest, recorded, nowRecorded);
  }

  /** The marks read from `i` are the step's followed by those read after it. */
  lemma MarksUnfold(args: seq<string>, i: nat, next: nat)
    requires i < |args| && next == i + |Step(args, i).marks|
    ensures ScanFrom(args, i).marks == Step(args, i).marks + ScanFrom(args, next).marks
  {
    ScanUnfoldAt(args, i, next);
  }

  /** A suffix that is `a` followed by `b` holds `a` at its start and `b` after it. */
  lemma DropSplit(all: seq<bool>, i: nat, a: seq<bool>, b: seq<bool>)
    requires i <= |all| && all[i..] == a + b
    ensures i + |a| <= |all| && all[i + |a|..] == b
    ensures forall k :: 0 <= k < |a| ==> all[i + k] == a[k]
  {
    assert all[i + |a|..] == all[i..][|a|..];
    forall k | 0 <= k < |a| ensures all[i + k] == a[k] {
      assert all[i + k] == all[i..][k];
    }
  }

  /** The settings read so far grow by those of the step, and the flags split the same way. */
  lemma SettingsAdvance(args: seq<string>, i: nat, next: nat, settings: seq<Setting>, nowSettings: seq<Setting>,
                        debug: bool, nowDebug: bool, initialize: bool, nowInitialize: bool)
    requires i < |args| && SettingsRead(args, i, settings, debug, initialize)
    requires var step := Step(args, i);
      && next == i + |step.marks| && nowSettings == settings + step.settings
      && nowDebug == (debug || step.debug) && nowInitialize == (initialize || step.initialize)
    ensures SettingsRead(args, next, nowSettings, nowDebug, nowInitialize)
  {
    var step := Step(args, i);
    var rest := ScanFrom(args, next);
    assert settings + (step.settings + rest.settings) == (settings + step.settings) + rest.settings;
  }

  /** The positions recorded before a step, with the step's own, are those before the next step. */
  lemma PositionsAfter(all: seq<bool>, i: nat, next: nat, marks: seq<bool>, rest: seq<bool>, recorded: seq<int>, nowRecorded: seq<int>)
    requires marks == [true] || marks == [false] || marks == [true, true] || marks == [false, false]
    requires i <= |all| && all[i..] == marks + rest && next == i + |marks|
    requires recorded == PositionsUpTo(all, i) && nowRecorded == recorded + StepPositions(i, marks)
    ensures next <= |all| && all[next..] == rest && nowRecorded == PositionsUpTo(all, next)
  {
    DropSplit(all, i, marks, rest);
    PositionsStep(all, i, marks);
  }

  /** The positions a step with these marks at `i` takes for the framework. */
  function StepPositions(i: nat, marks: seq<bool>): seq<int>
    requires |marks| > 0
  {
    if !marks[0] then [] else if |marks| == 1 then [i] else [i, i + 1]
  }

  /**
   * One pass of the first loop's body at position `i`: records in `configArgs` the positions
   * the step at `i` takes for the framework (`recorded` stands for what is recorded so far),
   * and returns where the loop goes on, the new count of recorded positions and what the
   * step sets.
   */
  method RecordStep(args: seq<string>, i: nat, configArgs: array<int>, configArgIndex: nat, ghost recorded: seq<int>)
    returns (next: nat, count: nat, made: seq<Setting>, raisedDebug: bool, raisedInitialize: bool, ghost nowRecorded: seq<int>)
    requires i < |args| == configArgs.Length && configArgIndex <= i && |recorded| == configArgIndex
    requires forall c :: 0 <= c < configArgIndex ==> configArgs[c] == recorded[c]
    modifies configArgs
    ensures var step := Step(args, i);
      && next == i + |step.marks| && made == step.settings
      && raisedDebug == step.debug && raisedInitialize == step.initialize
      && nowRecorded == recorded + StepPositions(i, step.marks)
    ensures count == |nowRecorded| && forall c :: 0 <= c < count ==> configArgs[c] == nowRecorded[c]
    ensures forall c :: count <= c < configArgs.Length ==> configArgs[c] == old(configArgs[c])
  {
    count := configArgIndex;
    var option := Recognize(args[i], AllOptions);
    var flag := FlagOf(option, i == |args| - 1 || StartsWithDash(args[i + 1]));
    if flag.Some? {
      configArgs[count] := i;
      count := count + 1;
      return i + 1, count, flag.value.settings, flag.value.debug, flag.value.initialize, recorded + [i];
    }
    if i == |args| - 1 || StartsWithDash(args[i + 1]) {
      return i + 1, count, [], false, false, recorded;
    }
    var at := i + 1;
    var arg := args[at];
    var param := ParamOf(option, arg);
    if param.Some? {
      configArgs[count] := at - 1;
      count := count + 1;
      configArgs[count] := at;
      count := count + 1;
      return at + 1, count, param.value.settings, param.value.debug, param.value.initialize, recorded + [i, i + 1];
    }
    return at + 1, count, [], false, false, recorded;
  }

  /** A step marks one argument, or two arguments alike. */
  lemma StepMarks(args: seq<string>, i: nat)
    requires i < |args|
    ensures var m := Step(args, i).marks;
      m == [true] || m == [false] || m == [true, true] || m == [false, false]
  {
  }

  /** The count and the positions of the true marks grow by those of one step's marks. */
  lemma PositionsStep(all: seq<bool>, i: nat, marks: seq<bool>)
    requires marks == [true] || marks == [false] || marks == [true, true] || marks == [false, false]
    requires i + |marks| <= |all| && all[i] == marks[0] && (|marks| == 2 ==> all[i + 1] == marks[1])
    ensures CountUpTo(all, true, i + |marks|) == CountUpTo(all, true, i) + |StepPositions(i, marks)|
    ensures PositionsUpTo(all, i + |marks|) == PositionsUpTo(all, i) + StepPositions(i, marks)
  {
    if |marks| == 2 {
      assert PositionsUpTo(all, i + 2) == PositionsUpTo(all, i + 1) + (if marks[1] then [i + 1] else []);
    }
  }

  /**
   * The second loop of processCommandLine: walks the arguments and the recorded positions
   * together, sending each argument to the framework or the application list.
   */
  method SplitArgs(args: seq<string>, configArgs: array<int>, count: nat, ghost marks: seq<bool>)
    returns (appArgs: seq<string>, frameworkArgs: seq<string>)
    requires configArgs.Length == |args| == |marks|
    requires 0 < count == CountUpTo(marks, true, |args|)
    requires forall c :: 0 <= c < count ==> configArgs[c] == PositionsUpTo(marks, |args|)[c]
    requires forall c :: count <= c < |args| ==> configArgs[c] == 0
    ensures appArgs == Select(args, marks, false) && frameworkArgs == Select(args, marks, true)
  {
    CountTotal(marks, |args|);
    var app := new string[|args| - count];
    var framework := new string[count];
    var configArgIndex := 0;
    var j := 0;
    var k := 0;
    var i := 0;
    while i < |args|
      invariant 0 <= i <= |args|
      invariant configArgIndex == k == CountUpTo(marks, true, i) && j == CountUpTo(marks, false, i)
      invariant k <= count && j <= |args| - count
      invariant framework[..k] == SelectUpTo(args, marks, true, i)
      invariant app[..j] == SelectUpTo(args, marks, false, i)
    {
      j, k := SplitOne(args, configArgs, count, marks, app, framework, i, j, k);
      configArgIndex := k;
      i := i + 1;
    }
    assert k == framework.Length && j == app.Length;
    assert framework[..] == framework[..k] && app[..] == app[..j];
    appArgs, frameworkArgs := app[..], framework[..];
  }

  /**
   * One pass of the second loop's body at position `i`: the argument goes to the framework
   * when `i` is the next recorded position, to the application otherwise.
   */
  method SplitOne(args: seq<string>, configArgs: array<int>, count: nat, ghost marks: seq<bool>,
                  app: array<string>, framework: array<string>, i: nat, j: nat, k: nat)
    returns (j': nat, k': nat)
    requires configArgs.Length == |args| == |marks| && i < |args| && app != framework
    requires 0 < count == CountUpTo(marks, true, |args|) && app.Length == |args| - count && framework.Length == count
    requires forall c :: 0 <= c < count ==> configArgs[c] == PositionsUpTo(marks, |args|)[c]
    requires forall c :: count <= c < |args| ==> configArgs[c] == 0
    requires k == CountUpTo(marks, true, i) && j == CountUpTo(marks, false, i) && k <= count && j <= |args| - count
    requires framework[..k] == SelectUpTo(args, marks, true, i) && app[..j] == SelectUpTo(args, marks, false, i)
    modifies app, framework
    ensures k' == CountUpTo(marks, true, i + 1) && j' == CountUpTo(marks, false, i + 1)
    ensures k' <= count && j' <= |args| - count
    ensures framework[..k'] == SelectUpTo(args, marks, true, i + 1) && app[..j'] == SelectUpTo(args, marks, false, i + 1)
  {
    NextPosition(marks, i);
    CountMonotone(marks, false, i + 1, |args|);
    CountMonotone(marks, true, i + 1, |args|);
    CountTotal(marks, i);
    CountTotal(marks, |args|);
    assert k < |args| && (i == configArgs[k] <==> marks[i]) by {
      if k < count {
        assert configArgs[k] == PositionsUpTo(marks, |args|)[k];
      } else {
        assert configArgs[k] == 0;
      }
    }
    if i == configArgs[k] {
      Append(framework, k, args[i]);
      j', k' := j, k + 1;
    } else {
      Append(app, j, args[i]);
      j', k' := j + 1, k;
    }
  }

  /** Writes `x` just past the first `n` elements of `a`, which stay as they were. */
  method Append(a: array<string>, n: nat, x: string)
    requires n < a.Length
    modifies a
    ensures a[..n + 1] == old(a[..n]) + [x]
  {
    a[n] := x;
    assert a[..n + 1] == a[..n] + [x];
  }

  /** Every mark is counted on one side. */
  lemma {:induction false} CountTotal(marks: seq<bool>, i: nat)
    requires i <= |marks|
    ensures CountUpTo(marks, true, i) + CountUpTo(marks, false, i) == i
  {
    if i > 0 {
      CountTotal(marks, i - 1);
    }
  }

  lemma {:induction false} CountMonotone(marks: seq<bool>, b: bool, i: nat, n: nat)
    requires i <= n <= |marks|
    ensures CountUpTo(marks, b, i) <= CountUpTo(marks, b, n)
    decreases n
  {
    if i < n {
      CountMonotone(marks, b, i, n - 1);
    }
  }

  /** The true positions before `i` come first among those before `n`, and the rest lie beyond `i`. */
  lemma {:induction false} PositionsPrefix(marks: seq<bool>, i: nat, n: nat)
    requires i <= n <= |marks|
    ensures CountUpTo(marks, true, i) <= CountUpTo(marks, true, n)
    ensures PositionsUpTo(marks, n)[..CountUpTo(marks, true, i)] == PositionsUpTo(marks, i)
    ensures forall c :: CountUpTo(marks, true, i) <= c < CountUpTo(marks, true, n) ==> PositionsUpTo(marks, n)[c] >= i
    decreases n
  {
    if i == n {
      assert PositionsUpTo(marks, n)[..CountUpTo(marks, true, i)] == PositionsUpTo(marks, n);
    } else {
      PositionsPrefix(marks, i, n - 1);
    }
  }

  /**
   * In the second loop: the next recorded position is `i` exactly when argument `i` is a
   * framework argument, and once every position is used the entry read is a zero that `i`
   * has passed.
   */
  lemma NextPosition(marks: seq<bool>, i: nat)
    requires i < |marks|
    ensures var c := CountUpTo(marks, true, i);
      && (c < CountUpTo(marks, true, |marks|) ==> (PositionsUpTo(marks, |marks|)[c] == i <==> marks[i]))
      && (c == CountUpTo(marks, true, |marks|) ==> !marks[i] && (c > 0 ==> i > 0))
  {
    var c := CountUpTo(marks, true, i);
    PositionsPrefix(marks, i + 1, |marks|);
    CountMonotone(marks, true, i + 1, |marks|);
    if c < CountUpTo(marks, true, |marks|) && !marks[i] {
      assert PositionsUpTo(marks, |marks|)[c] >= i + 1;
    }
    if c < CountUpTo(marks, true, |marks|) && marks[i] {
      assert PositionsUpTo(marks, i + 1)[c] == i;
      assert PositionsUpTo(marks, |marks|)[..c + 1] == PositionsUpTo(marks, i + 1);
    }
  }

  /** Without any framework argument every argument is an application argument. */
  lemma {:induction false} NoMarksSelect(args: seq<string>, marks: seq<bool>, i: nat)
    requires |marks| == |args| && i <= |args| && CountUpTo(marks, true, i) == 0
    ensures SelectUpTo(args, marks, false, i) == args[..i] && SelectUpTo(args, marks, true, i) == []
  {
    if i > 0 {
      NoMarksSelect(args, marks, i - 1);
      assert args[..i] == args[..i - 1] + [args[i - 1]];
    } else {
      assert args[..0] == [];
    }
    if i == |args| {
      assert args[..i] == args;
    }
  }

  // ---------------------------------------------------------------------------------------
  // Properties of the reading

  /**
   * The two lists split the arguments without losing or reordering any: argument `k` is
   * element number "how many before it have its mark" of the list its mark selects.
   */
  lemma {:induction false} SelectElement(args: seq<string>, marks: seq<bool>, k: nat, n: nat)
    requires |marks| == |args| && k < n <= |args|
    ensures CountUpTo(marks, marks[k], k) < |SelectUpTo(args, marks, marks[k], n)|
    ensures SelectUpTo(args, marks, marks[k], n)[CountUpTo(marks, marks[k], k)] == args[k]
    decreases n
  {
    if k < n - 1 {
      SelectElement(args, marks, k, n - 1);
    }
  }

  /** Every argument lands in exactly one of the two lists. */
  lemma SelectSplits(args: seq<string>, marks: seq<bool>)
    requires |marks| == |args|
    ensures |Select(args, marks, true)| + |Select(args, marks, false)| == |args|
  {
    CountTotal(marks, |args|);
  }

  /** The keys of the settings, in order. */
  function Keys(settings: seq<Setting>): (r: seq<PropertyKey>)
    ensures |r| == |settings| && forall k :: 0 <= k < |settings| ==> r[k] == settings[k].key
  {
    seq(|settings|, k requires 0 <= k < |settings| => settings[k].key)
  }

  /** debug is raised exactly when a debug setting is made. */
  ghost predicate DebugAgrees(s: Scan) {
    s.debug == (Debug in Keys(s.settings))
  }

  /** Every setting's value is "", "true" or one of the arguments. */
  ghost predicate ValuesFromArgs(s: Scan, args: seq<string>) {
    forall t :: t in s.settings ==> t.value == "" || t.value == "true" || t.value in args
  }

  lemma JoinDebugAgrees(whole: Scan, a: Scan, b: Scan)
    requires whole == Join(a, b) && DebugAgrees(a) && DebugAgrees(b)
    ensures DebugAgrees(whole)
  {
    assert Keys(a.settings + b.settings) == Keys(a.settings) + Keys(b.settings);
  }

  /** A key is among the keys exactly when some setting has it. */
  lemma KeysMembers(settings: seq<Setting>, key: PropertyKey)
    ensures key in Keys(settings) <==> exists t :: t in settings && t.key == key
  {
    if key in Keys(settings) {
      var k :| 0 <= k < |settings| && Keys(settings)[k] == key;
      assert settings[k] in settings;
    }
  }

  lemma JoinValuesFromArgs(whole: Scan, a: Scan, b: Scan, args: seq<string>)
    requires whole == Join(a, b) && ValuesFromArgs(a, args) && ValuesFromArgs(b, args)
    ensures ValuesFromArgs(whole, args)
  {
    assert forall t :: t in whole.settings <==> t in a.settings || t in b.settings;
  }

  /** A step raises debug exactly when it makes a debug setting. */
  lemma StepDebug(args: seq<string>, i: nat)
    requires i < |args|
    ensures DebugAgrees(Step(args, i))
  {
    var s := Step(args, i);
    StepValues(args, i);
    if s.settings == [] {
      assert Keys(s.settings) == [];
    } else {
      assert Keys(s.settings) == [s.settings[0].key];
    }
  }

  /** A step makes at most one setting, whose value is "", "true" or the step's parameter. */
  lemma StepValues(args: seq<string>, i: nat)
    requires i < |args|
    ensures var s := Step(args, i);
      s.settings == [] || (|s.settings| == 1 && (s.settings[0].value == "" || s.settings[0].value == "true" ||
        (i + 1 < |args| && s.settings[0].value == args[i + 1])))
  {
  }

  /** Over the whole reading from `i`, debug is raised exactly when a debug setting is made. */
  lemma DebugIffDebugSetting(args: seq<string>, i: nat)
    ensures ScanFrom(args, i).debug <==> exists t :: t in ScanFrom(args, i).settings && t.key == Debug
  {
    ReadingDebugAgrees(args, i);
    KeysMembers(ScanFrom(args, i).settings, Debug);
  }

  lemma ReadingDebugAgrees(args: seq<string>, i: nat)
    ensures DebugAgrees(ScanFrom(args, i))
  {
    forall j | i <= j < |args| ensures DebugAgrees(Step(args, j)) {
      StepDebug(args, j);
    }
    forall a, b | DebugAgrees(a) && DebugAgrees(b) ensures DebugAgrees(Join(a, b)) {
      JoinDebugAgrees(Join(a, b), a, b);
    }
    ScanKeeps(args, i, s => DebugAgrees(s));
  }

  /** A setting's value is "" or "true" for a flag, and otherwise one of the arguments. */
  lemma SettingValuesFromArgs(args: seq<string>, i: nat)
    ensures ValuesFromArgs(ScanFrom(args, i), args)
  {
    forall j | i <= j < |args| ensures ValuesFromArgs(Step(args, j), args) {
      StepValues(args, j);
    }
    forall a, b | ValuesFromArgs(a, args) && ValuesFromArgs(b, args) ensures ValuesFromArgs(Join(a, b), args) {
      JoinValuesFromArgs(Join(a, b), a, b, args);
    }
    ScanKeeps(args, i, s => ValuesFromArgs(s, args));
  }

  /** A reading that makes no setting, raises no flag and gives the framework nothing. */
  ghost predicate Inert(s: Scan) {
    s.settings == [] && !s.debug && !s.initialize && true !in s.marks
  }

  lemma JoinInert(whole: Scan, a: Scan, b: Scan)
    requires whole == Join(a, b) && Inert(a) && Inert(b)
    ensures Inert(whole)
  {
  }

  /** No option's spelling equals the argument, ignoring case. */
  predicate Unrecognised(arg: string) {
    forall n: OptionName :: !EqualsIgnoreCase(arg, Spelling(n))
  }

  /** An argument is unrecognised exactly when the chain of option tests finds nothing. */
  lemma UnrecognisedIff(arg: string)
    ensures Unrecognised(arg) <==> Recognize(arg, AllOptions).None?
  {
    RecognizeSound(arg, AllOptions);
    forall n: OptionName | EqualsIgnoreCase(arg, Spelling(n)) ensures Recognize(arg, AllOptions) == Some(n) {
      RecognizeIff(arg, n);
    }
  }

  /** An unrecognised argument is neither a flag nor an option with a parameter. */
  lemma UnrecognisedStepInert(args: seq<string>, i: nat)
    requires i < |args| && Unrecognised(args[i])
    ensures Inert(Step(args, i))
  {
    UnrecognisedIff(args[i]);
  }

  /** Every option's spelling starts with '-', and so does every argument recognised as one. */
  lemma RecognizedHasDash(arg: string)
    ensures Recognize(arg, AllOptions).Some? ==> StartsWithDash(arg)
  {
    RecognizeSound(arg, AllOptions);
    if Recognize(arg, AllOptions).Some? {
      LowerSpellings(Recognize(arg, AllOptions).value);
      assert LowerString(arg)[0] == LowerAscii(arg[0]);
    }
  }

  /** The reading from `i` is the step at `i` followed by the reading after it. */
  lemma ScanUnfold(args: seq<string>, i: nat)
    requires i < |args|
    ensures ScanFrom(args, i) == Join(Step(args, i), ScanFrom(args, i + |Step(args, i).marks|))
  {
  }

  /** Arguments none of which is recognised are all left to the application, with no effect. */
  lemma UnrecognisedArgumentsUntouched(args: seq<string>, i: nat)
    requires forall k :: i <= k < |args| ==> Unrecognised(args[k])
    ensures Inert(ScanFrom(args, i))
  {
    forall j | i <= j < |args| ensures Inert(Step(args, j)) {
      UnrecognisedStepInert(args, j);
    }
    forall a, b | Inert(a) && Inert(b) ensures Inert(Join(a, b)) {
      JoinInert(Join(a, b), a, b);
    }
    ScanKeeps(args, i, s => Inert(s));
  }

  /**
   * A property of readings that nothing has, that every step from `i` has and that joining
   * keeps, holds of the whole reading from `i`.
   */
  lemma {:induction false} ScanKeeps(args: seq<string>, i: nat, P: Scan -> bool)
    requires P(Nothing)
    requires forall j :: i <= j < |args| ==> P(Step(args, j))
    requires forall a, b :: P(a) && P(b) ==> P(Join(a, b))
    ensures P(ScanFrom(args, i))
    decreases |args| - i
  {
    if i < |args| {
      ScanKeeps(args, i + |Step(args, i).marks|, P);
      ScanUnfold(args, i);
    }
  }

  /** Marks none of which is true count no true mark. */
  lemma {:induction false} NoTrueMarks(marks: seq<bool>, i: nat)
    requires i <= |marks| && true !in marks
    ensures CountUpTo(marks, true, i) == 0
  {
    if i > 0 {
      NoTrueMarks(marks, i - 1);
    }
  }

  /**
   * When no argument is recognised as an option, whatever the arguments look like, the call
   * leaves every argument to the application, in order, and sets nothing.
   */
  lemma NothingRecognised(args: seq<string>)
    requires forall k :: 0 <= k < |args| ==> Unrecognised(args[k])
    ensures var whole := ScanFrom(args, 0);
      && Select(args, whole.marks, false) == args && Select(args, whole.marks, true) == []
      && whole.settings == [] && !whole.debug && !whole.initialize
  {
    UnrecognisedArgumentsUntouched(args, 0);
    PlainSelect(args, ScanFrom(args, 0).marks);
  }

  /** In particular, arguments none of which starts with '-' all go to the application. */
  lemma PlainCommandLine(args: seq<string>)
    requires forall k :: 0 <= k < |args| ==> !StartsWithDash(args[k])
    ensures Select(args, ScanFrom(args, 0).marks, false) == args
    ensures Select(args, ScanFrom(args, 0).marks, true) == [] && ScanFrom(args, 0).settings == []
  {
    forall k | 0 <= k < |args| ensures Unrecognised(args[k]) {
      RecognizedHasDash(args[k]);
      UnrecognisedIff(args[k]);
    }
    NothingRecognised(args);
  }

  /** Marks without a true one send every argument to the application. */
  lemma PlainSelect(args: seq<string>, marks: seq<bool>)
    requires |marks| == |args| && true !in marks
    ensures Select(args, marks, false) == args && Select(args, marks, true) == []
  {
    NoTrueMarks(marks, |args|);
    NoMarksSelect(args, marks, |args|);
  }

  // ---------------------------------------------------------------------------------------
  // Where the loop looks at an argument

  /**
   * The positions from `i` on where the first loop examines an argument as a possible
   * option: each step starts one, and a step's second argument is passed over.
   */
  ghost function StepStarts(args: seq<string>, i: nat): set<nat>
    decreases |args| - i
  {
    if i >= |args| then {} else {i} + StepStarts(args, i + |Step(args, i).marks|)
  }

  /** The reading of the steps from `i` that start before `j`. */
  ghost function ScanBetween(args: seq<string>, i: nat, j: nat): Scan
    decreases |args| - i
  {
    if i >= j || i >= |args| then Nothing
    else Join(Step(args, i), ScanBetween(args, i + |Step(args, i).marks|, j))
  }

  lemma JoinNothing(s: Scan)
    ensures Join(Nothing, s) == s
  {
    assert [] + s.marks == s.marks && [] + s.settings == s.settings;
  }

  lemma JoinAssociative(a: Scan, b: Scan, c: Scan)
    ensures Join(a, Join(b, c)) == Join(Join(a, b), c)
  {
    assert a.marks + (b.marks + c.marks) == (a.marks + b.marks) + c.marks;
    assert a.settings + (b.settings + c.settings) == (a.settings + b.settings) + c.settings;
  }

  /** Every step start from `i` lies between `i` and the end of the arguments. */
  lemma {:induction false} StartsWithin(args: seq<string>, i: nat)
    ensures forall k :: k in StepStarts(args, i) ==> i <= k < |args|
    decreases |args| - i
  {
    if i < |args| {
      StartsWithin(args, i + |Step(args, i).marks|);
    }
  }

  /** No step starts inside another: a step's second argument is never examined. */
  lemma {:induction false} StartsApart(args: seq<string>, i: nat, j: nat)
    requires j in StepStarts(args, i)
    ensures j < |args| && forall k :: k in StepStarts(args, i) ==> k <= j || j + |Step(args, j).marks| <= k
    decreases |args| - i
  {
    StartsWithin(args, i);
    var next := i + |Step(args, i).marks|;
    StartsWithin(args, next);
    if j != i {
      StartsApart(args, next, j);
    }
  }

  /** After a step that does not end the arguments, the next step starts. */
  lemma {:induction false} StartsNext(args: seq<string>, i: nat, j: nat)
    requires j in StepStarts(args, i) && j < |args| && j + |Step(args, j).marks| < |args|
    ensures j + |Step(args, j).marks| in StepStarts(args, i)
    decreases |args| - i
  {
    if j != i {
      StartsNext(args, i + |Step(args, i).marks|, j);
    }
  }

  /** The reading from `i` is that of the steps before a step start `j`, then the reading from `j`. */
  lemma {:induction false} ReadingSplitsAt(args: seq<string>, i: nat, j: nat)
    requires j in StepStarts(args, i)
    ensures i <= j < |args| && |ScanBetween(args, i, j).marks| == j - i
    ensures ScanFrom(args, i) == Join(ScanBetween(args, i, j), ScanFrom(args, j))
    decreases |args| - i
  {
    var step := Step(args, i);
    var next := i + |step.marks|;
    StartsWithin(args, i);
    if j == i {
      JoinNothing(ScanFrom(args, j));
    } else {
      ReadingSplitsAt(args, next, j);
      ScanUnfold(args, i);
      JoinAssociative(step, ScanBetween(args, next, j), ScanFrom(args, j));
    }
  }

  /** The property -debug, -dev or -console sets. */
  function ValueKey(n: OptionName): PropertyKey {
    if n == DashDebug then Debug else if n == DashDev then Dev else Console
  }

  /**
   * -debug, -dev and -console are flags setting their property to "" when they are last or
   * the next argument starts with '-'; otherwise they take the next argument as the
   * property's value.  Only -debug raises the debug flag.
   */
  lemma ValueOptionStep(args: seq<string>, j: nat, n: OptionName)
    requires j < |args| && (n == DashDebug || n == DashDev || n == DashConsole)
    requires EqualsIgnoreCase(args[j], Spelling(n))
    ensures Step(args, j) ==
      if NextIsOption(args, j) then Scan([true], [Setting(ValueKey(n), "")], n == DashDebug, false)
      else Scan([true, true], [Setting(ValueKey(n), args[j + 1])], n == DashDebug, false)
  {
    RecognizeIff(args[j], n);
  }

  /**
   * Where the loop examines -debug, -dev or -console and it is last or the next argument
   * starts with '-': it alone is a framework argument and its property is set to "".
   */
  lemma BareValueOptionRule(args: seq<string>, j: nat, n: OptionName)
    requires j < |args| && j in StepStarts(args, 0) && (n == DashDebug || n == DashDev || n == DashConsole)
    requires EqualsIgnoreCase(args[j], Spelling(n)) && NextIsOption(args, j)
    ensures var whole, before := ScanFrom(args, 0), ScanBetween(args, 0, j);
      && whole == Join(before, Join(Scan([true], [Setting(ValueKey(n), "")], n == DashDebug, false), ScanFrom(args, j + 1)))
      && whole.marks[j]
  {
    ValueOptionStep(args, j, n);
    assert Step(args, j).marks == [true];
    StepInPlace(args, j, j + 1);
  }

  /**
   * Where the loop examines -debug, -dev or -console and a next argument without a leading
   * '-' follows: both are framework arguments, the property is set to that argument, and
   * that argument is never examined as an option.
   */
  lemma PairedValueOptionRule(args: seq<string>, j: nat, n: OptionName)
    requires j < |args| && j in StepStarts(args, 0) && (n == DashDebug || n == DashDev || n == DashConsole)
    requires EqualsIgnoreCase(args[j], Spelling(n)) && !NextIsOption(args, j)
    ensures var whole, before := ScanFrom(args, 0), ScanBetween(args, 0, j);
      && whole == Join(before, Join(Scan([true, true], [Setting(ValueKey(n), args[j + 1])], n == DashDebug, false), ScanFrom(args, j + 2)))
      && whole.marks[j] && whole.marks[j + 1] && j + 1 !in StepStarts(args, 0)
  {
    ValueOptionStep(args, j, n);
    assert Step(args, j).marks == [true, true];
    StepInPlace(args, j, j + 2);
    StartsApart(args, 0, j);
  }

  /**
   * A step start `j` splits the whole reading into the steps before it, the step at `j`,
   * whose marks sit at positions `j` on, and the reading after it.
   */
  lemma StepInPlace(args: seq<string>, j: nat, next: nat)
    requires j < |args| && j in StepStarts(args, 0) && next == j + |Step(args, j).marks|
    ensures var step, before := Step(args, j), ScanBetween(args, 0, j);
      var whole, rest := ScanFrom(args, 0), ScanFrom(args, next);
      && |before.marks| == j
      && whole == Join(before, Join(step, rest))
      && (forall k :: 0 <= k < |step.marks| ==> whole.marks[j + k] == step.marks[k])
  {
    var step := Step(args, j);
    ReadingSplitsAt(args, 0, j);
    ScanUnfoldAt(args, j, next);
    MarksOfJoin(ScanBetween(args, 0, j), step, ScanFrom(args, next));
  }

  lemma ScanUnfoldAt(args: seq<string>, i: nat, next: nat)
    requires i < |args| && next == i + |Step(args, i).marks|
    ensures ScanFrom(args, i) == Join(Step(args, i), ScanFrom(args, next))
  {
  }

  /** The marks of a step placed after `before` sit at positions |before.marks| on. */
  lemma MarksOfJoin(before: Scan, step: Scan, rest: Scan)
    ensures var marks := Join(before, Join(step, rest)).marks;
      forall k :: 0 <= k < |step.marks| ==> marks[|before.marks| + k] == step.marks[k]
  {
  }

  /**
   * Where the loop examines an unrecognised argument followed by one that does not start
   * with '-': both are application arguments, nothing is set, the second is never examined
   * as an option, and the loop goes on after it.
   */
  lemma UnrecognisedPairRule(args: seq<string>, j: nat)
    requires j < |args| && j in StepStarts(args, 0) && Unrecognised(args[j]) && !NextIsOption(args, j)
    ensures var whole, before := ScanFrom(args, 0), ScanBetween(args, 0, j);
      && whole == Join(before, Join(Scan([false, false], [], false, false), ScanFrom(args, j + 2)))
      && !whole.marks[j] && !whole.marks[j + 1] && j + 1 !in StepStarts(args, 0)
      && (j + 2 < |args| ==> j + 2 in StepStarts(args, 0))
  {
    UnrecognisedIff(args[j]);
    StepInPlace(args, j, j + 2);
    StartsApart(args, 0, j);
    if j + 2 < |args| {
      StartsNext(args, 0, j);
    }
  }
}
