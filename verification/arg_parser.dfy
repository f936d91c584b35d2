/** The command line: `verify`, then flags, options with their arguments and
    target names. A help flag anywhere wins over everything else. */
module Arguments {
  import opened Wrappers
  import opened JavaStrings
  import opened Wildcards
  import opened ConfigLines
  import opened Usage

  /** What the parser fills in. A missing search path is `None` (the JVM's
      own class path is used then). */
  datatype Settings = Settings(
    searchPath: Option<seq<string>>,
    help: bool,
    trace: bool,
    verbose: bool,
    targets: seq<string>,
    config: ConfigSets)

  /** A fresh `Settings`: no flag set, no targets, no search path; the sets
      start as the caller prepared them. */
  function Defaults(config: ConfigSets): Settings {
    Settings(None, false, false, false, [], config)
  }

  /** The readable configuration files and their lines; a name not in the
      map cannot be opened. */
  type Files = map<string, seq<Line>>

  predicate IsHelp(w: string) {
    w == "-h" || w == "--help"
  }

  predicate HasHelp(args: seq<string>) {
    exists i | 0 <= i < |args| :: IsHelp(args[i])
  }

  /** Options that consume the next word. */
  predicate TakesArg(w: string) {
    w == "-p" || w == "--path" || w == "-c" || w == "--config"
  }

  /** The flags and options the loop accepts. */
  predicate KnownFlag(w: string) {
    w == "--debug" || w == "-v" || w == "--verbose" || TakesArg(w)
  }

  function MissingMessage(option: string): string
    requires TakesArg(option)
  {
    if option == "-p" || option == "--path" then "Missing classpath" else "Config file name expected"
  }

  // ---------------------------------------------------------------------------
  // Search path

  /** What `checkSearchPath` accepts: a `.jar` file or a directory. */
  predicate PathElementOk(e: string) {
    EndsWith(e, ".jar") || EndsWith(e, "/")
  }

  /** Index of the first element `checkSearchPath` refuses. */
  function FirstBadElement(parts: seq<string>): (r: Option<nat>)
    ensures r.Some? ==> r.value < |parts| && !PathElementOk(parts[r.value])
    ensures r.Some? ==> forall j | 0 <= j < r.value :: PathElementOk(parts[j])
    ensures r.None? <==> forall j | 0 <= j < |parts| :: PathElementOk(parts[j])
  {
    if |parts| == 0 then None
    else if !PathElementOk(parts[0]) then Some(0)
    else
      match FirstBadElement(parts[1..])
      case None => None
      case Some(i) => Some(i + 1)
  }

  /** `processPathArg`: the argument split on `:`; every element must end in
      `.jar` or a slash, and the first that does not is named in the error. */
  function SearchPathArg(arg: string): (r: Result<seq<string>, AppError>)
    ensures r.Success? <==> forall j | 0 <= j < |JavaSplit(arg, {':'})| :: PathElementOk(JavaSplit(arg, {':'})[j])
    ensures r.Success? ==> forall j | 0 <= j < |r.value| :: PathElementOk(r.value[j]) && SepFree(r.value[j], {':'})
    ensures r.Failure? ==> exists j | 0 <= j < |JavaSplit(arg, {':'})| ::
              r.error == BadUsage("Search path element '" + JavaSplit(arg, {':'})[j] + "' should have ended with '.jar' or a slash")
    ensures r.Success? ==> r.value == JavaSplit(arg, {':'})
    ensures r.Failure? ==> exists j | 0 <= j < |JavaSplit(arg, {':'})| ::
              && !PathElementOk(JavaSplit(arg, {':'})[j])
              && (forall i | 0 <= i < j :: PathElementOk(JavaSplit(arg, {':'})[i]))
              && r.error == BadUsage("Search path element '" + JavaSplit(arg, {':'})[j] + "' should have ended with '.jar' or a slash")
  {
    var parts := JavaSplit(arg, {':'});
    JavaSplitFacts(arg, {':'});
    match FirstBadElement(parts)
    case None => Success(parts)
    case Some(i) => Failure(BadUsage("Search path element '" + parts[i] + "' should have ended with '.jar' or a slash"))
  }

  /** Joining the elements with `:` gives the argument back, unless it ended
      in a colon: `split` drops the empty elements at the end. */
  lemma SearchPathJoin(arg: string)
    requires arg == [] || arg[|arg| - 1] != ':'
    ensures |JavaSplit(arg, {':'})| >= 1
    ensures Join(JavaSplit(arg, {':'}), ':') == arg
  {
    var raw := RawSplit(arg, {':'});
    RawSplitLastEmpty(arg, {':'});
    RawSplitJoin(arg, ':');
    if |arg| == 0 {
      assert raw == [""];
    } else {
      assert raw[|raw| - 1] != "";
      assert DropTrailingEmpty(raw) == raw;
    }
  }

  /** From the parser's unit tests: `a:b` with two colon-free elements is
      split into exactly those two; the path is accepted when both are jars
      or directories, and refused naming `a` when `a` is neither. */
  lemma SearchPathOfTwo(a: string, b: string)
    requires SepFree(a, {':'}) && SepFree(b, {':'}) && b != []
    ensures JavaSplit(a + ":" + b, {':'}) == [a, b]
    ensures PathElementOk(a) && PathElementOk(b) ==> SearchPathArg(a + ":" + b) == Success([a, b])
    ensures !PathElementOk(a) ==>
              SearchPathArg(a + ":" + b) == Failure(BadUsage("Search path element '" + a + "' should have ended with '.jar' or a slash"))
  {
    assert AllSepFree([a, b], {':'});
    JoinRawSplit([a, b], ':');
    assert [a, b][1..] == [b];
    assert Join([a, b], ':') == a + ":" + b;
  }

  // ---------------------------------------------------------------------------
  // Configuration files

  /** `processConfigFileArg`: every line of the named file, in order. */
  function LoadConfigFile(files: Files, sets: ConfigSets, name: string): (r: Result<ConfigSets, AppError>)
    ensures name !in files ==> r == Failure(ConfigFileNotFound(name))
    ensures name in files ==> r == ProcessLines(sets, files[name])
    ensures r.Success? ==> Grows(sets, r.value)
  {
    if name !in files then Failure(ConfigFileNotFound(name)) else ProcessLines(sets, files[name])
  }

  // ---------------------------------------------------------------------------
  // processArgs

  /** The loop of `processArgs` over the words after the command. */
  function ProcessArgs(files: Files, s: Settings, rest: seq<string>): (r: Result<Settings, AppError>)
    ensures r.Success? ==> r.value.help == s.help
    ensures r.Success? ==> s.targets <= r.value.targets
    ensures r.Success? ==> Grows(s.config, r.value.config)
    ensures r.Success? ==>
              || r.value.searchPath == s.searchPath
              || (r.value.searchPath.Some? && forall j | 0 <= j < |r.value.searchPath.value| :: PathElementOk(r.value.searchPath.value[j]))
    ensures r.Failure? ==> r.error.BadUsage? || r.error.ConfigFileNotFound?
    decreases |rest|
  {
    if |rest| == 0 then Success(s)
    else
      var arg := rest[0];
      if arg == "--debug" then ProcessArgs(files, s.(trace := true), rest[1..])
      else if arg == "-v" || arg == "--verbose" then ProcessArgs(files, s.(verbose := true), rest[1..])
      else if arg == "-p" || arg == "--path" then
        if |rest| == 1 then Failure(BadUsage("Missing classpath"))
        else
          var path :- SearchPathArg(rest[1]);
          ProcessArgs(files, s.(searchPath := Some(path)), rest[2..])
      else if arg == "-c" || arg == "--config" then
        if |rest| == 1 then Failure(BadUsage("Config file name expected"))
        else
          var config :- LoadConfigFile(files, s.config, rest[1]);
          var r := ProcessArgs(files, s.(config := config), rest[2..]);
          assert r.Success? ==> Grows(s.config, r.value.config) by {
            if r.Success? {
              GrowsTrans(s.config, config, r.value.config);
            }
          }
          r
      else if StartsWith(arg, "-") then Failure(BadUsage("Invalid flag: " + arg))
      else ProcessArgs(files, s.(targets := s.targets + [arg]), rest[1..])
  }

  /** `parseArgs`: the help check over every word, the command, the loop,
      then `checkUsage`. */
  function ParseArgs(files: Files, config: ConfigSets, args: seq<string>): (r: Result<Settings, AppError>)
    ensures HasHelp(args) ==> r == Success(Defaults(config).(help := true))
    ensures !HasHelp(args) && |args| == 0 ==> r == Failure(BadUsage("Command argument required"))
    ensures !HasHelp(args) && |args| > 0 && args[0] != "verify" ==> r == Failure(BadUsage("Invalid command '" + args[0] + "'"))
    ensures r.Success? && !r.value.help ==> |args| > 0 && args[0] == "verify" && |r.value.targets| > 0
    ensures r.Success? ==> (r.value.help <==> HasHelp(args))
  {
    if HasHelp(args) then Success(Defaults(config).(help := true))
    else if |args| == 0 then Failure(BadUsage("Command argument required"))
    else if args[0] != "verify" then Failure(BadUsage("Invalid command '" + args[0] + "'"))
    else
      var s :- ProcessArgs(files, Defaults(config), args[1..]);
      if |s.targets| == 0 then Failure(BadUsage("No targets given")) else Success(s)
  }

  // ---------------------------------------------------------------------------
  // Which word plays which part

  /** The word at `i` is the argument of the option just before it: that
      word takes an argument and is not itself one. */
  predicate IsOptionArg(rest: seq<string>, i: nat)
    requires i < |rest|
    decreases i
  {
    i > 0 && TakesArg(rest[i - 1]) && !IsOptionArg(rest, i - 1)
  }

  /** `w` stands somewhere in `rest` as a word of its own, not as an
      option's argument. */
  predicate FreeWord(rest: seq<string>, w: string) {
    exists i | 0 <= i < |rest| :: !IsOptionArg(rest, i) && rest[i] == w
  }

  /** The free words from `i` on that do not start with `-`, in order. */
  function TargetsFrom(rest: seq<string>, i: nat): seq<string>
    requires i <= |rest|
    decreases |rest| - i
  {
    if i == |rest| then []
    else (if !IsOptionArg(rest, i) && !StartsWith(rest[i], "-") then [rest[i]] else []) + TargetsFrom(rest, i + 1)
  }

  /** From a free position on, the parts words play do not depend on what
      came before. */
  lemma {:induction false} ShiftOptionArg(rest: seq<string>, k: nat, i: nat)
    requires k <= i < |rest| && !IsOptionArg(rest, k)
    ensures IsOptionArg(rest, i) == IsOptionArg(rest[k..], i - k)
    decreases i - k
  {
    if i > k {
      ShiftOptionArg(rest, k, i - 1);
      assert rest[k..][i - 1 - k] == rest[i - 1];
    }
  }

  lemma {:induction false} TargetsShift(rest: seq<string>, k: nat, i: nat)
    requires k <= i <= |rest| && (k < |rest| ==> !IsOptionArg(rest, k))
    ensures TargetsFrom(rest, i) == TargetsFrom(rest[k..], i - k)
    decreases |rest| - i
  {
    var r := rest[k..];
    if i < |rest| {
      ShiftOptionArg(rest, k, i);
      TargetsShift(rest, k, i + 1);
      var w := rest[i];
      assert r[i - k] == w;
      var here := if !IsOptionArg(rest, i) && !StartsWith(w, "-") then [w] else [];
      assert TargetsFrom(rest, i) == here + TargetsFrom(rest, i + 1);
      assert TargetsFrom(r, i - k) == here + TargetsFrom(r, i - k + 1);
    } else {
      assert |r| == i - k;
    }
  }

  /** A step of `k` words (a flag or target, or an option with its
      argument) leaves the first word and the free words after the step. */
  lemma FreeWordShift(rest: seq<string>, k: nat, w: string)
    requires 1 <= k <= 2 && k <= |rest|
    requires k < |rest| ==> !IsOptionArg(rest, k)
    requires k == 2 ==> IsOptionArg(rest, 1)
    ensures FreeWord(rest, w) <==> rest[0] == w || FreeWord(rest[k..], w)
  {
    if FreeWord(rest, w) && rest[0] != w {
      var i :| 0 <= i < |rest| && !IsOptionArg(rest, i) && rest[i] == w;
      assert i >= k;
      ShiftOptionArg(rest, k, i);
      assert rest[k..][i - k] == w;
    }
    if FreeWord(rest[k..], w) {
      var j :| 0 <= j < |rest[k..]| && !IsOptionArg(rest[k..], j) && rest[k..][j] == w;
      ShiftOptionArg(rest, k, j + k);
      assert rest[j + k] == w;
    }
    assert !IsOptionArg(rest, 0);
  }

  /** The step the loop takes on the first word: how many words it consumes. */
  function StepWidth(rest: seq<string>): (k: nat)
    requires |rest| > 0
  {
    if TakesArg(rest[0]) then 2 else 1
  }

  lemma StepShape(rest: seq<string>)
    requires |rest| > 0 && (TakesArg(rest[0]) ==> |rest| > 1)
    ensures StepWidth(rest) <= |rest|
    ensures StepWidth(rest) < |rest| ==> !IsOptionArg(rest, StepWidth(rest))
    ensures StepWidth(rest) == 2 ==> IsOptionArg(rest, 1)
  {
    assert !IsOptionArg(rest, 0);
  }

  /** The target the first step takes: the first word when it is neither an
      option nor a flag. */
  function StepTargets(rest: seq<string>): seq<string>
    requires |rest| > 0
  {
    if StepWidth(rest) == 1 && !StartsWith(rest[0], "-") then [rest[0]] else []
  }

  /** The free targets are those of the first step, then those after it. */
  lemma TargetsStep(rest: seq<string>)
    requires |rest| > 0 && (TakesArg(rest[0]) ==> |rest| > 1)
    ensures StepWidth(rest) <= |rest|
    ensures TargetsFrom(rest, 0) == StepTargets(rest) + TargetsFrom(rest[StepWidth(rest)..], 0)
  {
    StepShape(rest);
    var k := StepWidth(rest);
    TargetsShift(rest, k, k);
    if k == 2 {
      assert TargetsFrom(rest, 1) == TargetsFrom(rest, 2);
    }
  }

  /** The settings after the loop's first step, when the loop succeeds:
      the rest of the loop runs from them over the words after the step. */
  function FirstStep(files: Files, s: Settings, rest: seq<string>): (t: Settings)
    requires |rest| > 0 && ProcessArgs(files, s, rest).Success?
    ensures StepWidth(rest) <= |rest|
    ensures ProcessArgs(files, t, rest[StepWidth(rest)..]) == ProcessArgs(files, s, rest)
    ensures t.targets == s.targets + StepTargets(rest)
  {
    var arg := rest[0];
    if arg == "--debug" then s.(trace := true)
    else if arg == "-v" || arg == "--verbose" then s.(verbose := true)
    else if arg == "-p" || arg == "--path" then s.(searchPath := Some(SearchPathArg(rest[1]).value))
    else if arg == "-c" || arg == "--config" then s.(config := LoadConfigFile(files, s.config, rest[1]).value)
    else s.(targets := s.targets + [arg])
  }

  // ---------------------------------------------------------------------------
  // What the loop computes, word by word

  /** The targets are the free words that do not start with `-`, in order,
      after those already there. */
  lemma {:induction false} TargetsMeaning(files: Files, s: Settings, rest: seq<string>)
    requires ProcessArgs(files, s, rest).Success?
    ensures ProcessArgs(files, s, rest).value.targets == s.targets + TargetsFrom(rest, 0)
    decreases |rest|
  {
    if |rest| > 0 {
      var t := FirstStep(files, s, rest);
      TargetsMeaning(files, t, rest[StepWidth(rest)..]);
      TargetsJoin(s.targets, rest);
    }
  }

  /** Targets already found, then those of the first step, then those after
      it, are the targets found before plus those of the whole list. */
  lemma TargetsJoin(before: seq<string>, rest: seq<string>)
    requires |rest| > 0 && StepWidth(rest) <= |rest|
    ensures before + StepTargets(rest) + TargetsFrom(rest[StepWidth(rest)..], 0) == before + TargetsFrom(rest, 0)
  {
    TargetsStep(rest);
    AppendSplit(before, StepTargets(rest), TargetsFrom(rest[StepWidth(rest)..], 0), TargetsFrom(rest, 0));
  }

  lemma AppendSplit(x: seq<string>, y: seq<string>, z: seq<string>, w: seq<string>)
    requires w == y + z
    ensures x + y + z == x + w
  {
  }

  /** `--debug` turns tracing on exactly when it stands as a word of its own. */
  lemma {:induction false} TraceMeaning(files: Files, s: Settings, rest: seq<string>)
    requires ProcessArgs(files, s, rest).Success?
    ensures ProcessArgs(files, s, rest).value.trace <==> s.trace || FreeWord(rest, "--debug")
    decreases |rest|
  {
    if |rest| > 0 {
      StepShape(rest);
      FreeWordShift(rest, StepWidth(rest), "--debug");
      TraceMeaning(files, FirstStep(files, s, rest), rest[StepWidth(rest)..]);
    }
  }

  /** `-v` or `--verbose` turns verbosity on exactly when one of them stands
      as a word of its own. */
  lemma {:induction false} VerboseMeaning(files: Files, s: Settings, rest: seq<string>)
    requires ProcessArgs(files, s, rest).Success?
    ensures ProcessArgs(files, s, rest).value.verbose <==> s.verbose || FreeWord(rest, "-v") || FreeWord(rest, "--verbose")
    decreases |rest|
  {
    if |rest| > 0 {
      StepShape(rest);
      FreeWordShift(rest, StepWidth(rest), "-v");
      FreeWordShift(rest, StepWidth(rest), "--verbose");
      VerboseMeaning(files, FirstStep(files, s, rest), rest[StepWidth(rest)..]);
    }
  }

  /** A successful loop saw no free word starting with `-` other than the
      flags and options it knows. */
  lemma {:induction false} FlagsKnown(files: Files, s: Settings, rest: seq<string>)
    requires ProcessArgs(files, s, rest).Success?
    ensures forall w | FreeWord(rest, w) && StartsWith(w, "-") :: KnownFlag(w)
    decreases |rest|
  {
    if |rest| > 0 {
      var arg := rest[0];
      StepShape(rest);
      var k := StepWidth(rest);
      forall w | FreeWord(rest, w) ensures w == arg || FreeWord(rest[k..], w) {
        FreeWordShift(rest, k, w);
      }
      FlagsKnown(files, FirstStep(files, s, rest), rest[StepWidth(rest)..]);
    }
  }

  /** An option as the last word, after words the loop accepts, is missing
      its argument. */
  lemma {:induction false} MissingArgument(files: Files, s: Settings, rest: seq<string>, option: string)
    requires TakesArg(option) && ProcessArgs(files, s, rest).Success?
    ensures ProcessArgs(files, s, rest + [option]) == Failure(BadUsage(MissingMessage(option)))
    decreases |rest|
  {
    var all := rest + [option];
    if |rest| == 0 {
      assert all == [option];
    } else {
      var arg := rest[0];
      assert all[0] == arg;
      if TakesArg(arg) {
        assert all[2..] == rest[2..] + [option];
      } else {
        assert all[1..] == rest[1..] + [option];
      }
      if arg == "--debug" {
        MissingArgument(files, s.(trace := true), rest[1..], option);
      } else if arg == "-v" || arg == "--verbose" {
        MissingArgument(files, s.(verbose := true), rest[1..], option);
      } else if arg == "-p" || arg == "--path" {
        MissingArgument(files, s.(searchPath := Some(SearchPathArg(rest[1]).value)), rest[2..], option);
      } else if arg == "-c" || arg == "--config" {
        MissingArgument(files, s.(config := LoadConfigFile(files, s.config, rest[1]).value), rest[2..], option);
      } else {
        MissingArgument(files, s.(targets := s.targets + [arg]), rest[1..], option);
      }
    }
  }

  /** The word at `i` is `-p` or `--path` standing as a word of its own. */
  predicate PathAt(rest: seq<string>, i: nat)
    requires i < |rest|
  {
    !IsOptionArg(rest, i) && (rest[i] == "-p" || rest[i] == "--path")
  }

  /** The search-path option at `i` is the last one among the words. */
  predicate LastPathAt(rest: seq<string>, i: nat)
    requires i < |rest|
  {
    PathAt(rest, i) && forall j | i < j < |rest| :: !PathAt(rest, j)
  }

  /** A free word at `i >= k` plays the same part in `rest[k..]`. */
  lemma PathAtShift(rest: seq<string>, k: nat, i: nat)
    requires k <= i < |rest| && !IsOptionArg(rest, k)
    ensures PathAt(rest, i) == PathAt(rest[k..], i - k)
  {
    ShiftOptionArg(rest, k, i);
  }

  /** What the first step does to the search path. */
  lemma FirstStepPath(files: Files, s: Settings, rest: seq<string>)
    requires |rest| > 0 && ProcessArgs(files, s, rest).Success?
    ensures PathAt(rest, 0) ==> |rest| > 1 && FirstStep(files, s, rest).searchPath == Some(JavaSplit(rest[1], {':'}))
    ensures !PathAt(rest, 0) ==> FirstStep(files, s, rest).searchPath == s.searchPath
  {
    assert !IsOptionArg(rest, 0);
    if rest[0] == "-p" || rest[0] == "--path" {
      PathOptionAccepted(files, s, rest);
    }
  }

  /** An accepted list that starts with a search-path option has a valid
      search path after it. */
  lemma PathOptionAccepted(files: Files, s: Settings, rest: seq<string>)
    requires |rest| > 0 && (rest[0] == "-p" || rest[0] == "--path") && ProcessArgs(files, s, rest).Success?
    ensures |rest| > 1 && SearchPathArg(rest[1]).Success?
  {
    assert |rest| > 1;
  }

  /** What the first step does to the node sets. */
  lemma FirstStepConfig(files: Files, s: Settings, rest: seq<string>)
    requires |rest| > 0 && ProcessArgs(files, s, rest).Success?
    ensures StepConfigNames(rest) != [] ==> |rest| > 1 && LoadConfigFile(files, s.config, rest[1]) == Success(FirstStep(files, s, rest).config)
    ensures StepConfigNames(rest) == [] ==> FirstStep(files, s, rest).config == s.config
  {
    assert !IsOptionArg(rest, 0);
  }

  /** Past the first step, the path options of `rest` are those of the words
      after it; the first step's own argument is none. */
  lemma PathAtStep(rest: seq<string>)
    requires |rest| > 0 && (TakesArg(rest[0]) ==> |rest| > 1)
    ensures StepWidth(rest) <= |rest|
    ensures forall i | StepWidth(rest) <= i < |rest| :: PathAt(rest, i) == PathAt(rest[StepWidth(rest)..], i - StepWidth(rest))
    ensures StepWidth(rest) == 2 ==> !PathAt(rest, 1)
  {
    StepShape(rest);
    var k := StepWidth(rest);
    forall i | k <= i < |rest| ensures PathAt(rest, i) == PathAt(rest[k..], i - k) {
      PathAtShift(rest, k, i);
    }
  }

  /** Every search-path option in an accepted list has its argument. */
  lemma {:induction false} PathArgsPresent(files: Files, s: Settings, rest: seq<string>)
    requires ProcessArgs(files, s, rest).Success?
    ensures forall i | 0 <= i < |rest| && PathAt(rest, i) :: i + 1 < |rest|
    decreases |rest|
  {
    if |rest| > 0 {
      var t := FirstStep(files, s, rest);
      var k := StepWidth(rest);
      PathArgsPresent(files, t, rest[k..]);
      PathArgsLift(rest);
    }
  }

  /** A search-path option past the first step that has its argument has it
      in the whole list too, and the first step cannot strand one. */
  lemma PathArgsLift(rest: seq<string>)
    requires |rest| > 0 && (TakesArg(rest[0]) ==> |rest| > 1)
    requires forall i | 0 <= i < |rest| - StepWidth(rest) && PathAt(rest[StepWidth(rest)..], i) ::
               i + 1 < |rest| - StepWidth(rest)
    ensures forall i | 0 <= i < |rest| && PathAt(rest, i) :: i + 1 < |rest|
  {
    PathAtStep(rest);
    var k := StepWidth(rest);
    forall i | 0 <= i < |rest| && PathAt(rest, i) ensures i + 1 < |rest| {
      if i >= k {
        assert PathAt(rest[k..], i - k);
      }
    }
  }

  /** Without a search-path option the search path is left as it was. */
  lemma {:induction false} NoPathKeeps(files: Files, s: Settings, rest: seq<string>)
    requires ProcessArgs(files, s, rest).Success?
    requires forall i | 0 <= i < |rest| :: !PathAt(rest, i)
    ensures ProcessArgs(files, s, rest).value.searchPath == s.searchPath
    decreases |rest|
  {
    if |rest| > 0 {
      FirstStepPath(files, s, rest);
      PathAtStep(rest);
      var k := StepWidth(rest);
      var tail := rest[k..];
      forall j | 0 <= j < |tail| ensures !PathAt(tail, j) {
        assert !PathAt(rest, j + k);
      }
      NoPathKeeps(files, FirstStep(files, s, rest), tail);
    }
  }

  /** After the first step, the last search-path option is still the last
      one, and nothing after it is a search-path option. */
  lemma LastPathShift(rest: seq<string>, i: nat)
    requires |rest| > 0 && (TakesArg(rest[0]) ==> |rest| > 1)
    requires i < |rest| && LastPathAt(rest, i)
    ensures StepWidth(rest) <= |rest|
    ensures i == 0 || StepWidth(rest) <= i
    ensures forall j | 0 <= j < |rest| - StepWidth(rest) && i < j + StepWidth(rest) :: !PathAt(rest[StepWidth(rest)..], j)
    ensures i > 0 ==> LastPathAt(rest[StepWidth(rest)..], i - StepWidth(rest))
    ensures i > 0 && i + 1 < |rest| ==> rest[StepWidth(rest)..][i - StepWidth(rest) + 1] == rest[i + 1]
  {
    PathAtStep(rest);
    var k := StepWidth(rest);
    var tail := rest[k..];
    forall j | 0 <= j < |tail| && i < j + k ensures !PathAt(tail, j) {
      assert !PathAt(rest, j + k);
    }
  }

  /** The last search-path option decides the search path. */
  lemma {:induction false} LastPathWins(files: Files, s: Settings, rest: seq<string>, i: nat)
    requires ProcessArgs(files, s, rest).Success?
    requires i + 1 < |rest| && LastPathAt(rest, i)
    ensures ProcessArgs(files, s, rest).value.searchPath == Some(JavaSplit(rest[i + 1], {':'}))
    decreases |rest|
  {
    var t := FirstStep(files, s, rest);
    LastPathShift(rest, i);
    if i == 0 {
      FirstPathLast(files, s, rest);
    } else {
      LastPathWins(files, t, rest[StepWidth(rest)..], i - StepWidth(rest));
    }
  }

  /** A first word that is the only search-path option decides the path. */
  lemma FirstPathLast(files: Files, s: Settings, rest: seq<string>)
    requires ProcessArgs(files, s, rest).Success?
    requires 1 < |rest| && LastPathAt(rest, 0)
    ensures ProcessArgs(files, s, rest).value.searchPath == Some(JavaSplit(rest[1], {':'}))
  {
    var t := FirstStep(files, s, rest);
    LastPathShift(rest, 0);
    FirstStepPath(files, s, rest);
    NoPathKeeps(files, t, rest[StepWidth(rest)..]);
  }

  /** The search path is the argument of the last `-p` or `--path` split on
      `:`; each later option overrides the earlier ones, and without one the
      path is left as it was. */
  lemma SearchPathMeaning(files: Files, s: Settings, rest: seq<string>)
    requires ProcessArgs(files, s, rest).Success?
    ensures forall i | 0 <= i < |rest| && PathAt(rest, i) :: i + 1 < |rest|
    ensures (forall i | 0 <= i < |rest| :: !PathAt(rest, i)) ==> ProcessArgs(files, s, rest).value.searchPath == s.searchPath
    ensures forall i | 0 <= i && i + 1 < |rest| && LastPathAt(rest, i) ::
              ProcessArgs(files, s, rest).value.searchPath == Some(JavaSplit(rest[i + 1], {':'}))
  {
    PathArgsPresent(files, s, rest);
    if forall i | 0 <= i < |rest| :: !PathAt(rest, i) {
      NoPathKeeps(files, s, rest);
    }
    forall i | 0 <= i && i + 1 < |rest| && LastPathAt(rest, i)
      ensures ProcessArgs(files, s, rest).value.searchPath == Some(JavaSplit(rest[i + 1], {':'}))
    {
      LastPathWins(files, s, rest, i);
    }
  }

  /** The words naming configuration files: the arguments of `-c` and
      `--config` from `i` on, in order. */
  function ConfigNamesFrom(rest: seq<string>, i: nat): seq<string>
    requires i <= |rest|
    decreases |rest| - i
  {
    if i == |rest| then []
    else (if IsOptionArg(rest, i) && (rest[i - 1] == "-c" || rest[i - 1] == "--config") then [rest[i]] else [])
         + ConfigNamesFrom(rest, i + 1)
  }

  /** Every named file loaded in turn, each on the sets the previous left. */
  function LoadConfigFiles(files: Files, sets: ConfigSets, names: seq<string>): (r: Result<ConfigSets, AppError>)
    ensures r.Success? ==> forall i | 0 <= i < |names| :: names[i] in files
    ensures r.Failure? && r.error.ConfigFileNotFound? ==> r.error.file in names && r.error.file !in files
    decreases |names|
  {
    if |names| == 0 then Success(sets)
    else
      var next :- LoadConfigFile(files, sets, names[0]);
      LoadConfigFiles(files, next, names[1..])
  }

  lemma {:induction false} ConfigNamesShift(rest: seq<string>, k: nat, i: nat)
    requires k <= i <= |rest| && (k < |rest| ==> !IsOptionArg(rest, k))
    ensures ConfigNamesFrom(rest, i) == ConfigNamesFrom(rest[k..], i - k)
    decreases |rest| - i
  {
    var r := rest[k..];
    if i < |rest| {
      ShiftOptionArg(rest, k, i);
      ConfigNamesShift(rest, k, i + 1);
      assert r[i - k] == rest[i];
      if i > k {
        assert r[i - k - 1] == rest[i - 1];
      }
    } else {
      assert |r| == i - k;
    }
  }

  /** The file the first step loads, if it is a configuration option. */
  function StepConfigNames(rest: seq<string>): seq<string>
    requires |rest| > 0
  {
    if (rest[0] == "-c" || rest[0] == "--config") && |rest| > 1 then [rest[1]] else []
  }

  lemma ConfigNamesStep(rest: seq<string>)
    requires |rest| > 0 && (TakesArg(rest[0]) ==> |rest| > 1)
    ensures StepWidth(rest) <= |rest|
    ensures ConfigNamesFrom(rest, 0) == StepConfigNames(rest) + ConfigNamesFrom(rest[StepWidth(rest)..], 0)
  {
    StepShape(rest);
    var k := StepWidth(rest);
    ConfigNamesShift(rest, k, k);
    assert !IsOptionArg(rest, 0);
    if k == 2 {
      assert IsOptionArg(rest, 1);
      assert ConfigNamesFrom(rest, 1) == StepConfigNames(rest) + ConfigNamesFrom(rest, 2);
    }
  }

  /** The configuration the loop ends with is the one loading the files
      named after `-c` and `--config`, in the order they stand. */
  lemma {:induction false} ConfigMeaning(files: Files, s: Settings, rest: seq<string>)
    requires ProcessArgs(files, s, rest).Success?
    ensures LoadConfigFiles(files, s.config, ConfigNamesFrom(rest, 0)) == Success(ProcessArgs(files, s, rest).value.config)
    decreases |rest|
  {
    if |rest| > 0 {
      FirstStepConfig(files, s, rest);
      ConfigNamesStep(rest);
      var k := StepWidth(rest);
      var t := FirstStep(files, s, rest);
      ConfigMeaning(files, t, rest[k..]);
      var names := ConfigNamesFrom(rest, 0);
      var tail := ConfigNamesFrom(rest[k..], 0);
      if StepConfigNames(rest) != [] {
        assert names[0] == rest[1] && names[1..] == tail;
      } else {
        assert names == tail;
      }
    }
  }

  /** Without a help flag, a successful parse started with `verify`, and
      the settings say exactly what the free words after it say. */
  lemma ParseArgsMeaning(files: Files, config: ConfigSets, args: seq<string>)
    requires ParseArgs(files, config, args).Success? && !HasHelp(args)
    ensures |args| > 0 && args[0] == "verify"
    ensures var r := ParseArgs(files, config, args).value;
            && !r.help
            && r.targets == TargetsFrom(args[1..], 0) && |r.targets| > 0
            && (r.trace <==> FreeWord(args[1..], "--debug"))
            && (r.verbose <==> FreeWord(args[1..], "-v") || FreeWord(args[1..], "--verbose"))
            && (forall w | FreeWord(args[1..], w) && StartsWith(w, "-") :: KnownFlag(w))
            && ((forall i | 0 <= i < |args| - 1 :: !PathAt(args[1..], i)) ==> r.searchPath.None?)
            && (forall i | 0 <= i && i + 1 < |args| - 1 && LastPathAt(args[1..], i) ::
                  r.searchPath == Some(JavaSplit(args[1..][i + 1], {':'})))
            && LoadConfigFiles(files, config, ConfigNamesFrom(args[1..], 0)) == Success(r.config)
  {
    var d := Defaults(config);
    var rest := args[1..];
    assert ProcessArgs(files, d, rest).Success?;
    assert ParseArgs(files, config, args) == ProcessArgs(files, d, rest);
    SearchPathMeaning(files, d, rest);
    ConfigMeaning(files, d, rest);
    TargetsMeaning(files, d, rest);
    TraceMeaning(files, d, rest);
    VerboseMeaning(files, d, rest);
    FlagsKnown(files, d, rest);
  }

  /** `checkUsage`: once the loop accepts the words after `verify`, the
      parse succeeds exactly when a free target was among them, and fails
      with "No targets given" otherwise. */
  lemma NoTargetsGiven(files: Files, config: ConfigSets, args: seq<string>)
    requires !HasHelp(args) && |args| > 0 && args[0] == "verify"
    requires ProcessArgs(files, Defaults(config), args[1..]).Success?
    ensures ParseArgs(files, config, args).Success? <==> TargetsFrom(args[1..], 0) != []
    ensures TargetsFrom(args[1..], 0) == [] ==> ParseArgs(files, config, args) == Failure(BadUsage("No targets given"))
  {
    TargetsMeaning(files, Defaults(config), args[1..]);
  }

  /** From the parser's unit tests: `verify` alone has no target, and an
      unknown command is named in the error. */
  lemma UsageErrorExamples(files: Files, config: ConfigSets, w: string)
    requires w == "oops"
    ensures ParseArgs(files, config, ["verify"]) == Failure(BadUsage("No targets given"))
    ensures ParseArgs(files, config, [w]) == Failure(BadUsage("Invalid command 'oops'"))
  {
    assert !HasHelp(["verify"]) && ["verify"][1..] == [];
    assert !HasHelp([w]) && w != "verify" && [w][0] == w;
    assert "Invalid command '" + w + "'" == "Invalid command 'oops'";
  }

  /** From the parser's unit test: `verify --path <p> <t1> <t2>` sets the
      search path to the one element and takes both targets, and leaves
      both flags off. */
  lemma CombinedExample(files: Files, config: ConfigSets, p: string, t1: string, t2: string)
    requires SepFree(p, {':'}) && PathElementOk(p)
    requires !StartsWith(t1, "-") && !StartsWith(t2, "-")
    ensures var r := ParseArgs(files, config, ["verify", "--path", p, t1, t2]);
            && r.Success?
            && r.value.searchPath == Some([p])
            && r.value.targets == [t1, t2]
            && !r.value.trace && !r.value.verbose && !r.value.help
  {
    var args := ["verify", "--path", p, t1, t2];
    var d := Defaults(config);
    var expected := d.(searchPath := Some([p]), targets := d.targets + [t1, t2]);
    assert d.targets + [t1, t2] == [t1, t2];
    assert !HasHelp(args) by {
      assert !IsHelp(t1) && !IsHelp(t2) && !IsHelp(p) by {
        assert "-" <= "-h" && "-" <= "--help";
      }
    }
    assert args[0] == "verify" && args[1..] == ["--path", p, t1, t2];
    CombinedLoop(files, Defaults(config), p, t1, t2);
    assert ProcessArgs(files, Defaults(config), args[1..]) == Success(expected);
    assert ParseArgs(files, config, args) == Success(expected);
  }

  lemma CombinedLoop(files: Files, s: Settings, p: string, t1: string, t2: string)
    requires SepFree(p, {':'}) && PathElementOk(p)
    requires !StartsWith(t1, "-") && !StartsWith(t2, "-")
    ensures ProcessArgs(files, s, ["--path", p, t1, t2]) == Success(s.(searchPath := Some([p]), targets := s.targets + [t1, t2]))
  {
    JavaSplitFacts(p, {':'});
    assert SearchPathArg(p) == Success([p]);
    var s1 := s.(searchPath := Some([p]));
    var rest := ["--path", p, t1, t2];
    assert rest[2..] == [t1, t2] && [t1, t2][1..] == [t2] && [t2][1..] == [];
    assert ProcessArgs(files, s, rest) == ProcessArgs(files, s1, [t1, t2]);
    PlainStep(files, s1, [t1, t2]);
    PlainStep(files, s1.(targets := s.targets + [t1]), [t2]);
    assert s.targets + [t1] + [t2] == s.targets + [t1, t2];
  }

  /** A word that does not start with `-` is a target. */
  lemma PlainStep(files: Files, s: Settings, rest: seq<string>)
    requires |rest| > 0 && !StartsWith(rest[0], "-")
    ensures ProcessArgs(files, s, rest) == ProcessArgs(files, s.(targets := s.targets + [rest[0]]), rest[1..])
  {
    assert !KnownFlag(rest[0]) by {
      assert "-" <= "--debug" && "-" <= "-v" && "-" <= "--verbose";
      assert "-" <= "-p" && "-" <= "--path" && "-" <= "-c" && "-" <= "--config";
    }
  }
}
