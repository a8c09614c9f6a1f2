/** The log level names a configuration may use and how a name is checked
    (nark/config/log_levels.py). */
module LogLevels {
  import opened Wrappers
  import PyText

  /** The keys of `LOG_LEVELS`, in the order the table declares them. */
  const LevelNames: seq<string> := ["debug", "info", "warning", "error", "critical"]

  /** The `logging` constants the table maps those names to. */
  const LevelValues: seq<int> := [10, 20, 30, 40, 50]

  /** `logging.CRITICAL`. */
  const Critical: int := 50

  /** The syntax error raised for an unknown name: it repeats the name given and
      lists every name that would have been accepted. */
  datatype LogLevelError = UnknownLevel(given: string, known: seq<string>)

  /** A configured level is either left as the name given or, while the shell
      completion command runs, replaced by a level above CRITICAL. */
  datatype LevelSetting = Name(name: string) | Level(level: int)

  function IndexOf(names: seq<string>, key: string): (r: Option<nat>)
    ensures r.Some? ==> r.value < |names| && names[r.value] == key
    ensures r.Some? ==> forall j :: 0 <= j < r.value ==> names[j] != key
    ensures r.None? ==> key !in names
  {
    if names == [] then None
    else if names[0] == key then Some(0)
    else match IndexOf(names[1..], key)
      case None => None
      case Some(i) => Some(i + 1)
  }

  /** `must_verify_log_level`: looks the lower-cased name up in the table. */
  function MustVerifyLogLevel(name: string): (r: Result<int, LogLevelError>)
    ensures r.Success? <==> PyText.Lower(name) in LevelNames
    ensures r.Success? ==> exists i :: 0 <= i < |LevelNames| && LevelNames[i] == PyText.Lower(name) && r.value == LevelValues[i]
    ensures r.Failure? ==> r.error == UnknownLevel(name, LevelNames)
  {
    match IndexOf(LevelNames, PyText.Lower(name))
    case Some(i) => Success(LevelValues[i])
    case None => Failure(UnknownLevel(name, LevelNames))
  }

  /** `get_log_level_safe`: checks the name, then answers CRITICAL + 1 when the
      command line is exactly `<program> complete`, else the name unchanged. */
  function GetLogLevelSafe(name: string, argv: seq<string>): (r: Result<LevelSetting, LogLevelError>)
    ensures r.Failure? <==> MustVerifyLogLevel(name).Failure?
    ensures r.Success? ==> (r.value == Level(Critical + 1) <==> |argv| == 2 && argv[1] == "complete")
    ensures r.Success? && r.value.Name? ==> r.value.name == name
  {
    var _ :- MustVerifyLogLevel(name);
    if |argv| == 2 && argv[1] == "complete" then Success(Level(Critical + 1)) else Success(Name(name))
  }

  /** The check ignores case: a name and its upper-case spelling are accepted
      or refused together, and map to the same level. */
  lemma VerifyIgnoresCase(name: string)
    ensures MustVerifyLogLevel(PyText.Upper(name)).Success? == MustVerifyLogLevel(name).Success?
    ensures MustVerifyLogLevel(name).Success? ==> MustVerifyLogLevel(PyText.Upper(name)).value == MustVerifyLogLevel(name).value
  {
    PyText.LowerOfUpper(name);
  }

  /** The table is ordered by severity: a later name always means a higher level,
      and the completion override is above every name. */
  lemma LevelsIncrease(i: int, j: int)
    requires 0 <= i < j < |LevelValues|
    ensures LevelValues[i] < LevelValues[j] < Critical + 1
  {
  }
}
