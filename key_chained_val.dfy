/** One configuration setting and the sources its value can come from
    (nark/config/key_chained_val.py). The value is looked up, in order, in a
    forced override, a command-line argument, the environment, the config file
    and finally the setting's default. */
module KeyChainedVal {
  import opened Wrappers
  import opened PyValue
  import PyText

  /** The conversion a setting applies to every value it is given: one of the
      built-in ones the default's type selects, or a caller-supplied one. */
  datatype Caster = Identity | BoolType | IntType | StrType | ListWrap | Custom(f: Value -> Result<Value, CastError>)

  /** `ephemeral` and `hidden`: a plain flag, or a callable asked once the
      setting belongs to a section (it is given the setting's name and the
      section's path). */
  datatype Flag = Fixed(on: bool) | Computed(test: (string, seq<string>) -> bool)

  /** What a `validate` callable answers: a true value, a false one, or an
      exception of its own. */
  datatype Verdict = Accept | Reject | Raise(message: string)

  /** The exceptions of the configuration model. */
  datatype ConfigError =
    | Cast(cause: CastError)                                    // from the value type's conversion
    | NoDefaultType                                             // NotImplementedError
    | InvalidValue(setting: string, value: Value, choices: seq<Value>)  // ValueError
    | ValidatorRaised(message: string)
    | NoSection(setting: string)                                // AttributeError on a setting without a section
    | MissingSection(section: string)                           // KeyError while descending
    | Ambiguous(key: string)                                    // KeyError: more than one object
    | Unrecognized(key: string)                                 // Exception: no object
    | NotADict(key: string)                                     // a value found where a section was expected
    | TooFewArguments(count: nat)                               // TypeError from setdefault
    | NameNotDefined(identifier: string)                        // NameError

  /** The built-in conversions: `bool`, `int`, `str`, the list wrapper (which
      keeps a non-empty list and wraps anything else, the empty list included,
      in a list) and the identity. */
  function Apply(c: Caster, v: Value): (r: Result<Value, ConfigError>)
    ensures c.BoolType? ==> r == Success(VBool(Truthy(v)))
    ensures c.ListWrap? ==> r.Success? && r.value.VList? && r.value.items != []
    ensures c.ListWrap? && v.VList? && v.items != [] ==> r == Success(v)
    ensures c.ListWrap? && !(v.VList? && v.items != []) ==> r == Success(VList([v]))
    ensures c.StrType? ==> r == Success(VStr(Str(v)))
    ensures c.IntType? ==> (r.Success? <==> ToInt(v).Success?)
    ensures c.IntType? && r.Success? ==> r.value == ToInt(v).value
    ensures c.IntType? && r.Failure? ==> r.error == Cast(ToInt(v).error)
    ensures c.Identity? ==> r == Success(v)
  {
    match c
    case Identity => Success(v)
    case BoolType => Success(VBool(Truthy(v)))
    case IntType =>
      (match ToInt(v)
       case Success(i) => Success(i)
       case Failure(e) => Failure(Cast(e)))
    case StrType => Success(VStr(Str(v)))
    case ListWrap => if v.VList? && v.items != [] then Success(v) else Success(VList([v]))
    case Custom(f) =>
      (match f(v)
       case Success(x) => Success(x)
       case Failure(e) => Failure(Cast(e)))
  }

  /** `_typify`: for a boolean setting the strings "True" and "False" mean what
      they say; everything else goes through the conversion. */
  function Typify(c: Caster, v: Value): (r: Result<Value, ConfigError>)
    ensures c.BoolType? ==> r.Success? && r.value.VBool?
    ensures c.BoolType? && v == VStr("True") ==> r == Success(VBool(true))
    ensures c.BoolType? && v == VStr("False") ==> r == Success(VBool(false))
    ensures !c.BoolType? ==> r == Apply(c, v)
  {
    if c.BoolType? && v == VStr("True") then Success(VBool(true))
    else if c.BoolType? && v == VStr("False") then Success(VBool(false))
    else Apply(c, v)
  }

  /** Converting a converted value again changes nothing for the built-in
      conversions, so the second conversion the value setter performs is
      harmless for them. */
  lemma TypifyIdempotent(c: Caster, v: Value)
    requires !c.Custom? && Typify(c, v).Success?
    ensures Typify(c, Typify(c, v).value) == Typify(c, v)
  {
  }

  /** Only the exact spellings are special: any other non-empty text is true. */
  lemma BoolFromText()
    ensures Typify(BoolType, VStr("false")) == Success(VBool(true))
    ensures Typify(BoolType, VStr("")) == Success(VBool(false))
  {
  }

  /** The list wrapper treats the empty list like a scalar. */
  lemma EmptyListWrapped()
    ensures Typify(ListWrap, VList([])) == Success(VList([VList([])]))
  {
  }

  /** `deduce_default_type`: the conversion the type of the default selects. */
  function DeduceDefaultType(d: Value): (r: Result<Caster, ConfigError>)
    ensures r.Failure? <==> d.VOther?
    ensures r.Failure? ==> r.error == NoDefaultType
    ensures r.Success? ==> !r.value.Custom?
    ensures d.VNone? <==> r == Success(Identity)
  {
    match d
    case VNone => Success(Identity)
    case VBool(_) => Success(BoolType)
    case VInt(_) => Success(IntType)
    case VList(_) => Success(ListWrap)
    case VStr(_) => Success(StrType)
    case VOther(_, _) => Failure(NoDefaultType)
  }

  /** The kind of value a built-in conversion yields: the kind of the default
      that selected it. */
  predicate SameKind(a: Value, b: Value) {
    (a.VBool? && b.VBool?) || (a.VInt? && b.VInt?) || (a.VStr? && b.VStr?) || (a.VList? && b.VList?)
  }

  /** A default survives the conversion its own type selects; only the empty
      list, which the list wrapper treats as a scalar, comes back wrapped. */
  lemma DefaultSurvivesItsType(d: Value)
    requires !d.VOther?
    ensures d != VList([]) ==> Typify(DeduceDefaultType(d).value, d) == Success(d)
    ensures d == VList([]) ==> Typify(DeduceDefaultType(d).value, d) == Success(VList([d]))
  {
  }

  /** Whatever a setting with a default of a supported type (other than None)
      is given, a successful conversion yields a value of the default's kind:
      a string is never split into a list of characters, and a bool setting
      stores bools. */
  lemma DeducedTypeKeepsKind(d: Value, v: Value)
    requires !d.VOther? && !d.VNone?
    ensures Typify(DeduceDefaultType(d).value, v).Success? ==> SameKind(Typify(DeduceDefaultType(d).value, v).value, d)
  {
  }

  /** The value of an `ephemeral` or `hidden` flag: a callable one is false
      until the setting belongs to a section. */
  function FlagValue(f: Flag, name: string, section: Option<seq<string>>): bool {
    match f
    case Fixed(b) => b
    case Computed(test) => if section.None? then false else test(name, section.value)
  }

  /** `deduce_value_type`: an explicit type wins; an ephemeral setting keeps
      values as they are; otherwise the default's type decides. */
  function DeduceValueType(valueType: Option<Caster>, ephemeral: Flag, name: string,
                           section: Option<seq<string>>, defaultF: Option<seq<string>> -> Value): (r: Result<Caster, ConfigError>)
    ensures valueType.Some? ==> r == Success(valueType.value)
    ensures valueType.None? && FlagValue(ephemeral, name, section) ==> r == Success(Identity)
    ensures valueType.None? && !FlagValue(ephemeral, name, section) ==> r == DeduceDefaultType(defaultF(section))
    ensures r.Failure? <==> valueType.None? && !FlagValue(ephemeral, name, section) && defaultF(section).VOther?
  {
    if valueType.Some? then Success(valueType.value)
    else if FlagValue(ephemeral, name, section) then Success(Identity)
    else DeduceDefaultType(defaultF(section))
  }

  /** The environment variable that overrides a setting: `DOB_`, the section
      path joined with `_`, `_`, and the setting name, all upper-cased. */
  function EnvName(path: seq<string>, name: string): (r: string)
    ensures |r| >= 5 && r[..4] == "DOB_"
    ensures path == [] ==> r == "DOB__" + PyText.Upper(name)
  {
    "DOB_" + PyText.Upper(PyText.Join(path, "_")) + "_" + PyText.Upper(name)
  }

  class KeyChainedValue {
    const name: string
    const defaultF: Option<seq<string>> -> Value
    const valueType: Caster
    const choices: seq<Value>
    const doc: string
    const ephemeral: Flag
    const hidden: Flag
    const validate: Option<Value -> Verdict>

    /** The path of the owning section (empty for the root), absent until the
        setting is attached to one. */
    var section: Option<seq<string>>
    /** The three value slots; absent means the attribute is not set. */
    var forced: Option<Value>
    var cliarg: Option<Value>
    var config: Option<Value>

    /** Builds the object once its value type is known; see `Create`. */
    constructor(section: Option<seq<string>>, name: string, defaultF: Option<seq<string>> -> Value, valueType: Caster,
                choices: seq<Value>, doc: string, ephemeral: Flag, hidden: Flag, validate: Option<Value -> Verdict>)
      ensures this.section == section && this.name == name && this.defaultF == defaultF
      ensures this.valueType == valueType && this.choices == choices && this.doc == doc
      ensures this.ephemeral == ephemeral && this.hidden == hidden && this.validate == validate
      ensures forced.None? && cliarg.None? && config.None?
    {
      this.section := section;
      this.name := name;
      this.defaultF := defaultF;
      this.valueType := valueType;
      this.choices := choices;
      this.doc := doc;
      this.ephemeral := ephemeral;
      this.hidden := hidden;
      this.validate := validate;
      forced, cliarg, config := None, None, None;
    }

    /** `KeyChainedValue(...)`: deduces the value type and builds the setting,
        or raises NotImplementedError for a default of an unsupported type. */
    static method Create(section: Option<seq<string>>, name: string, defaultF: Option<seq<string>> -> Value,
                         valueType: Option<Caster>, choices: seq<Value>, doc: string, ephemeral: Flag, hidden: Flag,
                         validate: Option<Value -> Verdict>) returns (r: Result<KeyChainedValue, ConfigError>)
      ensures r.Failure? <==> DeduceValueType(valueType, ephemeral, name, section, defaultF).Failure?
      ensures r.Failure? ==> r.error == DeduceValueType(valueType, ephemeral, name, section, defaultF).error
      ensures r.Success? ==>
        fresh(r.value) && r.value.name == name && r.value.section == section
        && r.value.defaultF == defaultF && r.value.choices == choices && r.value.doc == doc && r.value.ephemeral == ephemeral
        && r.value.hidden == hidden && r.value.validate == validate
        && r.value.valueType == DeduceValueType(valueType, ephemeral, name, section, defaultF).value
        && r.value.forced.None? && r.value.cliarg.None? && r.value.config.None?
    {
      var vt := DeduceValueType(valueType, ephemeral, name, section, defaultF);
      if vt.Failure? {
        return Failure(vt.error);
      }
      var k := new KeyChainedValue(section, name, defaultF, vt.value, choices, doc, ephemeral, hidden, validate);
      return Success(k);
    }

    /** `default`: the default function applied to the owning section. */
    function Default(): Value
      reads this`section
    {
      defaultF(section)
    }

    function Ephemeral(): bool
      reads this`section
    {
      FlagValue(ephemeral, name, section)
    }

    function Hidden(): bool
      reads this`section
    {
      FlagValue(hidden, name, section)
    }

    /** `persisted`: whether a config-file value is set. */
    function Persisted(): bool
      reads this`config
    {
      config.Some?
    }

    /** `value_cast_and_validate`: converts, then checks with the validator if
        there is one, else against the choices if there are any. */
    function CastAndValidate(v: Value): (r: Result<Value, ConfigError>)
      ensures r.Success? ==> Typify(valueType, v) == Success(r.value)
      ensures r.Success? && validate.Some? ==> validate.value(r.value) == Accept
      ensures r.Success? && validate.None? && choices != [] ==> InChoices(r.value, choices)
      ensures Typify(valueType, v).Failure? ==> r == Failure(Typify(valueType, v).error)
      ensures Typify(valueType, v).Success? && validate.Some? ==>
        (r.Success? <==> validate.value(Typify(valueType, v).value) == Accept)
      ensures Typify(valueType, v).Success? && validate.Some? && validate.value(Typify(valueType, v).value).Raise? ==>
        r == Failure(ValidatorRaised(validate.value(Typify(valueType, v).value).message))
      ensures Typify(valueType, v).Success? && validate.None? ==>
        (r.Success? <==> choices == [] || InChoices(Typify(valueType, v).value, choices))
      ensures r.Failure? && r.error.InvalidValue? ==>
        r.error.setting == name && r.error.choices == (if validate.Some? then [] else choices)
    {
      var t :- Typify(valueType, v);
      if validate.Some? then
        match validate.value(t)
        case Accept => Success(t)
        case Reject => Failure(InvalidValue(name, t, []))
        case Raise(m) => Failure(ValidatorRaised(m))
      else if choices != [] && !InChoices(t, choices) then Failure(InvalidValue(name, t, choices))
      else Success(t)
    }

    /** `value`: the first source that has one, in order of precedence. A
        setting without a section cannot read the environment and raises. */
    function Value(env: map<string, string>): (r: Result<Value, ConfigError>)
      reads this
      ensures forced.Some? ==> r == Success(forced.value)
      ensures forced.None? && cliarg.Some? ==> r == Success(cliarg.value)
      ensures forced.None? && cliarg.None? && section.None? ==> r == Failure(NoSection(name))
      ensures forced.None? && cliarg.None? && section.Some? && EnvName(section.value, name) in env ==>
        r == CastAndValidate(VStr(env[EnvName(section.value, name)]))
      ensures forced.None? && cliarg.None? && section.Some? && EnvName(section.value, name) !in env ==>
        r == Success(if config.Some? then config.value else Default())
    {
      if forced.Some? then Success(forced.value)
      else if cliarg.Some? then Success(cliarg.value)
      else if section.None? then Failure(NoSection(name))
      else
        var key := EnvName(section.value, name);
        if key in env then CastAndValidate(VStr(env[key]))
        else if config.Some? then Success(config.value)
        else Success(Default())
    }

    /** What the `value` setter stores: the validated value, converted once
        more on the way into the config slot. */
    function Stored(v: Value): (r: Result<Value, ConfigError>)
      ensures r.Success? ==> CastAndValidate(v).Success? && Typify(valueType, CastAndValidate(v).value) == r
      ensures r.Success? && !valueType.Custom? ==> r == CastAndValidate(v)
      ensures CastAndValidate(v).Failure? ==> r == CastAndValidate(v)
    {
      var c :- CastAndValidate(v);
      if valueType.Custom? then Typify(valueType, c)
      else
        TypifyIdempotent(valueType, v);
        Typify(valueType, c)
    }

    /** The `value` setter: stores `Stored(v)` in the config slot and leaves the
        forced and command-line slots alone. */
    method SetValue(v: Value) returns (r: Result<(), ConfigError>)
      modifies this`config
      ensures r.Success? <==> Stored(v).Success?
      ensures r.Success? ==> config == Some(Stored(v).value)
      ensures r.Failure? ==> config == old(config) && r.error == Stored(v).error
    {
      var c := CastAndValidate(v);
      if c.Failure? {
        return Failure(c.error);
      }
      var t := Typify(valueType, c.value);
      if t.Failure? {
        return Failure(t.error);
      }
      config := Some(t.value);
      return Success(());
    }

    /** The `value_from_forced` setter. */
    method SetForced(v: Value) returns (r: Result<(), ConfigError>)
      modifies this`forced
      ensures r.Success? <==> Typify(valueType, v).Success?
      ensures r.Success? ==> forced == Some(Typify(valueType, v).value)
      ensures r.Failure? ==> forced == old(forced)
    {
      var t := Typify(valueType, v);
      if t.Failure? {
        return Failure(t.error);
      }
      forced := Some(t.value);
      return Success(());
    }

    /** The `value_from_cliarg` setter. */
    method SetCliarg(v: Value) returns (r: Result<(), ConfigError>)
      modifies this`cliarg
      ensures r.Success? <==> Typify(valueType, v).Success?
      ensures r.Success? ==> cliarg == Some(Typify(valueType, v).value)
      ensures r.Failure? ==> cliarg == old(cliarg)
    {
      var t := Typify(valueType, v);
      if t.Failure? {
        return Failure(t.error);
      }
      cliarg := Some(t.value);
      return Success(());
    }

    /** The `value_from_config` setter: converts but does not validate. */
    method SetConfig(v: Value) returns (r: Result<(), ConfigError>)
      modifies this`config
      ensures r.Success? <==> Typify(valueType, v).Success?
      ensures r.Success? ==> config == Some(Typify(valueType, v).value)
      ensures r.Failure? ==> config == old(config)
    {
      var t := Typify(valueType, v);
      if t.Failure? {
        return Failure(t.error);
      }
      config := Some(t.value);
      return Success(());
    }

    /** `forget_config_value`: drops the config value if there is one. */
    method ForgetConfigValue()
      modifies this`config
      ensures config.None? && !Persisted()
    {
      config := None;
    }
  }

  /** With nothing forced, passed on the command line or in the environment, a
      setting reads back what the value setter stored; for a built-in value
      type that is exactly the validated value. */
  lemma StoredValueReadBack(k: KeyChainedValue, v: Value, env: map<string, string>)
    requires k.forced.None? && k.cliarg.None? && k.section.Some? && EnvName(k.section.value, k.name) !in env
    requires k.Stored(v).Success? && k.config == Some(k.Stored(v).value)
    ensures k.Value(env) == k.Stored(v)
    ensures !k.valueType.Custom? ==> k.Value(env) == k.CastAndValidate(v)
  {
  }

  /** A callable `ephemeral` or `hidden` flag reads false while the setting
      has no section, whatever it would answer inside one. */
  lemma ComputedFlagOffOutsideSection(test: (string, seq<string>) -> bool, name: string, path: seq<string>)
    ensures !FlagValue(Computed(test), name, None)
    ensures FlagValue(Computed(test), name, Some(path)) == test(name, path)
  {
  }

  /** A root-level setting reads `DOB__<NAME>`; a nested one joins the section
      names, e.g. `DOB_DB_ENGINE` for `engine` in section `db`. */
  lemma EnvNames()
    ensures EnvName([], "tz_aware") == "DOB__TZ_AWARE"
    ensures EnvName(["db"], "engine") == "DOB_DB_ENGINE"
  {
  }
}
