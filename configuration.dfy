/**
 * Authsignal::Configuration: option values set by the application, read
 * back over a fixed set of defaults. A name that was never set reads its
 * default, and a name without a default reads nil.
 */
module Configuration {
  import opened Json

  /** A configuration name: the accessors use symbols, `[]` and `[]=` take any key. */
  datatype Key = Sym(name: string) | Str(name: string)

  /** The four options declared with config_option. */
  datatype ConfigOption = ApiSecretKey | ApiUrl | Debug | Retry

  const DefaultApiUrl: string := "https://signal.authsignal.com/v1/"

  /** The symbol each config_option accessor reads and writes. */
  function OptionKey(option: ConfigOption): (k: Key)
    ensures k.Sym?
  {
    match option
    case ApiSecretKey => Sym("api_secret_key")
    case ApiUrl => Sym("api_url")
    case Debug => Sym("debug")
    case Retry => Sym("retry")
  }

  /**
   * The defaults structure answers a message with its attribute of that
   * name, whether the name comes as a symbol or a string, and with nil for
   * any name it does not hold.
   */
  function Default(key: Key): (r: Json)
    ensures r != JNull <==> key.name in {"api_url", "retry", "debug"}
    ensures key.name == "api_url" ==> r == JString(DefaultApiUrl)
    ensures key.name == "retry" || key.name == "debug" ==> r == JBool(false)
  {
    if key.name == "api_url" then JString(DefaultApiUrl)
    else if key.name == "retry" then JBool(false)
    else if key.name == "debug" then JBool(false)
    else JNull
  }

  /** read_value over a snapshot of the stored values. */
  function Read(values: map<Key, Json>, key: Key): Json
  {
    if key in values then values[key] else Default(key)
  }

  class Configuration {
    var configValues: map<Key, Json>

    /** initialize: nothing stored yet, so every read falls through to the defaults. */
    constructor()
      ensures configValues == map[]
    {
      configValues := map[];
    }

    /** What read_value returns for key in the current state. */
    function ReadValue(key: Key): Json
      reads this
    {
      Read(configValues, key)
    }

    /** set_value: store value under key; nothing else changes. */
    method SetValue(key: Key, value: Json)
      modifies this
      ensures configValues == old(configValues)[key := value]
      ensures ReadValue(key) == value
      ensures forall k :: k != key ==> ReadValue(k) == old(ReadValue(k))
    {
      configValues := configValues[key := value];
    }

    /** `[]`: the stored value, or else the default. */
    method Get(key: Key) returns (value: Json)
      ensures key in configValues ==> value == configValues[key]
      ensures key !in configValues ==> value == Default(key)
    {
      value := Read(configValues, key);
    }

    /** `[]=`. */
    method Set(key: Key, value: Json)
      modifies this
      ensures configValues == old(configValues)[key := value]
    {
      SetValue(key, value);
    }

    /** The reader config_option defines for option. */
    method Option(option: ConfigOption) returns (value: Json)
      ensures value == ReadValue(OptionKey(option))
    {
      value := Read(configValues, OptionKey(option));
    }

    /** The writer config_option defines for option. */
    method SetOption(option: ConfigOption, value: Json)
      modifies this
      ensures configValues == old(configValues)[OptionKey(option) := value]
    {
      SetValue(OptionKey(option), value);
    }
  }

  /** A fresh configuration reads the documented defaults. */
  lemma FreshDefaults()
    ensures Read(map[], OptionKey(ApiUrl)) == JString("https://signal.authsignal.com/v1/")
    ensures Read(map[], OptionKey(Retry)) == JBool(false)
    ensures Read(map[], OptionKey(Debug)) == JBool(false)
    ensures Read(map[], OptionKey(ApiSecretKey)) == JNull
  {
  }

  /** The last write to a key is what reads return; other keys are untouched. */
  lemma ReadAfterWrite(values: map<Key, Json>, key: Key, value: Json, other: Key)
    ensures Read(values[key := value], key) == value
    ensures other != key ==> Read(values[key := value], other) == Read(values, other)
  {
  }

  /** Storing nil hides the default: the stored key is found, so its value is returned. */
  lemma StoredNilHidesDefault(values: map<Key, Json>, option: ConfigOption)
    ensures Read(values[OptionKey(option) := JNull], OptionKey(option)) == JNull
  {
  }

  /**
   * Values are stored under the key exactly as given, so a value set under
   * a symbol is not seen through the string of the same name, which still
   * reads the default.
   */
  lemma SymbolAndStringApart(values: map<Key, Json>, name: string, value: Json)
    requires Str(name) !in values
    ensures Read(values[Sym(name) := value], Str(name)) == Default(Str(name))
  {
  }
}
