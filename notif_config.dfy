/**
 * The notification settings file `config.json` in the notifications directory
 * (Ax-Shell/modules/notifications.py, `load_config`, `save_config`, the two app-list getters and
 * the do-not-disturb switch). The file is a value of type `ConfigFile`; the JSON decoder and the
 * disk are not modelled.
 */
module NotifConfig {
  import opened Wrappers

  /** A JSON value stored under a key, as far as the shell distinguishes them. */
  datatype ConfigValue =
    | Names(names: seq<string>)   // a list of application names
    | Flag(flag: bool)            // a boolean
    | Other(truthy: bool)         // any other JSON value, with its Python truthiness

  type Config = map<string, ConfigValue>

  /** What `CONFIG_FILE` holds: nothing, text that is not a JSON object, or a JSON object. */
  datatype ConfigFile = Missing | Unreadable | Stored(content: Config)

  const LimitedAppsKey := "limited_apps_history"
  const IgnoredAppsKey := "history_ignored_apps"
  const DoNotDisturbKey := "do_not_disturb_enabled"

  /** `default_config`: no limited apps, and the empty application name ignored. */
  function DefaultConfig(): Config {
    map[LimitedAppsKey := Names([]), IgnoredAppsKey := Names([""])]
  }

  /**
   * `load_config()`: a stored object with every missing default key filled in; the defaults
   * when the file is missing or cannot be read.
   */
  function LoadConfig(f: ConfigFile): (c: Config)
    ensures LimitedAppsKey in c && IgnoredAppsKey in c
    ensures f.Stored? ==> forall k :: k in f.content ==> k in c && c[k] == f.content[k]
    ensures forall k :: k in c && !(f.Stored? && k in f.content) ==> k in DefaultConfig() && c[k] == DefaultConfig()[k]
  {
    match f
    case Stored(content) => DefaultConfig() + content
    case _ => DefaultConfig()
  }

  /** `config.get(key, default)`. */
  function Get(c: Config, key: string, default: ConfigValue): ConfigValue {
    if key in c then c[key] else default
  }

  /** The names held by a list value; any other value holds none. */
  function NamesOf(v: ConfigValue): seq<string> {
    if v.Names? then v.names else []
  }

  /** Python truthiness of a stored value. */
  function Truthy(v: ConfigValue): bool {
    match v
    case Names(ns) => ns != []
    case Flag(b) => b
    case Other(t) => t
  }

  /**
   * `get_limited_apps_history()`: the stored list, or no app when the file stores none (the
   * loaded defaults always hold the key).
   */
  function LimitedApps(f: ConfigFile): (r: seq<string>)
    ensures r == if f.Stored? && LimitedAppsKey in f.content then NamesOf(f.content[LimitedAppsKey]) else []
  {
    NamesOf(Get(LoadConfig(f), LimitedAppsKey, Names(["Spotify"])))
  }

  /** `get_history_ignored_apps()`: the stored list, or only the empty name when none is stored. */
  function IgnoredApps(f: ConfigFile): (r: seq<string>)
    ensures r == if f.Stored? && IgnoredAppsKey in f.content then NamesOf(f.content[IgnoredAppsKey]) else [""]
  {
    NamesOf(Get(LoadConfig(f), IgnoredAppsKey, Names(["Hyprshot"])))
  }

  /**
   * The do-not-disturb setting read when the history panel is built: on only when the file
   * stores a truthy value under the key.
   */
  function DoNotDisturb(f: ConfigFile): (r: bool)
    ensures r <==> f.Stored? && DoNotDisturbKey in f.content && Truthy(f.content[DoNotDisturbKey])
  {
    Truthy(Get(LoadConfig(f), DoNotDisturbKey, Flag(false)))
  }

  /**
   * The fallbacks of the two getters are never used: "Spotify" is limited and "Hyprshot" ignored
   * only when the file itself stores them.
   */
  lemma AppListsNeverFallBack(f: ConfigFile)
    ensures "Spotify" in LimitedApps(f) ==> f.Stored? && LimitedAppsKey in f.content
    ensures "Hyprshot" in IgnoredApps(f) ==> f.Stored? && IgnoredAppsKey in f.content
  {
  }

  /** The file `on_do_not_disturb_changed` writes back: the loaded settings with the switch set. */
  function WithDoNotDisturb(f: ConfigFile, enabled: bool): (g: ConfigFile)
    ensures g.Stored?
    ensures DoNotDisturb(g) == enabled
    ensures LimitedApps(g) == LimitedApps(f) && IgnoredApps(g) == IgnoredApps(f)
    ensures forall k :: k != DoNotDisturbKey && k in LoadConfig(f) ==> k in g.content && g.content[k] == LoadConfig(f)[k]
  {
    Stored(LoadConfig(f)[DoNotDisturbKey := Flag(enabled)])
  }

  /** The settings file on disk; `save_config` replaces its content. */
  class ConfigStore {
    var file: ConfigFile

    constructor(initial: ConfigFile)
      ensures file == initial
    {
      file := initial;
    }

    /** `load_config()`, change the switch, `save_config(config)`. */
    method SaveDoNotDisturb(enabled: bool)
      modifies this
      ensures file == WithDoNotDisturb(old(file), enabled)
    {
      var config := LoadConfig(file);
      config := config[DoNotDisturbKey := Flag(enabled)];
      file := Stored(config);
    }
  }
}
