/**
  The parts of the game-server host that the plugin reads or writes: the
  plugin manager, permissions, the player-login event, the chat colour
  codes and the configuration document. Only their observable values are
  modelled; the host's own behaviour lies outside this model.
 */
module Bukkit {

  datatype Option<T> = None | Some(value: T)

  /** A loaded plugin as the plugin manager reports it: its declared name and whether it is enabled. */
  datatype Plugin = Plugin(name: string, enabled: bool)

  /**
    The plugin manager at one moment: what `getPlugin(name)` answers for
    each lookup name. A name that is not a key is an unknown plugin (`null`).
   */
  type PluginManager = map<string, Plugin>

  function GetPlugin(pm: PluginManager, name: string): (r: Option<Plugin>)
    ensures r.Some? <==> name in pm
    ensures r.Some? ==> r.value == pm[name]
  {
    if name in pm then Some(pm[name]) else None
  }

  /** `p != null && p.isEnabled()` for `p = getPlugin(name)`. */
  predicate IsEnabled(pm: PluginManager, name: string) {
    name in pm && pm[name].enabled
  }

  /** A player or command sender, seen only through the permissions granted to it. */
  datatype Permissible = Permissible(granted: set<string>) {
    predicate HasPermission(permission: string) {
      permission in granted
    }
  }

  /** `PlayerLoginEvent.Result`. */
  datatype LoginResult = Allowed | KickFull | KickBanned | KickWhitelist | KickOther

  /** The login event handed to listeners; they may change its result and kick message. */
  class PlayerLoginEvent {
    const player: Permissible
    var result: LoginResult
    var kickMessage: string

    constructor (player: Permissible, result: LoginResult, kickMessage: string)
      ensures this.player == player && this.result == result && this.kickMessage == kickMessage
    {
      this.player := player;
      this.result := result;
      this.kickMessage := kickMessage;
    }
  }

  /** The formatting-code prefix character, U+00A7 (section sign). */
  const COLOR_CHAR: char := '\U{00A7}'

  /** `ChatColor` values as the strings they print as: the prefix character and a code. */
  const RED: string := [COLOR_CHAR, 'c']
  const GREEN: string := [COLOR_CHAR, 'a']
  const YELLOW: string := [COLOR_CHAR, 'e']
  const GRAY: string := [COLOR_CHAR, '7']

  /**
    The loaded configuration document: the string-list entries and the
    string entries, each keyed by its dotted path.
   */
  datatype Config = Config(lists: map<string, seq<string>>, strings: map<string, string>) {
    /** `getStringList(path)`: the list, or an empty list when the path is not set. */
    function GetStringList(path: string): (r: seq<string>)
      ensures path !in lists ==> r == []
      ensures path in lists ==> r == lists[path]
    {
      if path in lists then lists[path] else []
    }

    /** `getString(path, def)`: the string, or `def` when the path is not set. */
    function GetString(path: string, def: string): (r: string)
      ensures path !in strings ==> r == def
      ensures path in strings ==> r == strings[path]
    {
      if path in strings then strings[path] else def
    }
  }
}
