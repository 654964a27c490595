/**
  The required-plugin tracker: the configured names (`required`), the
  lower-cased names of those that are absent or disabled (`missing`), the
  lifecycle handlers that keep `missing` up to date, the login gate, the
  status listing, the text templates and the command dispatch.

  Host state that the Java code queries at call time is passed in:
  `pm` is the plugin manager at that moment, `file` the configuration
  document as `reloadConfig` loads it, and `order` the order in which the
  `HashSet` of required names is iterated (which the host decides).
 */
module RequiredPlugins {
  import opened JavaString
  import opened Sorting
  import opened Bukkit
  import opened Placeholders

  const REQUIRED_PATH: string := "required-plugins"
  const BYPASS_PERMISSION: string := "requiredplugins.bypassblock"
  const RELOAD_PERMISSION: string := "requiredplugins.command.reload"
  const LIST_PERMISSION: string := "requiredplugins.command.list"

  /** The names as a set: `new HashSet<>(getConfig().getStringList("required-plugins"))`. */
  function ConfiguredNames(file: Config): (r: set<string>)
    ensures forall n :: n in r <==> n in file.GetStringList(REQUIRED_PATH)
  {
    set n | n in file.GetStringList(REQUIRED_PATH)
  }

  function LowerSet(names: set<string>): set<string> {
    set n | n in names :: LowerString(n)
  }

  /** Only the empty set lower-cases to the empty set. */
  lemma LowerSetEmpty(names: set<string>)
    ensures LowerSet(names) == {} <==> names == {}
  {
    if names != {} {
      var n :| n in names;
      assert LowerString(n) in LowerSet(names);
    }
  }

  /** Lower-casing a union is the union of the lower-cased parts. */
  lemma LowerSetUnion(a: set<string>, b: set<string>)
    ensures LowerSet(a + b) == LowerSet(a) + LowerSet(b)
  {
    forall x | x in LowerSet(a + b)
      ensures x in LowerSet(a) + LowerSet(b)
    {
      var n :| n in a + b && LowerString(n) == x;
    }
  }

  /** The required names whose plugin is unknown or not enabled. */
  function AbsentOf(required: set<string>, pm: PluginManager): (r: set<string>)
    ensures forall n :: n in r <==> n in required && !IsEnabled(pm, n)
  {
    set n | n in required && !IsEnabled(pm, n)
  }

  /**
    The set `calculateMissing` builds: the lower-cased required names whose
    plugin is unknown or not enabled.
   */
  function MissingOf(required: set<string>, pm: PluginManager): (r: set<string>)
    ensures r <= LowerSet(required)
    ensures r == {} <==> forall n :: n in required ==> IsEnabled(pm, n)
  {
    var absent := AbsentOf(required, pm);
    LowerSetEmpty(absent);
    LowerSetUnion(absent, required - absent);
    assert absent + (required - absent) == required;
    LowerSet(absent)
  }

  /** Adding one required name adds its lower-cased form to the missing set exactly when its plugin is not enabled. */
  lemma MissingOfAdd(required: set<string>, name: string, pm: PluginManager)
    ensures MissingOf(required + {name}, pm) ==
      MissingOf(required, pm) + (if IsEnabled(pm, name) then {} else {LowerString(name)})
  {
    var extra: set<string> := if IsEnabled(pm, name) then {} else {name};
    var before, after := AbsentOf(required, pm), AbsentOf(required + {name}, pm);
    assert after == before + extra;
    LowerSetUnion(before, extra);
    assert LowerSet(extra) == if IsEnabled(pm, name) then {} else {LowerString(name)};
    assert MissingOf(required, pm) == LowerSet(before);
    assert MissingOf(required + {name}, pm) == LowerSet(after);
  }

  ghost predicate Distinct(s: seq<string>) {
    forall i, j :: 0 <= i < j < |s| ==> s[i] != s[j]
  }

  /** `order` lists every member of `names` exactly once, as iterating a `HashSet` does. */
  ghost predicate Enumerates(order: seq<string>, names: set<string>) {
    Distinct(order) && forall n :: n in order <==> n in names
  }

  /** The names `getPlugins(all)` keeps, in order: all of them, or those not present-and-enabled. */
  function Listed(all: bool, names: seq<string>, pm: PluginManager): (r: seq<string>)
    ensures all ==> r == names
    ensures forall n :: n in r <==> n in names && (all || !IsEnabled(pm, n))
  {
    if names == [] then []
    else if !all && IsEnabled(pm, names[0]) then Listed(all, names[1..], pm)
    else [names[0]] + Listed(all, names[1..], pm)
  }

  /** Keeping some of the names of a sorted sequence leaves it sorted. */
  lemma {:induction false} ListedSorted(all: bool, names: seq<string>, pm: PluginManager)
    requires SortedIgnoreCase(names)
    ensures SortedIgnoreCase(Listed(all, names, pm))
  {
    if names != [] {
      var rest := Listed(all, names[1..], pm);
      ListedSorted(all, names[1..], pm);
      if !(!all && IsEnabled(pm, names[0])) {
        forall j | 0 <= j < |rest|
          ensures CompareIgnoreCase(names[0], rest[j]) <= 0
        {
          assert rest[j] in rest;
          var k :| 0 <= k < |names[1..]| && names[1..][k] == rest[j];
          assert names[k + 1] == rest[j];
        }
        assert Listed(all, names, pm) == [names[0]] + rest;
      }
    }
  }

  /** Keeping some of the names of a duplicate-free sequence leaves it duplicate-free. */
  lemma {:induction false} ListedDistinct(all: bool, names: seq<string>, pm: PluginManager)
    requires Distinct(names)
    ensures Distinct(Listed(all, names, pm))
  {
    if names != [] {
      var rest := Listed(all, names[1..], pm);
      ListedDistinct(all, names[1..], pm);
      if !(!all && IsEnabled(pm, names[0])) {
        assert names[0] !in names[1..];
        assert Listed(all, names, pm) == [names[0]] + rest;
      }
    }
  }

  /**
    One entry of the listing: red and the configured name for an unknown
    plugin, otherwise green (enabled) or yellow (disabled) and the name the
    plugin declares.
   */
  function Label(name: string, pm: PluginManager): (r: string)
    ensures StartsWith(r, GREEN) <==> IsEnabled(pm, name)
    ensures StartsWith(r, YELLOW) <==> name in pm && !pm[name].enabled
    ensures StartsWith(r, RED) <==> name !in pm
    ensures |r| >= 2 && r[2..] == (if name in pm then pm[name].name else name)
  {
    match GetPlugin(pm, name)
    case None => RED + name
    case Some(p) => (if p.enabled then GREEN else YELLOW) + p.name
  }

  function Labels(names: seq<string>, pm: PluginManager): (r: seq<string>)
    ensures |r| == |names|
    ensures forall i :: 0 <= i < |names| ==> r[i] == Label(names[i], pm)
  {
    if names == [] then [] else [Label(names[0], pm)] + Labels(names[1..], pm)
  }

  /** How many entries are styled as missing (red or yellow, not green). */
  function MissingStyled(labels: seq<string>): nat {
    if labels == [] then 0
    else (if StartsWith(labels[0], GREEN) then 0 else 1) + MissingStyled(labels[1..])
  }

  /** The missing-styled entries of the full listing are exactly the entries of the short one. */
  lemma {:induction false} MissingStyledIsListedMissing(names: seq<string>, pm: PluginManager)
    ensures MissingStyled(Labels(names, pm)) == |Listed(false, names, pm)|
  {
    if names != [] {
      MissingStyledIsListedMissing(names[1..], pm);
      assert Labels(names, pm)[1..] == Labels(names[1..], pm);
    }
  }

  /**
    `Collectors.joining(sep)`: the result begins with the first part, and
    holds no `%` when neither the parts nor the separator do.
   */
  function Join(parts: seq<string>, sep: string): (r: string)
    ensures parts != [] ==> parts[0] <= r
    ensures Plain(sep) && (forall i :: 0 <= i < |parts| ==> Plain(parts[i])) ==> Plain(r)
  {
    if parts == [] then ""
    else if |parts| == 1 then parts[0]
    else
      var rest := Join(parts[1..], sep);
      assert forall i :: 1 <= i < |parts| ==> parts[1..][i - 1] == parts[i];
      assert parts[0] + sep + rest == parts[0] + (sep + rest);
      parts[0] + sep + rest
  }

  /** Joining non-empty parts gives the empty string only when there are no parts. */
  lemma {:induction false} JoinEmpty(parts: seq<string>, sep: string)
    requires forall i :: 0 <= i < |parts| ==> |parts[i]| > 0
    ensures Join(parts, sep) == "" <==> parts == []
  {
    if |parts| > 1 {
      assert |parts[0] + sep + Join(parts[1..], sep)| >= |parts[0]|;
    }
  }

  /** Every required name, and the name its plugin declares, is free of `%`. */
  ghost predicate NamesPlain(required: set<string>, pm: PluginManager) {
    forall n :: n in required ==> Plain(n) && (n in pm ==> Plain(pm[n].name))
  }

  /** An entry of a `%`-free name is `%`-free and begins with a colour code. */
  lemma LabelPlain(name: string, pm: PluginManager)
    requires Plain(name) && (name in pm ==> Plain(pm[name].name))
    ensures Plain(Label(name, pm)) && |Label(name, pm)| > 0 && Label(name, pm)[0] == COLOR_CHAR
  {
    var r := Label(name, pm);
    assert r == r[..2] + r[2..];
    assert r[..2] in {GREEN, YELLOW, RED};
  }

  /** Which branch `onCommand` takes. */
  datatype Branch = ReloadBranch | ListBranch | VersionBranch

  /**
    `reload` and `list` (any case) run only for a sender holding the matching
    permission; everything else falls through to the version reply.
   */
  function SelectBranch(sender: Permissible, args: seq<string>): (b: Branch)
    ensures b == ReloadBranch <==>
      |args| > 0 && EqualsIgnoreCase("reload", args[0]) && sender.HasPermission(RELOAD_PERMISSION)
    ensures b == ListBranch <==>
      |args| > 0 && EqualsIgnoreCase("list", args[0]) && sender.HasPermission(LIST_PERMISSION)
  {
    if |args| > 0 && EqualsIgnoreCase("reload", args[0]) && sender.HasPermission(RELOAD_PERMISSION) then
      ReloadBranch
    else if |args| > 0 && EqualsIgnoreCase("list", args[0]) && sender.HasPermission(LIST_PERMISSION) then
      ListBranch
    else
      VersionBranch
  }

  class RequiredPlugins {
    var config: Config
    var required: set<string>
    var missing: set<string>

    /**
      `required` holds the configured names, and `missing` only lower-cased
      forms of them.
     */
    ghost predicate Valid()
      reads this
    {
      required == ConfiguredNames(config) && missing <= LowerSet(required)
    }

    /** `onEnable`: load the configuration and compute the missing set. */
    constructor (file: Config, pm: PluginManager)
      ensures Valid()
      ensures config == file && required == ConfiguredNames(file)
      ensures missing == MissingOf(required, pm)
    {
      config, required, missing := file, {}, {};
      new;
      LoadConfig(file, pm);
    }

    /** `loadConfig`: take the configured names as a set, then recompute `missing`. */
    method LoadConfig(file: Config, pm: PluginManager)
      modifies this
      ensures Valid()
      ensures config == file && required == ConfiguredNames(file)
      ensures missing == MissingOf(required, pm)
    {
      config := file;
      required := ConfiguredNames(file);
      CalculateMissing(pm);
    }

    /** `calculateMissing`: rebuild `missing` from what the plugin manager reports now. */
    method CalculateMissing(pm: PluginManager)
      requires required == ConfiguredNames(config)
      modifies this`missing
      ensures Valid()
      ensures missing == MissingOf(required, pm)
    {
      missing := MissingOf(required, pm);
    }

    /** `onPluginEnable`: the lower-cased name leaves `missing`, whether it was there or not. */
    method OnPluginEnable(name: string)
      requires Valid()
      modifies this`missing
      ensures Valid()
      ensures missing == old(missing) - {LowerString(name)}
    {
      missing := missing - {LowerString(name)};
    }

    /**
      `onPluginDisable`: the lower-cased name joins `missing` only when the
      name as the plugin declares it is, with the same case, a configured name.
     */
    method OnPluginDisable(name: string)
      requires Valid()
      modifies this`missing
      ensures Valid()
      ensures name in required ==> missing == old(missing) + {LowerString(name)}
      ensures name !in required ==> missing == old(missing)
    {
      if name in required {
        missing := missing + {LowerString(name)};
      }
    }

    /**
      The required names `getPlugins(all)` lists, in listing order: sorted
      ignoring case, each at most once, and either every required name or
      exactly those whose plugin is not present-and-enabled.
     */
    function Shown(all: bool, pm: PluginManager, order: seq<string>): (r: seq<string>)
      reads this
      requires Enumerates(order, required)
      ensures SortedIgnoreCase(r) && Distinct(r)
      ensures forall n :: n in r <==> n in required && (all || !IsEnabled(pm, n))
      ensures all ==> |r| == |required|
    {
      var sorted := SortIgnoreCase(order);
      SortIgnoreCaseSorted(order);
      PermutationDistinct(order, sorted);
      ListedSorted(all, sorted, pm);
      ListedDistinct(all, sorted, pm);
      assert forall n :: n in sorted <==> n in multiset(sorted);
      assert forall n :: n in order <==> n in multiset(order);
      DistinctCard(order);
      assert (set n | n in order) == required;
      assert |sorted| == |multiset(sorted)| == |multiset(order)| == |order|;
      Listed(all, sorted, pm)
    }

    /**
      `getPlugins(all)`: the labelled entries of `Shown`, joined with grey
      commas; empty exactly when nothing is shown.
     */
    function GetPlugins(all: bool, pm: PluginManager, order: seq<string>): (r: string)
      reads this
      requires Enumerates(order, required)
      ensures r == "" <==> Shown(all, pm, order) == []
    {
      var labels := Labels(Shown(all, pm, order), pm);
      JoinEmpty(labels, GRAY + ", ");
      Join(labels, GRAY + ", ")
    }

    /**
      `getText(key)`: the configured text, or a fallback naming the key, with
      its placeholders filled in. A key with no text and no `%` gives the
      fallback as it is.
     */
    function GetText(key: string, pm: PluginManager, order: seq<string>): (r: string)
      reads this
      requires Enumerates(order, required)
      ensures "texts." + key !in config.strings && Plain(key) ==> r == "Unknown text " + key
    {
      var text := config.GetString("texts." + key, "Unknown text " + key);
      assert Plain("Unknown text ");
      SubstitutePlainText(text, GetPlugins(true, pm, order), GetPlugins(false, pm, order), |missing|, |required|);
      Substitute(text, GetPlugins(true, pm, order), GetPlugins(false, pm, order), |missing|, |required|)
    }

    /**
      `onPlayerLogin`: with nothing missing the event is left alone; a player
      with the bypass permission gets in and is sent the "join" text on the
      next tick (returned here as the key of that deferred notice); anyone
      else is kicked with the "kick" text.
     */
    method OnPlayerLogin(event: PlayerLoginEvent, pm: PluginManager, order: seq<string>)
      returns (deferred: Option<string>)
      requires Enumerates(order, required)
      modifies event
      ensures missing == {} ==> deferred == None && unchanged(event)
      ensures missing != {} && event.player.HasPermission(BYPASS_PERMISSION) ==>
        deferred == Some("join") && unchanged(event)
      ensures missing != {} && !event.player.HasPermission(BYPASS_PERMISSION) ==>
        deferred == None && event.result == KickOther && event.kickMessage == GetText("kick", pm, order)
    {
      deferred := None;
      if |missing| > 0 {
        if event.player.HasPermission(BYPASS_PERMISSION) {
          deferred := Some("join");
        } else {
          event.result := KickOther;
          event.kickMessage := GetText("kick", pm, order);
        }
      }
    }

    /** `onServerLoaded`: recompute `missing`, and warn with the short listing if it is not empty. */
    method OnServerLoaded(pm: PluginManager, order: seq<string>) returns (warning: Option<string>)
      requires Valid() && Enumerates(order, required)
      modifies this`missing
      ensures Valid()
      ensures missing == MissingOf(required, pm)
      ensures missing == {} ==> warning == None
      ensures missing != {} ==>
        warning == Some("Not all required plugins are loaded: " + GetPlugins(false, pm, order))
    {
      CalculateMissing(pm);
      warning := None;
      if |missing| > 0 {
        warning := Some("Not all required plugins are loaded: " + GetPlugins(false, pm, order));
      }
    }

    /**
      `onCommand`: reload, list, or reply with the plugin's name and version;
      only the last leaves the command unhandled. `file` is the configuration
      document as a reload would read it.
     */
    method OnCommand(sender: Permissible, args: seq<string>, file: Config, pm: PluginManager,
                     order: seq<string>, pluginName: string, version: string)
      returns (handled: bool, replies: seq<string>)
      requires Valid() && Enumerates(order, required)
      modifies this
      ensures Valid()
      ensures handled <==> SelectBranch(sender, args) != VersionBranch
      ensures SelectBranch(sender, args) == ReloadBranch ==>
        config == file && required == ConfiguredNames(file) && missing == MissingOf(required, pm)
        && replies == [YELLOW + "Config reloaded!"]
      ensures SelectBranch(sender, args) == ListBranch ==>
        unchanged(this)
        && replies == [RED + "Required Plugins:", GetPlugins(true, pm, order),
                       YELLOW + NatToString(|missing|) + RED + "/" + NatToString(|required|) + " missing."]
      ensures SelectBranch(sender, args) == VersionBranch ==>
        unchanged(this) && replies == [RED + pluginName + " " + YELLOW + version]
    {
      var branch := SelectBranch(sender, args);
      if branch == ReloadBranch {
        LoadConfig(file, pm);
        return true, [YELLOW + "Config reloaded!"];
      } else if branch == ListBranch {
        replies := [RED + "Required Plugins:", GetPlugins(true, pm, order),
                    YELLOW + NatToString(|missing|) + RED + "/" + NatToString(|required|) + " missing."];
        return true, replies;
      }
      return false, [RED + pluginName + " " + YELLOW + version];
    }
  }

  /** A permutation of a duplicate-free sequence is duplicate-free. */
  lemma PermutationDistinct(a: seq<string>, b: seq<string>)
    requires Distinct(a) && multiset(a) == multiset(b)
    ensures Distinct(b)
  {
    DistinctCounts(a);
    forall i, j | 0 <= i < j < |b|
      ensures b[i] != b[j]
    {
      if b[i] == b[j] {
        RepeatedCount(b, i, j);
      }
    }
  }

  /** In a duplicate-free sequence nothing occurs twice. */
  lemma {:induction false} DistinctCounts(s: seq<string>)
    requires Distinct(s)
    ensures forall x :: multiset(s)[x] <= 1
  {
    if s != [] {
      DistinctCounts(s[1..]);
      assert s == [s[0]] + s[1..];
      assert s[0] !in s[1..];
    }
  }

  /** Two equal entries make their value occur at least twice. */
  lemma RepeatedCount(s: seq<string>, i: int, j: int)
    requires 0 <= i < j < |s| && s[i] == s[j]
    ensures multiset(s)[s[i]] >= 2
  {
    assert s == s[..j] + s[j..];
    assert s[i] in s[..j];
    assert s[j] == s[j..][0];
  }

  /** A duplicate-free sequence has as many entries as its set of entries. */
  lemma {:induction false} DistinctCard(s: seq<string>)
    requires Distinct(s)
    ensures |set n | n in s| == |s|
  {
    if s != [] {
      DistinctCard(s[1..]);
      assert (set n | n in s) == {s[0]} + (set n | n in s[1..]);
      assert s[0] !in s[1..];
    }
  }

  /** No two distinct names in `names` lower-case to the same string. */
  ghost predicate LowerInjective(names: set<string>) {
    forall a, b :: a in names && b in names && LowerString(a) == LowerString(b) ==> a == b
  }

  /** Lower-casing a set on which it is injective keeps its size. */
  lemma {:induction false} LowerSetCard(names: set<string>)
    requires LowerInjective(names)
    ensures |LowerSet(names)| == |names|
    decreases |names|
  {
    if names != {} {
      var x :| x in names;
      var rest := names - {x};
      LowerSetCard(rest);
      assert LowerSet(names) == LowerSet(rest) + {LowerString(x)};
      assert LowerString(x) !in LowerSet(rest);
    }
  }

  /**
    When `missing` is in step with the plugin manager and no two required
    names differ only in case, the full listing styles exactly `|missing|`
    entries as missing, and the short listing has exactly `|missing|` entries.
   */
  lemma MissingStyledCount(rp: RequiredPlugins, pm: PluginManager, order: seq<string>)
    requires Enumerates(order, rp.required)
    requires rp.missing == MissingOf(rp.required, pm)
    requires LowerInjective(rp.required)
    ensures |rp.Shown(false, pm, order)| == |rp.missing|
    ensures MissingStyled(Labels(rp.Shown(true, pm, order), pm)) == |rp.missing|
  {
    var short := rp.Shown(false, pm, order);
    var absent := AbsentOf(rp.required, pm);
    assert (set n | n in short) == absent;
    DistinctCard(short);
    LowerSetCard(absent);
    var sorted := SortIgnoreCase(order);
    MissingStyledIsListedMissing(sorted, pm);
  }

  /**
    The invariant alone keeps a tracker with no required names from ever
    recording a missing plugin, whichever events it has seen.
   */
  lemma NoRequiredNoMissing(rp: RequiredPlugins)
    requires rp.Valid() && rp.required == {}
    ensures rp.missing == {}
  {
    LowerSetEmpty(rp.required);
  }

  /**
    The short listing (the one the load-time warning shows) is empty exactly
    when every required plugin is present and enabled.
   */
  lemma ShortListingEmpty(rp: RequiredPlugins, pm: PluginManager, order: seq<string>)
    requires Enumerates(order, rp.required)
    ensures rp.GetPlugins(false, pm, order) == "" <==> MissingOf(rp.required, pm) == {}
  {
    var shown := rp.Shown(false, pm, order);
    var labels := Labels(shown, pm);
    JoinEmpty(labels, GRAY + ", ");
    if shown != [] {
      assert shown[0] in shown;
    }
  }

  /**
    With `%`-free names, each listing is text no placeholder name can be
    read into: empty, or starting with a colour code.
   */
  lemma GetPluginsSeparating(rp: RequiredPlugins, all: bool, pm: PluginManager, order: seq<string>)
    requires Enumerates(order, rp.required) && NamesPlain(rp.required, pm)
    ensures Separating(rp.GetPlugins(all, pm, order))
    ensures rp.GetPlugins(all, pm, order) != "" ==> rp.GetPlugins(all, pm, order)[0] == COLOR_CHAR
  {
    var shown := rp.Shown(all, pm, order);
    var labels := Labels(shown, pm);
    var sep := GRAY + ", ";
    forall i | 0 <= i < |labels|
      ensures Plain(labels[i]) && |labels[i]| > 0 && labels[i][0] == COLOR_CHAR
    {
      assert shown[i] in shown;
      LabelPlain(shown[i], pm);
    }
    assert Plain(sep);
    var r := Join(labels, sep);
    if labels != [] {
      assert labels[0] <= r;
      assert r[0] == COLOR_CHAR && r[0] in r;
    }
  }

  /**
    The general `getText` result: a configured text that is a well-formed
    template renders as that template with `%plugins%` and `%missing%`
    replaced by the two listings and `%missingsize%` and `%requiredsize%`
    by the two counts in decimal. Templates naming a listing need `%`-free
    plugin names.
   */
  lemma GetTextTemplate(rp: RequiredPlugins, key: string, t: Template, pm: PluginManager, order: seq<string>)
    requires Enumerates(order, rp.required)
    requires "texts." + key in rp.config.strings && rp.config.strings["texts." + key] == Render(t)
    requires WellFormed(t)
    requires PluginsKey in Keys(t.slots) || MissingKey in Keys(t.slots) ==> NamesPlain(rp.required, pm)
    ensures rp.GetText(key, pm, order)
         == Expand(t, Values(rp.GetPlugins(true, pm, order), rp.GetPlugins(false, pm, order),
                             NatToString(|rp.missing|), NatToString(|rp.required|)))
  {
    if PluginsKey in Keys(t.slots) || MissingKey in Keys(t.slots) {
      GetPluginsSeparating(rp, true, pm, order);
      GetPluginsSeparating(rp, false, pm, order);
    }
    SubstituteTemplate(t, rp.GetPlugins(true, pm, order), rp.GetPlugins(false, pm, order),
      |rp.missing|, |rp.required|);
  }

  /** `%missingsize%` anywhere in a `%`-free text renders as `|missing|` in decimal. */
  lemma GetTextMissingSize(rp: RequiredPlugins, key: string, before: string, after: string,
                           pm: PluginManager, order: seq<string>)
    requires Enumerates(order, rp.required)
    requires Plain(before) && Plain(after)
    requires "texts." + key in rp.config.strings
    requires rp.config.strings["texts." + key] == before + Placeholder(MissingSizeKey) + after
    ensures rp.GetText(key, pm, order) == before + NatToString(|rp.missing|) + after
  {
    SubstituteMissingSize(before, after, rp.GetPlugins(true, pm, order), rp.GetPlugins(false, pm, order),
      |rp.missing|, |rp.required|);
  }

  /** `%requiredsize%` anywhere in a `%`-free text renders as `|required|` in decimal. */
  lemma GetTextRequiredSize(rp: RequiredPlugins, key: string, before: string, after: string,
                            pm: PluginManager, order: seq<string>)
    requires Enumerates(order, rp.required)
    requires Plain(before) && Plain(after)
    requires "texts." + key in rp.config.strings
    requires rp.config.strings["texts." + key] == before + Placeholder(RequiredSizeKey) + after
    ensures rp.GetText(key, pm, order) == before + NatToString(|rp.required|) + after
  {
    SubstituteRequiredSize(before, after, rp.GetPlugins(true, pm, order), rp.GetPlugins(false, pm, order),
      |rp.missing|, |rp.required|);
  }

  /** Both counts in one text, separated by text no placeholder name can be read into. */
  lemma GetTextCounts(rp: RequiredPlugins, key: string, before: string, between: string, after: string,
                      pm: PluginManager, order: seq<string>)
    requires Enumerates(order, rp.required)
    requires Plain(before) && Separating(between) && Plain(after)
    requires "texts." + key in rp.config.strings
    requires rp.config.strings["texts." + key]
          == before + Placeholder(MissingSizeKey) + between + Placeholder(RequiredSizeKey) + after
    ensures rp.GetText(key, pm, order)
         == before + NatToString(|rp.missing|) + between + NatToString(|rp.required|) + after
  {
    SubstituteCounts(before, between, after, rp.GetPlugins(true, pm, order), rp.GetPlugins(false, pm, order),
      |rp.missing|, |rp.required|);
  }
}
