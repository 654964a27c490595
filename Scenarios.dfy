/**
  Verified client methods that drive the tracker through concrete
  situations: what a caller can conclude from the contracts of
  `RequiredPlugins` alone.
 */
module Scenarios {
  import opened JavaString
  import opened Bukkit
  import opened RequiredPlugins
  import opened Placeholders

  function RequiredOnly(names: seq<string>): Config {
    Config(map[REQUIRED_PATH := names], map[])
  }

  lemma LowerVault()
    ensures LowerString("Vault") == "vault"
  {
  }

  lemma LowerWorldEdit()
    ensures LowerString("WorldEdit") == "worldedit"
  {
  }

  lemma TwoNames()
    ensures ConfiguredNames(RequiredOnly(["Vault", "WorldEdit"])) == {"Vault", "WorldEdit"}
  {
  }

  lemma OneName()
    ensures ConfiguredNames(RequiredOnly(["Vault"])) == {"Vault"}
  {
  }

  lemma EnumeratesTwo()
    ensures Enumerates(["Vault", "WorldEdit"], {"Vault", "WorldEdit"})
  {
  }

  lemma EnumeratesOne()
    ensures Enumerates(["Vault"], {"Vault"})
  {
  }

  lemma OnlyVaultEnabledParts(pm: PluginManager)
    requires IsEnabled(pm, "Vault") && !IsEnabled(pm, "WorldEdit")
    ensures MissingOf({"Vault"} + {"WorldEdit"}, pm) == {LowerString("WorldEdit")}
  {
    MissingOfAdd({"Vault"}, "WorldEdit", pm);
    assert MissingOf({"Vault"}, pm) == {};
  }

  /** Required `Vault` and `WorldEdit`, only the first enabled: `worldedit` alone is missing. */
  lemma OnlyWorldEditMissing(pm: PluginManager)
    requires IsEnabled(pm, "Vault") && !IsEnabled(pm, "WorldEdit")
    ensures MissingOf({"Vault", "WorldEdit"}, pm) == {"worldedit"}
  {
    OnlyVaultEnabledParts(pm);
    LowerWorldEdit();
    assert {"Vault"} + {"WorldEdit"} == {"Vault", "WorldEdit"};
  }

  /** With `Vault` enabled and `WorldEdit` unknown, only `worldedit` is missing. */
  method RecomputeScenario() returns (missing: set<string>)
    ensures missing == {"worldedit"}
  {
    var pm := map["Vault" := Plugin("Vault", true)];
    var rp := new RequiredPlugins(RequiredOnly(["Vault", "WorldEdit"]), pm);
    TwoNames();
    OnlyWorldEditMissing(pm);
    missing := rp.missing;
  }

  /**
    Enabling the plugin behind the only missing name empties `missing`, so
    the next login is left alone.
   */
  method EnableLastMissing(rp: RequiredPlugins, name: string, event: PlayerLoginEvent,
                           pm: PluginManager, order: seq<string>)
    returns (deferred: Option<string>)
    requires rp.Valid() && rp.missing == {LowerString(name)} && Enumerates(order, rp.required)
    modifies rp, event
    ensures rp.missing == {} && deferred == None
    ensures event.result == old(event.result) && event.kickMessage == old(event.kickMessage)
  {
    rp.OnPluginEnable(name);
    deferred := rp.OnPlayerLogin(event, pm, order);
  }

  /**
    With `Vault` configured, a disable event for `vault` is ignored because
    the configured names are compared with their case; one for `Vault` marks
    `vault` missing.
   */
  method DisableCaseScenario() returns (afterLower: set<string>, afterExact: set<string>)
    ensures afterLower == {} && afterExact == {"vault"}
  {
    var pm := map["Vault" := Plugin("Vault", true)];
    var rp := new RequiredPlugins(RequiredOnly(["Vault"]), pm);
    OneName();
    rp.OnPluginDisable("vault");
    afterLower := rp.missing;
    rp.OnPluginDisable("Vault");
    LowerVault();
    afterExact := rp.missing;
  }

  /**
    The consequence of that case-sensitive check: a plugin configured as
    `Vault` that declares itself `vault` is disabled, `missing` stays empty
    although a recomputation would find `vault` missing, and a player
    without the bypass permission still gets in.
   */
  method CaseMismatchLetsLoginThrough(event: PlayerLoginEvent) returns (recomputed: set<string>)
    requires !event.player.HasPermission(BYPASS_PERMISSION)
    modifies event
    ensures event.result == old(event.result) && recomputed == {"vault"}
  {
    var before := map["Vault" := Plugin("vault", true)];
    var rp := new RequiredPlugins(RequiredOnly(["Vault"]), before);
    OneName();
    DisableThenLogin(rp, event);
    recomputed := VaultRecomputed();
  }

  method DisableThenLogin(rp: RequiredPlugins, event: PlayerLoginEvent)
    requires rp.Valid() && rp.required == {"Vault"} && rp.missing == {}
    modifies rp, event
    ensures event.result == old(event.result)
  {
    rp.OnPluginDisable("vault");
    EnumeratesOne();
    var deferred := rp.OnPlayerLogin(event, map["Vault" := Plugin("vault", false)], ["Vault"]);
  }

  /** What a recomputation finds once the plugin behind `Vault` is disabled. */
  method VaultRecomputed() returns (recomputed: set<string>)
    ensures recomputed == {"vault"}
  {
    var after := map["Vault" := Plugin("vault", false)];
    MissingOfAdd({}, "Vault", after);
    LowerVault();
    assert {} + {"Vault"} == {"Vault"};
    recomputed := MissingOf({"Vault"}, after);
  }

  /** No configured names: the first login after loading is not touched, whatever the host reports. */
  method EmptyConfigNeverBlocks(pm: PluginManager, player: Permissible) returns (result: LoginResult, deferred: Option<string>)
    ensures result == Allowed && deferred == None
  {
    var rp := new RequiredPlugins(RequiredOnly([]), pm);
    var event := new PlayerLoginEvent(player, Allowed, "");
    deferred := rp.OnPlayerLogin(event, pm, []);
    result := event.result;
  }

  /**
    Any tracker that keeps its invariant and has no required names, after
    whatever events, lets every login through without a deferred notice.
   */
  method NoRequiredNeverBlocks(rp: RequiredPlugins, event: PlayerLoginEvent, pm: PluginManager)
    returns (deferred: Option<string>)
    requires rp.Valid() && rp.required == {}
    modifies event
    ensures deferred == None && unchanged(event)
  {
    NoRequiredNoMissing(rp);
    deferred := rp.OnPlayerLogin(event, pm, []);
  }

  /**
    A kick text such as `Missing %missingsize% of %requiredsize% plugins`:
    a player without the bypass permission is kicked with both counts
    filled in.
   */
  method KickWithCounts(rp: RequiredPlugins, event: PlayerLoginEvent, pm: PluginManager, order: seq<string>,
                        before: string, between: string, after: string)
    returns (deferred: Option<string>)
    requires rp.missing != {} && Enumerates(order, rp.required)
    requires Plain(before) && Separating(between) && Plain(after)
    requires "texts.kick" in rp.config.strings
    requires rp.config.strings["texts.kick"]
          == before + Placeholder(MissingSizeKey) + between + Placeholder(RequiredSizeKey) + after
    requires !event.player.HasPermission(BYPASS_PERMISSION)
    modifies event
    ensures event.result == KickOther && deferred == None
    ensures event.kickMessage == before + NatToString(|rp.missing|) + between + NatToString(|rp.required|) + after
  {
    assert "texts." + "kick" == "texts.kick";
    GetTextCounts(rp, "kick", before, between, after, pm, order);
    deferred := rp.OnPlayerLogin(event, pm, order);
  }

  lemma KickTextParts()
    ensures Plain("Missing ") && Separating(" of ") && Plain(" plugins")
  {
    assert ' ' in " of ";
  }

  lemma CountsPrinted()
    ensures NatToString(1) == "1" && NatToString(2) == "2"
  {
  }

  /** The configuration of `KickMessageScenario`: two required names and a kick text with both counts. */
  function CountingKickConfig(): Config {
    Config(map[REQUIRED_PATH := ["Vault", "WorldEdit"]],
           map["texts.kick" := "Missing " + Placeholder(MissingSizeKey) + " of " + Placeholder(RequiredSizeKey) + " plugins"])
  }

  /**
    One of two required plugins missing and the kick text
    `Missing %missingsize% of %requiredsize% plugins`: a player without the
    bypass permission is kicked with "Missing 1 of 2 plugins".
   */
  method KickMessageScenario() returns (result: LoginResult, message: string)
    ensures result == KickOther && message == "Missing " + "1" + " of " + "2" + " plugins"
  {
    var pm := map["Vault" := Plugin("Vault", true)];
    var rp := CountingKickTracker(pm);
    EnumeratesTwo();
    KickTextParts();
    var event := new PlayerLoginEvent(Permissible({}), Allowed, "");
    var deferred := KickWithCounts(rp, event, pm, ["Vault", "WorldEdit"], "Missing ", " of ", " plugins");
    assert |rp.missing| == 1 && |rp.required| == 2;
    CountsPrinted();
    result := event.result;
    message := event.kickMessage;
  }

  /** Loading `CountingKickConfig` with only `Vault` enabled. */
  method CountingKickTracker(pm: PluginManager) returns (rp: RequiredPlugins)
    requires pm == map["Vault" := Plugin("Vault", true)]
    ensures fresh(rp) && rp.config == CountingKickConfig()
    ensures rp.required == {"Vault", "WorldEdit"} && rp.missing == {"worldedit"}
  {
    var file := CountingKickConfig();
    assert file.lists == RequiredOnly(["Vault", "WorldEdit"]).lists;
    TwoNames();
    rp := new RequiredPlugins(file, pm);
    OnlyWorldEditMissing(pm);
  }

  /** The same situation for a player with the bypass permission: let in, join notice deferred. */
  method BypassScenario() returns (result: LoginResult, deferred: Option<string>)
    ensures result == Allowed && deferred == Some("join")
  {
    var pm := map["Vault" := Plugin("Vault", true)];
    var rp := new RequiredPlugins(RequiredOnly(["Vault", "WorldEdit"]), pm);
    TwoNames();
    OnlyWorldEditMissing(pm);
    var event := new PlayerLoginEvent(Permissible({BYPASS_PERMISSION}), Allowed, "");
    deferred := LoginWithBypass(rp, event, pm);
    result := event.result;
  }

  method LoginWithBypass(rp: RequiredPlugins, event: PlayerLoginEvent, pm: PluginManager)
    returns (deferred: Option<string>)
    requires rp.required == {"Vault", "WorldEdit"} && rp.missing != {}
    requires event.player.HasPermission(BYPASS_PERMISSION)
    modifies event
    ensures event.result == old(event.result) && deferred == Some("join")
  {
    EnumeratesTwo();
    deferred := rp.OnPlayerLogin(event, pm, ["Vault", "WorldEdit"]);
  }

  /** Sub-commands are matched ignoring case, and only with the matching permission. */
  lemma CommandScenarios()
    ensures SelectBranch(Permissible({RELOAD_PERMISSION}), ["ReLoAd"]) == ReloadBranch
    ensures SelectBranch(Permissible({RELOAD_PERMISSION}), ["list"]) == VersionBranch
    ensures SelectBranch(Permissible({LIST_PERMISSION}), ["LIST", "extra"]) == ListBranch
    ensures SelectBranch(Permissible({RELOAD_PERMISSION, LIST_PERMISSION}), []) == VersionBranch
  {
    assert LowerString("ReLoAd") == "reload";
    assert LowerString("LIST") == "list";
  }
}
