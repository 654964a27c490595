# RequiredPlugins — a Dafny model

RequiredPlugins is a game-server plugin that refuses player logins while any
plugin from a configured list is unknown or disabled. It keeps two sets:
`required` holds the configured names as written, and `missing` holds the
lower-cased names of required plugins found absent or disabled. `missing` is
rebuilt from the plugin manager when the configuration loads and when the
server finishes loading. Plugin-enable events remove a name from it, and
plugin-disable events add one. Logins, the `list` command and the text
templates read the two sets.

The model has six modules:

- `JavaString`: the `java.lang.String` operations the plugin uses, over ASCII.
  These are `toLowerCase`, `equalsIgnoreCase`, `compareToIgnoreCase`, `replace`
  and `String.valueOf`.
- `Sorting`: the sort by `compareToIgnoreCase` in the listing's stream.
- `Bukkit`: the host values the plugin reads or writes. These are the plugin
  manager (a map from lookup name to the plugin's declared name and enabled
  flag), permissions, the login event (a class whose result and kick message
  listeners change), the `ChatColor` codes and the configuration document.
- `Placeholders`: the four `replace` passes of `getText`. A `Template` is a
  text cut at its placeholders; `SubstituteTemplate` says when the passes give
  exactly the template with each placeholder replaced by its value.
- `RequiredPlugins`: the plugin itself. The class `RequiredPlugins` has the
  fields `config`, `required` and `missing`, one method per event handler and
  `loadConfig`/`calculateMissing`, and functions that read the state
  (`Shown`, `GetPlugins`, `GetText`). The stream pipelines are modelled as
  functions: `MissingOf`, `Listed`, `Label` and `Join`.
- `Scenarios`: verified client methods that drive the class through concrete
  situations.

Host state that the Java code queries at the moment of a call is passed as a
parameter:

- `pm`: the plugin manager at that moment.
- `file`: the configuration document as `reloadConfig` would load it.
- `order`: the order in which the `HashSet` of required names is iterated. The
  precondition `Enumerates(order, required)` says it lists each required name
  exactly once.

The object invariant `Valid()` says two things. `required` is the set of
configured names. `missing` contains only lower-cased forms of required
names. The constructor (`onEnable`) and `LoadConfig` establish it. Every
handler preserves it.

The disable handler checks `required.contains(name)` with exact case, while
`missing` is lower-cased. The model keeps this behaviour.
`Scenarios.DisableCaseScenario` shows that a disable event for `vault` is
ignored when `Vault` is configured. `Scenarios.CaseMismatchLetsLoginThrough`
shows the consequence. Take a plugin configured as `Vault` that declares
itself `vault`. Once it is disabled, `missing` stays empty while a
recomputation would give `{"vault"}`, and a player without the bypass
permission still gets in. So `missing` is only guaranteed to be a subset of
the lower-cased required names. It does not stay equal to what a
recomputation would give.

Three behaviours of the code are easy to misread:

- `missing` is guaranteed to equal a recomputation only until the first event. The
  invariant that holds throughout is the subset one above.
- In the listing, Java promises no order among names that are equal ignoring
  case, since the stream comes from a `HashSet`. The model keeps them in the
  iteration order. That order is the `order` parameter, so every order of ties
  is covered.
- The `replace` passes run one after another on the whole text, so a pass can
  match across the boundary of a placeholder an earlier pass left in place.
  In `%missingsize%missing%requiredsize%`, the `%` that closes the first
  placeholder, the word `missing` and the `%` that opens the second read as
  `%missing%`. The second pass replaces it, and neither count is filled in
  (`Placeholders.SubstituteGapNamedMissing`). The general result
  (`Placeholders.SubstituteTemplate`) therefore asks that the text is well
  formed: no `%` appears in it outside the placeholders, and the text between
  two placeholders is empty or holds a character other than a lower-case
  letter. It also asks that no substituted listing contains `%`. A text such
  as `Missing %missingsize% (100%)` is outside that result, even though the
  code still fills in its count there.

## Model

| member | source | states |
|---|---|---|
| JavaString.LowerChar | src/main/java/de/minebench/requiredplugins/RequiredPlugins.java:65 | ASCII `Character.toLowerCase`: the result is never an upper-case letter, and only 'A'..'Z' change, each by the fixed offset to its lower-case letter |
| JavaString.LowerString | src/main/java/de/minebench/requiredplugins/RequiredPlugins.java:65 | `String.toLowerCase`: the same length, and each character lower-cased by the ASCII rule (used at 65, 71 and 77) |
| JavaString.LowerStringIdempotent | src/main/java/de/minebench/requiredplugins/RequiredPlugins.java:65 | lower-casing a lower-cased name changes nothing |
| JavaString.CompareAntisymmetric | src/main/java/de/minebench/requiredplugins/RequiredPlugins.java:128 | `compareToIgnoreCase(a, b) == -compareToIgnoreCase(b, a)` |
| JavaString.CompareTotal | src/main/java/de/minebench/requiredplugins/RequiredPlugins.java:128 | any two names are ordered one way or the other by the comparator |
| JavaString.CompareTransitive | src/main/java/de/minebench/requiredplugins/RequiredPlugins.java:128 | `<= 0` under the comparator is transitive, so it is a valid sort order |
| JavaString.CompareZeroIffEqualsIgnoreCase | src/main/java/de/minebench/requiredplugins/RequiredPlugins.java:111-128 | the comparator gives 0 exactly for names equal ignoring case; `equalsIgnoreCase` (111, 115) is that relation |
| JavaString.ReplaceAbsent | src/main/java/de/minebench/requiredplugins/RequiredPlugins.java:102-106 | `replace` of a target that does not occur returns the text unchanged |
| JavaString.AbsentFirstChar | src/main/java/de/minebench/requiredplugins/RequiredPlugins.java:102-106 | a placeholder whose first character the text lacks does not occur in it |
| JavaString.ReplaceSkipFirst | src/main/java/de/minebench/requiredplugins/RequiredPlugins.java:102-106 | where the text does not start with the target, `replace` keeps the first character and continues with the rest |
| JavaString.ReplaceAtTarget | src/main/java/de/minebench/requiredplugins/RequiredPlugins.java:102-106 | an occurrence at the front is replaced, and the scan resumes right after it (matches do not overlap) |
| JavaString.ReplacePlainPrefix | src/main/java/de/minebench/requiredplugins/RequiredPlugins.java:102-106 | a prefix lacking the target's first character is copied unchanged and the rest is replaced on its own |
| JavaString.ReplaceMatchAfterPlain | src/main/java/de/minebench/requiredplugins/RequiredPlugins.java:102-106 | after plain text, an occurrence of the target is replaced and the plain text after it is copied |
| JavaString.NatToString | src/main/java/de/minebench/requiredplugins/RequiredPlugins.java:105-106 | `String.valueOf` of a size is a non-empty run of decimal digits with no leading zero |
| JavaString.ParseNatToString | src/main/java/de/minebench/requiredplugins/RequiredPlugins.java:105-106 | the printed size reads back as the same number (nothing is lost) |
| Sorting.Insert | src/main/java/de/minebench/requiredplugins/RequiredPlugins.java:128 | one insertion step adds exactly the inserted name to the sequence's multiset |
| Sorting.InsertSorted | src/main/java/de/minebench/requiredplugins/RequiredPlugins.java:128 | inserting into a case-insensitively sorted sequence keeps it sorted |
| Sorting.SortIgnoreCase | src/main/java/de/minebench/requiredplugins/RequiredPlugins.java:128 | `sorted(String::compareToIgnoreCase)` returns a permutation of its input (same multiset of names) |
| Sorting.SortIgnoreCaseSorted | src/main/java/de/minebench/requiredplugins/RequiredPlugins.java:128 | the result of that sort is sorted ignoring case |
| Bukkit.GetPlugin | src/main/java/de/minebench/requiredplugins/RequiredPlugins.java:62 | the host lookup, defined as a map read: `getPlugin(name)` returns a plugin exactly when the name is known to the manager, and then the manager's entry (used at 62 and 130) |
| Bukkit.Config.GetStringList | src/main/java/de/minebench/requiredplugins/RequiredPlugins.java:55 | the host lookup, defined as a map read: `getStringList(path)` is the configured list, or empty when the path is not set |
| Bukkit.Config.GetString | src/main/java/de/minebench/requiredplugins/RequiredPlugins.java:102 | the host lookup, defined as a map read: `getString(path, def)` is the configured string, or `def` when the path is not set |
| Placeholders.Pass | src/main/java/de/minebench/requiredplugins/RequiredPlugins.java:103-106 | what one `replace` pass leaves of a template: exactly the other placeholders remain, and a template without placeholders is unchanged |
| Placeholders.NoMatchAfterPercent | src/main/java/de/minebench/requiredplugins/RequiredPlugins.java:103-106 | a `%`, a `%`-free word and then a `%` or the end start no match of a placeholder with a different name |
| Placeholders.ReplaceThroughOther | src/main/java/de/minebench/requiredplugins/RequiredPlugins.java:103-106 | a pass copies plain text, a placeholder with another name and the plain text after it, and goes on at the next `%`; with `%` or nothing after that text, the result is the copied text followed by the pass over the rest |
| Placeholders.PassRender | src/main/java/de/minebench/requiredplugins/RequiredPlugins.java:103-106 | one `replace` pass on a rendered template gives the rendering of `Pass`, provided the leading text and every tail hold no `%`, no tail before a placeholder is the pass's name, and the replacement holds no `%` when the template uses the pass's placeholder |
| Placeholders.PassShape | src/main/java/de/minebench/requiredplugins/RequiredPlugins.java:103-106 | a pass with a separating value keeps the template well formed |
| Placeholders.PassExpand | src/main/java/de/minebench/requiredplugins/RequiredPlugins.java:103-106 | a pass with the placeholder's own value does not change what the template expands to |
| Placeholders.SubstituteTemplate | src/main/java/de/minebench/requiredplugins/RequiredPlugins.java:102-106 | on a well-formed template whose listings are separating where used, the four passes give exactly the template with every placeholder replaced by its value |
| Placeholders.SubstitutePlainText | src/main/java/de/minebench/requiredplugins/RequiredPlugins.java:102-106 | a text without `%` passes the four replacements unchanged |
| Placeholders.SubstituteMissingSize | src/main/java/de/minebench/requiredplugins/RequiredPlugins.java:105 | `%missingsize%` between any two `%`-free texts becomes the missing count in decimal |
| Placeholders.SubstituteRequiredSize | src/main/java/de/minebench/requiredplugins/RequiredPlugins.java:106 | `%requiredsize%` between any two `%`-free texts becomes the required count in decimal |
| Placeholders.SubstituteCounts | src/main/java/de/minebench/requiredplugins/RequiredPlugins.java:105-106 | `%missingsize%`, then separating text, then `%requiredsize%`, inside `%`-free text, become the two counts |
| Placeholders.Bridge | src/main/java/de/minebench/requiredplugins/RequiredPlugins.java:104 | a pass for `%b%` matches the word `b` between two other placeholders, consuming their inner `%` signs |
| Placeholders.SubstituteGapNamedMissing | src/main/java/de/minebench/requiredplugins/RequiredPlugins.java:103-106 | `%missingsize%missing%requiredsize%` becomes `%missingsize`, the missing listing and `requiredsize%`, and not the two counts around `missing` |
| RequiredPlugins.ConfiguredNames | src/main/java/de/minebench/requiredplugins/RequiredPlugins.java:55 | `new HashSet<>(list)`: a name is required exactly when it appears in the configured list, duplicates collapsing |
| RequiredPlugins.AbsentOf | src/main/java/de/minebench/requiredplugins/RequiredPlugins.java:61-64 | the filter of `calculateMissing` keeps exactly the required names whose plugin is unknown or not enabled |
| RequiredPlugins.MissingOf | src/main/java/de/minebench/requiredplugins/RequiredPlugins.java:59-67 | what `calculateMissing` collects lies within the lower-cased required names, and is empty exactly when every required plugin is present and enabled |
| RequiredPlugins.LowerSetEmpty | src/main/java/de/minebench/requiredplugins/RequiredPlugins.java:65 | mapping `toLowerCase` over a set gives the empty set only for the empty set |
| RequiredPlugins.LowerSetUnion | src/main/java/de/minebench/requiredplugins/RequiredPlugins.java:65 | mapping `toLowerCase` over a union is the union of the mapped parts |
| RequiredPlugins.MissingOfAdd | src/main/java/de/minebench/requiredplugins/RequiredPlugins.java:60-66 | one more required name adds its lower-cased form to the recomputed set exactly when its plugin is unknown or disabled |
| RequiredPlugins.Listed | src/main/java/de/minebench/requiredplugins/RequiredPlugins.java:129-136 | `getPlugins(true)` keeps every name; `getPlugins(false)` keeps exactly the names whose plugin is not present-and-enabled |
| RequiredPlugins.ListedSorted | src/main/java/de/minebench/requiredplugins/RequiredPlugins.java:127-136 | dropping enabled plugins after the sort leaves the listing sorted |
| RequiredPlugins.ListedDistinct | src/main/java/de/minebench/requiredplugins/RequiredPlugins.java:127-136 | dropping names keeps a duplicate-free listing duplicate-free |
| RequiredPlugins.Label | src/main/java/de/minebench/requiredplugins/RequiredPlugins.java:134 | an entry is green exactly for an enabled plugin, yellow for a present but disabled one, red for an unknown one, followed by the declared name if present and the configured name otherwise |
| RequiredPlugins.Labels | src/main/java/de/minebench/requiredplugins/RequiredPlugins.java:129-135 | one entry per listed name, in listing order |
| RequiredPlugins.LabelPlain | src/main/java/de/minebench/requiredplugins/RequiredPlugins.java:134 | an entry of a `%`-free name is `%`-free and starts with the colour-code character |
| RequiredPlugins.MissingStyledIsListedMissing | src/main/java/de/minebench/requiredplugins/RequiredPlugins.java:129-136 | the number of non-green entries in the full listing is the length of the short listing |
| RequiredPlugins.Join | src/main/java/de/minebench/requiredplugins/RequiredPlugins.java:137 | `Collectors.joining`: the result starts with the first entry, and holds no `%` when neither the entries nor the separator do |
| RequiredPlugins.JoinEmpty | src/main/java/de/minebench/requiredplugins/RequiredPlugins.java:137 | joining non-empty entries gives the empty string only for no entries |
| RequiredPlugins.SelectBranch | src/main/java/de/minebench/requiredplugins/RequiredPlugins.java:110-123 | `reload` is taken exactly for a first argument equal to "reload" ignoring case from a sender with the reload permission, and `list` exactly likewise with "list" and the list permission; everything else falls through to the version reply |
| RequiredPlugins.RequiredPlugins.constructor | src/main/java/de/minebench/requiredplugins/RequiredPlugins.java:46-50 | `onEnable` loads the configuration: `required` is the configured names, `missing` their recomputation, invariant established |
| RequiredPlugins.RequiredPlugins.LoadConfig | src/main/java/de/minebench/requiredplugins/RequiredPlugins.java:52-57 | the new state is the given configuration, its distinct names as `required`, and `missing` recomputed for them; an empty list gives an empty `missing` |
| RequiredPlugins.RequiredPlugins.CalculateMissing | src/main/java/de/minebench/requiredplugins/RequiredPlugins.java:59-67 | `missing` becomes exactly the lower-cased required names whose plugin is unknown or disabled; nothing else changes |
| RequiredPlugins.RequiredPlugins.OnPluginEnable | src/main/java/de/minebench/requiredplugins/RequiredPlugins.java:69-72 | `missing` loses the lower-cased name and nothing else (no-op when absent); `required` is unchanged; invariant kept |
| RequiredPlugins.RequiredPlugins.OnPluginDisable | src/main/java/de/minebench/requiredplugins/RequiredPlugins.java:74-79 | the lower-cased name is added to `missing` if and only if the name is, with its case, a required name; otherwise nothing changes; invariant kept |
| RequiredPlugins.RequiredPlugins.Shown | src/main/java/de/minebench/requiredplugins/RequiredPlugins.java:126-138 | the listed names are sorted ignoring case and free of duplicates; with `all` every required name appears exactly once, without it exactly those not present-and-enabled |
| RequiredPlugins.RequiredPlugins.GetPlugins | src/main/java/de/minebench/requiredplugins/RequiredPlugins.java:126-138 | `getPlugins(all)` is the empty string exactly when no name is shown |
| RequiredPlugins.RequiredPlugins.GetText | src/main/java/de/minebench/requiredplugins/RequiredPlugins.java:101-107 | a key with no configured text and no `%` yields `"Unknown text " + key` unchanged |
| RequiredPlugins.RequiredPlugins.OnPlayerLogin | src/main/java/de/minebench/requiredplugins/RequiredPlugins.java:81-91 | nothing missing: the event is untouched; missing and bypass: untouched, the "join" notice deferred; missing without bypass: `KICK_OTHER` with the "kick" text |
| RequiredPlugins.RequiredPlugins.OnServerLoaded | src/main/java/de/minebench/requiredplugins/RequiredPlugins.java:93-99 | `missing` is recomputed; a warning with the short listing is produced exactly when it is non-empty |
| RequiredPlugins.RequiredPlugins.OnCommand | src/main/java/de/minebench/requiredplugins/RequiredPlugins.java:109-124 | reload reloads and confirms; list changes nothing and replies with the full listing and the missing/required counts; otherwise the version reply; handled exactly in the first two branches |
| RequiredPlugins.MissingStyledCount | src/main/java/de/minebench/requiredplugins/RequiredPlugins.java:126-138 | when `missing` is in step with the plugin manager and no two required names differ only in case, the short listing has exactly as many entries as `missing` has names, and the full listing has exactly that many entries styled as not enabled |
| RequiredPlugins.NoRequiredNoMissing | src/main/java/de/minebench/requiredplugins/RequiredPlugins.java:52-79 | with no required names the invariant kept by loading, enabling and disabling forces `missing` to be empty |
| RequiredPlugins.ShortListingEmpty | src/main/java/de/minebench/requiredplugins/RequiredPlugins.java:126-138 | the short listing is the empty string exactly when every required plugin is present and enabled |
| RequiredPlugins.GetPluginsSeparating | src/main/java/de/minebench/requiredplugins/RequiredPlugins.java:126-138 | with `%`-free names, each listing is empty or starts with a colour code, and holds no `%` |
| RequiredPlugins.GetTextTemplate | src/main/java/de/minebench/requiredplugins/RequiredPlugins.java:101-107 | a configured text that is a well-formed template renders as that template with the two listings and the two decimal counts in place of its placeholders |
| RequiredPlugins.GetTextMissingSize | src/main/java/de/minebench/requiredplugins/RequiredPlugins.java:101-107 | a configured text with one `%missingsize%` in `%`-free text renders with the size of `missing` in decimal in its place |
| RequiredPlugins.GetTextRequiredSize | src/main/java/de/minebench/requiredplugins/RequiredPlugins.java:101-107 | a configured text with one `%requiredsize%` in `%`-free text renders with the size of `required` in decimal in its place |
| RequiredPlugins.GetTextCounts | src/main/java/de/minebench/requiredplugins/RequiredPlugins.java:101-107 | a configured text with `%missingsize%`, separating text and `%requiredsize%` renders with both counts in place |
| Scenarios.OnlyWorldEditMissing | src/main/java/de/minebench/requiredplugins/RequiredPlugins.java:59-67 | with `Vault` enabled and `WorldEdit` not, the recomputed set is `{"worldedit"}` |
| Scenarios.RecomputeScenario | src/main/java/de/minebench/requiredplugins/RequiredPlugins.java:52-67 | loading `Vault`/`WorldEdit` with only `Vault` present gives `missing == {"worldedit"}` |
| Scenarios.EnableLastMissing | src/main/java/de/minebench/requiredplugins/RequiredPlugins.java:70-91 | enabling the only missing plugin empties `missing`, and the next login is left untouched |
| Scenarios.DisableCaseScenario | src/main/java/de/minebench/requiredplugins/RequiredPlugins.java:75-79 | with `Vault` required, disabling `vault` changes nothing and disabling `Vault` adds `vault` |
| Scenarios.CaseMismatchLetsLoginThrough | src/main/java/de/minebench/requiredplugins/RequiredPlugins.java:75-91 | a required plugin declaring a differently cased name is disabled, yet a login without bypass is not refused, while a recomputation would report it missing |
| Scenarios.VaultRecomputed | src/main/java/de/minebench/requiredplugins/RequiredPlugins.java:59-67 | with `Vault` required and its plugin disabled, recomputation gives `{"vault"}` |
| Scenarios.EmptyConfigNeverBlocks | src/main/java/de/minebench/requiredplugins/RequiredPlugins.java:52-91 | with no configured names, the first login after loading is neither touched nor deferred, whatever the plugin manager reports |
| Scenarios.NoRequiredNeverBlocks | src/main/java/de/minebench/requiredplugins/RequiredPlugins.java:81-91 | any tracker that keeps its invariant and has no required names, after whatever events, leaves every login untouched and defers nothing |
| Scenarios.KickWithCounts | src/main/java/de/minebench/requiredplugins/RequiredPlugins.java:86-88 | a player without bypass is kicked with a kick text such as `Missing %missingsize% of %requiredsize% plugins` rendered with both counts |
| Scenarios.KickMessageScenario | src/main/java/de/minebench/requiredplugins/RequiredPlugins.java:86-106 | with `Vault` enabled, `WorldEdit` unknown and that kick text, a player without bypass is kicked with `Missing 1 of 2 plugins` |
| Scenarios.BypassScenario | src/main/java/de/minebench/requiredplugins/RequiredPlugins.java:83-85 | one of two plugins missing and bypass held: the login result is untouched and the join notice is deferred |
| Scenarios.CommandScenarios | src/main/java/de/minebench/requiredplugins/RequiredPlugins.java:110-123 | `ReLoAd` with the reload permission reloads, `list` without its permission and an empty argument list fall through, `LIST` with the list permission lists |

## Left out

- Plugin setup in `onEnable` has no logic of its own and is not modelled: `getCommand(...).setExecutor` and `registerEvents`.
- Configuration file I/O (`saveDefaultConfig`, `reloadConfig`) is not modelled. The document it would load is the `file` parameter.
- Output is returned as values and not sent. `sendMessage` replies are the `replies` result of `OnCommand`. The `getLogger().warning` line is the `warning` result of `OnServerLoaded`.
- `runTask` scheduling is host behaviour. The deferred notice is returned as the key of the text it sends (`Some("join")`); that text is `GetText("join", ...)` at the time the task runs.
- `ChatColor.translateAlternateColorCodes` belongs to an external formatting library and is not applied. `GetText` is the text before `&` codes are translated.
- Case mapping outside ASCII is out of scope: `toLowerCase` (whose result also depends on the default locale), `equalsIgnoreCase` and `compareToIgnoreCase` are modelled with only 'A'..'Z' changing case.
- The host's name lookup in `getPlugin` (any normalisation it applies) is the content of the `pm` map. It is not reimplemented.
- The version reply reads plugin metadata. The plugin's name and version are parameters.
- The iteration order of the `HashSet` is decided by the host and is the `order` parameter.
- SortIgnoreCase: its own contract is the permutation; that the result is sorted is `SortIgnoreCaseSorted`. Java fixes no order among names equal ignoring case, and the model states none.
- GetTextTemplate: states the result only for well-formed templates (no `%` outside the placeholders; the text between two placeholders is empty or holds a character that is not a lower-case letter) and, where a listing placeholder is used, only for `%`-free plugin names. Other texts go through the same four passes, but no closed form is proved for them; `SubstituteGapNamedMissing` works out one such text.
- GetPlugins: its own contract states only when the result is empty. The entries are stated through `Shown`, `Label`, `GetPluginsSeparating`, `MissingStyledCount` and `ShortListingEmpty`.
- `Placeholders.Substitute` is the four passes as the code writes them and carries no contract of its own. What they compute is `SubstituteTemplate` and its corollaries.
- Java strings are sequences of UTF-16 code units, but a Dafny `string` is a sequence of characters. For characters outside the Basic Multilingual Plane, lengths and the `compareToIgnoreCase` order therefore differ from Java's.
- Java's `int` is not modelled: set sizes are natural numbers. A set large enough to reach `Integer.MAX_VALUE` is not considered.
