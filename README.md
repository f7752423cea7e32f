# claude-config: a Dafny model of its configuration logic

`claude-config` is a small command-line tool that switches MCP server entries
on and off in a project's `.mcp.json`. A server or profile name given on the
command line is resolved against two registries: the packaged one, and the
user's overrides under `~/.claude-mcp`. Profiles are named lists of server
names. The resolved names are written into `mcpServers`, each with its launch
configuration. The tool also makes sure that `.claude/settings.local.json`
has `enableAllProjectMcpServers` set and no `disabledMcpjsonServers` key.

This project models the logic under the terminal I/O:

- `values.dfy`: the JSON values the settings file holds, with JavaScript
  truthiness. Also launch configurations, servers and profiles, and the state
  of a JSON file: missing, unparsable, or parsed.
- `ordered_set.dfy`: sequences that behave like a JavaScript `Set` (adding a
  duplicate does nothing; iteration follows first insertion), and the
  order-preserving `filter` used by `remove`.
- `registry.dfy`: reading a registry file with a fallback, and the
  `{ ...packaged, ...user }` merge with its lookups.
- `config_store.dfy`: the class `Workspace`, whose fields are the two project
  files plus a log of the writes made to them. Its methods are the store's
  operations. Functions on a snapshot (`Files`) state what each operation
  does. Lemmas state what that means: the set-based change test, the dropping
  of unknown names, idempotence, and the settings normalisation.
- `profiles.dfy`: `applyMultiple` as a method with its two loops, and
  `applyProfile` as a straight-line method. `ApplyMultiple` is proved against
  the resolution function `Resolve` (through `Resolution`), and `ApplyProfile`
  against `ProfileRequest`; `DirectPathsAgree` relates the two for a lone
  profile. Lemmas cover
  first-unknown-token aborts, the empty-result abort, profile-before-server
  precedence, and the equivalence with a reference definition (`Expand`
  followed by deduplication).
- `dispatcher.dfy`: flag removal, the classification of the first operand,
  the direct-activation routing, the interactive default action, and the
  `clear` command.

The filesystem is abstract state. Each write is recorded in
`Workspace.writes`, so "writes nothing" is stated as "the log is unchanged".
The operator's checklist selection and the answer to the `clear` confirmation
are parameters. A cancelled prompt is `None`. `process.exit(1)` is modelled
as an `Aborted` outcome whose exit code is 1.

Three behaviours of the code worth knowing:

- The write takes an ordered list, not a set. The change test compares sets,
  but the file is written in request order with duplicates removed.
- Only `applyMultiple` refuses an empty result. The single-profile shortcut
  (`applyProfile`) writes a profile that has no members, which clears the
  project config. `Profiles.DirectPathsAgree` states both sides.
- An empty invocation never reaches the resolver; it goes to the interactive
  action.

## Model

| member | source | states |
|---|---|---|
| `Values.Truthy` | src/config-manager.ts:111 | JavaScript truthiness of a parsed JSON value: falsy exactly for `null`, `false`, `0` and `""` |
| `OrderedSet.Insert` | src/profiles.ts:40-45 | `Set.add`: the element set grows by exactly the new element, an existing element leaves the order unchanged, and distinctness is kept |
| `OrderedSet.InsertAll` | src/profiles.ts:40 | adding a list of names one by one yields the union of the sets, keeps the earlier order as a prefix, and stays duplicate-free; what is appended, and in which order, is stated by `InsertAllFresh` and `InsertAllOrder` |
| `OrderedSet.InsertAllFresh` | src/profiles.ts:40 | the names appended after the earlier set are exactly the added names not already present |
| `OrderedSet.InsertAllOrder` | src/profiles.ts:40 | the appended names follow the order of their first occurrences in the added list |
| `OrderedSet.Dedup` | src/config-manager.ts:134 | `[...new Set(xs)]` has the same elements as `xs`, each once, listed in the order of their first occurrences in `xs` |
| `OrderedSet.Without` | src/config-manager.ts:141 | the filter keeps exactly the elements not being removed, never grows, and keeps distinctness |
| `OrderedSet.WithoutAppend` | src/config-manager.ts:141 | the filter distributes over concatenation, so survivors keep their original relative order |
| `OrderedSet.DedupAfterDistinct` | src/config-manager.ts:134 | deduplicating `current ++ names` when `current` is duplicate-free keeps `current` as a prefix and then adds the new names in first-occurrence order |
| `Registry.LoadJsonFile` | src/registry.ts:44-54 | a parsed file gives its content; a missing file, or one that fails to read or parse, gives the fallback |
| `Registry.Entries` | src/registry.ts:57-61 | an unreadable source contributes the empty map; a parsed one contributes its `servers`/`profiles` member, or nothing when that member is absent (spreading `undefined`) |
| `Registry.Merge` | src/registry.ts:56-70 | merged keys are the union of both key sets; on a shared key the user entry wins whole; a packaged-only key keeps its packaged entry |
| `Registry.AllServers` | src/registry.ts:56-62 | the merged servers are those of either file, the user's definition winning on a shared name; `Workspace.Servers` and `Workspace.Profiles` are these two merges over the workspace's sources |
| `Registry.AllProfiles` | src/registry.ts:64-70 | the merged profiles are those of either file, the user's definition winning on a shared name |
| `Registry.GetServer` | src/registry.ts:72-75 | defined exactly when either source has the name; the user's entry is preferred over the packaged one |
| `Registry.GetProfile` | src/registry.ts:77-80 | the same lookup over the merged profiles; `ApplyProfile` looks its profile up through it |
| `Registry.MergeWithEmpty` | src/registry.ts:61 | merging with an empty user map (or an empty packaged map) is the identity |
| `Registry.UnreadableUserServers` | src/registry.ts:44-62 | a missing or broken user file leaves exactly the packaged servers |
| `Registry.UnreadablePackagedServers` | src/registry.ts:44-62 | a missing or broken packaged file leaves exactly the user's servers |
| `ConfigStore.Assign` | src/config-manager.ts:68 | `record[name] = config`: existing keys keep their places, the key set gains `name`, `name` maps to `config` and every other entry is unchanged |
| `ConfigStore.ReadMcpConfig` | src/config-manager.ts:30-43 | a parsed `.mcp.json` gives its record; a missing or unparsable one reads as empty `mcpServers` |
| `ConfigStore.CurrentServers` | src/config-manager.ts:127-130 | the enabled names are the record's keys, duplicate-free, and `[]` when the file is missing or unparsable |
| `ConfigStore.HasChanges` | src/config-manager.ts:50-61 | the size-or-containment test holds exactly when the requested and current name sets differ |
| `ConfigStore.KnownNames` | src/config-manager.ts:65-71 | the requested names that the registry knows: exactly the names that are both requested and registered |
| `ConfigStore.KnownNamesAppend` | src/config-manager.ts:65-71 | dropping unknown names distributes over concatenation, so the kept names stay in request order |
| `ConfigStore.Selection` | src/config-manager.ts:63-74 | the written record has a key exactly for each requested name that is in the registry, mapped to that server's `config`; unknown names never appear |
| `ConfigStore.WriteMcp` | src/config-manager.ts:45-79 | the settings are never touched; equal name sets leave everything as it was; otherwise one write is logged and the enabled names are exactly the requested names that are registered, each with its registry configuration |
| `ConfigStore.SelectionOrder` | src/config-manager.ts:63-74 | the written keys are the known requested names in first-occurrence order |
| `ConfigStore.SelectionDedup` | src/config-manager.ts:65-68 | repeating a requested name does not change the written record, because reassigning a key keeps its place |
| `ConfigStore.RequestOrderIrrelevant` | src/config-manager.ts:50-74 | requests with the same names in any order or multiplicity get the same change decision and the same written entries |
| `ConfigStore.UnchangedMeansNoWrite` | src/config-manager.ts:55-61 | when the requested set equals the current set, the files and the write log are untouched |
| `ConfigStore.WrittenNames` | src/config-manager.ts:63-78 | after a write, the enabled names are the known requested names in first-occurrence order, one write is logged, and no unknown name is enabled |
| `ConfigStore.WriteTwiceKnown` | src/config-manager.ts:50-78 | if every requested name is registered, a second identical call detects no change and writes nothing |
| `ConfigStore.WriteTwiceDropped` | src/config-manager.ts:50-78 | if the first call wrote and dropped an unknown name, the second identical call writes again |
| `ConfigStore.ReadSettings` | src/config-manager.ts:81-94 | a missing or unparsable settings file reads as `{}` |
| `ConfigStore.FlagEnabled` | src/config-manager.ts:111 | definition of `settings.enableAllProjectMcpServers` being truthy, an absent key reading as `undefined`; it decides the first `needsWrite` branch |
| `ConfigStore.NeedsNormalising` | src/config-manager.ts:108-120 | definition of the final value of `needsWrite`: the flag is not truthy or the legacy key is present; `NeedsWriteIffChanged` states what it means |
| `ConfigStore.NeedsWriteIffChanged` | src/config-manager.ts:108-122 | `needsWrite` ends up set exactly when normalising changes the settings, so an unneeded write never happens |
| `ConfigStore.Normalise` | src/config-manager.ts:106-121 | afterwards the flag is truthy (kept if it already was, else `true`), the legacy key is gone, every other key is unchanged, and settings that needed nothing stay as they were |
| `ConfigStore.EnsureSettings` | src/config-manager.ts:96-125 | `.mcp.json` is untouched, the settings read afterwards are the normalised settings read before, and a write is logged exactly when normalising was needed |
| `ConfigStore.Commit` | src/config-manager.ts:132-149 | write then ensure: afterwards the flag is truthy and the legacy key absent; the project config is unchanged when the sets agree, else it holds the known requested names in first-occurrence order; at most two writes are added |
| `ConfigStore.AddRequest` | src/config-manager.ts:134 | the request holds the current and the new names, each once, and keeps a duplicate-free current list as its prefix |
| `ConfigStore.RemoveRequest` | src/config-manager.ts:141 | the request holds exactly the current names that are not being removed, each once when the current list is duplicate-free |
| `ConfigStore.EnsureSettingsOutcome` | src/config-manager.ts:96-125 | after `ensureSettingsFile` the flag is set, the legacy key is absent, the other keys are the ones read before, `.mcp.json` is untouched, and a write is logged exactly when the settings needed fixing |
| `ConfigStore.EnsureSettingsIdempotent` | src/config-manager.ts:106-124 | a second `ensureSettingsFile` right after the first changes nothing and writes nothing |
| `ConfigStore.AddRequestShape` | src/config-manager.ts:132-137 | `add` requests the current names followed by exactly the new names not already enabled, each once, in the order they were first given |
| `ConfigStore.RemoveNothingEnabled` | src/config-manager.ts:139-144 | removing names none of which is enabled requests the current list, so `.mcp.json` is not written |
| `ConfigStore.RemoveExample` | src/config-manager.ts:139-144 | with `a, b` enabled and `b` registered, `remove a` leaves exactly `b` enabled |
| `ConfigStore.ClearEmpties` | src/config-manager.ts:146-149 | from every state, clearing leaves no server enabled |
| `ConfigStore.Workspace.WriteMcpConfig` | src/config-manager.ts:45-79 | returns whether the name sets differ; if they differ, the loop-built record replaces `.mcp.json` and one write is logged; if not, nothing changes |
| `ConfigStore.Workspace.EnsureSettingsFile` | src/config-manager.ts:96-125 | in-place normalisation with a `needsWrite` flag; the new state is the normalised settings, written only when needed |
| `ConfigStore.Workspace.AddServers` | src/config-manager.ts:132-137 | writes the union request, then always ensures the settings |
| `ConfigStore.Workspace.RemoveServers` | src/config-manager.ts:139-144 | writes the current names minus the given ones, in their order, then always ensures the settings |
| `ConfigStore.Workspace.ClearServers` | src/config-manager.ts:146-149 | writes the empty list, then always ensures the settings |
| `Profiles.Known` | src/profiles.ts:38-48 | definition: the token names a profile or a server (`profiles[arg]` / `servers[arg]`, and the `includes` tests at src/index.ts:50); an unknown token aborts the batch |
| `Profiles.Contribution` | src/profiles.ts:38-53 | a token contributes nothing (is an error) exactly when it is neither a profile nor a server; `ProfileShadowsServer` states the profile-first precedence |
| `Profiles.Resolve` | src/profiles.ts:36-54 | the loop's result: on success a duplicate-free list; which list, and which token a failure names, is stated by `ResolveKnown`, `ResolveUnknown` and `ResolutionMeaning` |
| `Profiles.Resolution` | src/profiles.ts:36-59 | on success a non-empty duplicate-free list, so an empty result never reaches the write; `EmptyResultAbortsBeforeWrite` and `UnknownTokenAbortsBeforeWrite` state the failures |
| `Profiles.ProfileRequest` | src/profiles.ts:6-17 | succeeds exactly when the profile exists, and then requests its members followed by the extra names; otherwise fails naming the profile |
| `Profiles.Activate` | src/profiles.ts:17-19 | a failed request aborts with exit code 1 and leaves the files as they were; a successful one completes with exit code 0 and leaves the settings flag on |
| `Profiles.ResolveErrPersists` | src/profiles.ts:36-54 | once a token is unknown, later tokens are not looked at: the failure stands for every extension of the batch |
| `Profiles.ResolveKnown` | src/profiles.ts:32-61 | when every token is a profile or a server, the result is the deduplicated concatenation of the tokens' contributions |
| `Profiles.ResolveUnknown` | src/profiles.ts:47-53 | resolution fails naming the first unknown token, whatever follows it |
| `Profiles.ResolutionMeaning` | src/profiles.ts:29-61 | resolution succeeds exactly when every token is known, and its names are the contributed names, each once |
| `Profiles.UnknownTokenAbortsBeforeWrite` | src/profiles.ts:36-63 | a batch with an unknown token exits with code 1, with both files and the write log unchanged, even when other tokens are valid |
| `Profiles.EmptyResultAbortsBeforeWrite` | src/profiles.ts:56-59 | profiles without members resolve to nothing, which aborts with no write |
| `Profiles.ProfileShadowsServer` | src/profiles.ts:38-46 | a name that is both a profile and a server expands as the profile |
| `Profiles.MembersUnchecked` | src/profiles.ts:38-41 | a batch of profile names resolves, and resolves the same way, whatever the server registry holds |
| `Profiles.WorkProfileExample` | src/profiles.ts:29-61 | with `work = [a, b]` and server `c`, `work c` resolves to `a, b, c` |
| `Profiles.DirectPathsAgree` | src/profiles.ts:5-63 | for a profile with members, the single-profile shortcut and the general path give the same outcome and files; for an empty profile the general path aborts while the shortcut writes the empty list |
| `Profiles.ApplyProfile` | src/profiles.ts:5-27 | an unknown profile aborts with no write; otherwise the profile's members followed by the extra names are written and the settings are always ensured |
| `Profiles.ApplyMultiple` | src/profiles.ts:29-78 | the classification loop and the inner member loop compute `Resolve`; an unknown token or an empty result aborts before any write; otherwise the result is written and the settings ensured |
| `Dispatcher.IsFlag` | src/index.ts:47 | `arg.startsWith("-")`: the argument has `-` as a prefix |
| `Dispatcher.Operands` | src/index.ts:47 | no flag survives, every non-flag argument survives, and the list never grows |
| `Dispatcher.OperandsAppend` | src/index.ts:47 | flag removal distributes over concatenation, so operand order is kept |
| `Dispatcher.Classify` | src/index.ts:50-70 | direct activation happens exactly when the first operand is a known profile or server and not one of the reserved `CommandNames`; a lone profile takes the shortcut; a lone server or several operands take the general path with all operands |
| `Dispatcher.ReservedNamesPassOn` | src/index.ts:52-53 | `list`, `status`, `profiles`, `add`, `remove` and `clear` always go to the command framework, even when they name a profile or server |
| `Dispatcher.FlagThenBatchExample` | src/index.ts:47-58 | `--yes work c` drops the flag and sends `work c` to the general resolver |
| `Dispatcher.Dispatch` | src/index.ts:41-70 | carries out the classified route through `ApplyMultiple` or `ApplyProfile`; an invocation left to the framework changes nothing |
| `Dispatcher.InteractiveAction` | src/index.ts:18-38 | writes the selection and always ensures the settings, reporting whether anything changed; a cancelled prompt changes nothing |
| `Dispatcher.ClearCommand` | src/index.ts:128-152 | with nothing enabled, no write; otherwise clears, leaving no server enabled, only when confirmed |

## Left out

- `src/ui.ts` (terminal rendering, the checkbox and confirm widgets) is not part of this model. The operator's selection and confirmation are inputs.
- Command-line parsing by the command framework: help, version, and the routing of `list`, `status`, `profiles`, `add`, `remove` and `clear`. The `list`, `status` and `profiles` commands only display.
- The `add` and `remove` handler bodies in `src/index.ts`: apart from calling `AddServers`/`RemoveServers`, they only print.
- `.mcp.json` is modelled as its `mcpServers` record only. Other top-level keys of an existing file, which every write discards, are not represented.
- JSON text: parsing, pretty-printing and the trailing newline. A file is modelled as missing, unparsable, or its parsed value.
- Parsed files of an unexpected shape are not modelled. Examples: a `.mcp.json` without `mcpServers` (`Object.keys(undefined)` throws), a settings file holding a non-object, a registry file holding `null`, a profile without a `servers` array.
- A registry entry whose value is `null` or another falsy JSON value: the source's `if (server)` treats it as absent, while the model treats every present key as found.
- JavaScript prototype lookups: `profiles[arg]` also finds inherited members such as `toString`. The model looks up own keys only.
- JavaScript's ordering of integer-like object keys. Records keep insertion order.
- Console output and success messages, including the `appliedProfiles`/`appliedServers` lists, which only feed messages.
- Paths and environment: working directory, home directory, the module path, and `mkdirSync` of `.claude`.
- I/O errors from reading or writing files, and the generic `catch` that exits 1 in the command handlers.
- Concurrent edits to the registry files between reads within one run. The registry sources are constants of `Workspace`.
- JSON numbers are `real`; only their truthiness matters here.
