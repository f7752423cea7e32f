/**
 The config store: the project's `.mcp.json` (an ordered record from server
 name to launch configuration under `mcpServers`) and the settings sidecar
 `.claude/settings.local.json` (a free-form object). The two files are fields
 of `Workspace`; the functions outside the class say what each operation does
 to a snapshot of those files, and the lemmas say what that means.
 */
module ConfigStore {
  import opened Values
  import opened OrderedSet
  import Registry

  /** The files this store writes, in the order the writes happen. */
  datatype Path = McpJson | SettingsLocal

  /** A JavaScript record: keys in insertion order, each with its value. */
  datatype McpServers = McpServers(order: seq<string>, configs: map<string, LaunchConfig>)
  {
    predicate WellFormed()
    {
      Distinct(order) && Elems(order) == configs.Keys
    }
  }

  type ServerTable = t: McpServers | t.WellFormed() witness McpServers([], map[])

  const EmptyTable: ServerTable := McpServers([], map[])

  type Settings = map<string, JsonValue>

  const EnableAllKey := "enableAllProjectMcpServers"
  const LegacyKey := "disabledMcpjsonServers"

  /** Snapshot of the project's mutable state: both files and the log of writes so far. */
  datatype Files = Files(mcp: Stored<ServerTable>, settings: Stored<Settings>, writes: seq<Path>)

  // ----- the project config -----

  /** `record[name] = config`: a new key goes last, an existing key keeps its place. */
  function Assign(t: ServerTable, name: string, config: LaunchConfig): (r: ServerTable)
    ensures t.order <= r.order
    ensures Elems(r.order) == Elems(t.order) + {name}
    ensures r.configs[name] == config
    ensures forall k :: k in t.configs && k != name ==> r.configs[k] == t.configs[k]
  {
    if name in t.configs then McpServers(t.order, t.configs[name := config])
    else McpServers(t.order + [name], t.configs[name := config])
  }

  /** The content of `.mcp.json`; a missing or unparsable file reads as no servers. */
  function ReadMcpConfig(file: Stored<ServerTable>): (t: ServerTable)
    ensures file.Parsed? ==> t == file.value
    ensures !file.Parsed? ==> t.order == [] && t.configs == map[]
  {
    Registry.LoadJsonFile(file, EmptyTable)
  }

  /** The names currently enabled, in file order, without duplicates. */
  function CurrentServers(file: Stored<ServerTable>): (names: seq<string>)
    ensures Distinct(names)
    ensures !file.Parsed? ==> names == []
    ensures Elems(names) == ReadMcpConfig(file).configs.Keys
  {
    ReadMcpConfig(file).order
  }

  /**
   The change test of the write: the sets differ in size, or some requested
   name is not current. It holds exactly when the two name sets differ.
   */
  function HasChanges(current: seq<string>, requested: seq<string>): (r: bool)
    ensures r <==> Elems(current) != Elems(requested)
  {
    var currentSet, newSet := Elems(current), Elems(requested);
    if |currentSet| == |newSet| && newSet <= currentSet then
      SameSizeSubsetIsEqual(newSet, currentSet);
      false
    else
      true
  }

  /** The requested names that the registry knows, in request order. */
  function KnownNames(names: seq<string>, registry: map<string, Server>): (r: seq<string>)
    ensures Elems(r) == Elems(names) * registry.Keys
  {
    if names == [] then []
    else
      var prefix, last := names[..|names| - 1], names[|names| - 1];
      assert names == prefix + [last];
      assert Elems(names) == Elems(prefix) + {last};
      var rest := KnownNames(prefix, registry);
      assert Elems(rest + [last]) == Elems(rest) + {last};
      if last in registry then rest + [last] else rest
  }

  /**
   The record the write builds: every requested name found in the registry
   mapped to that server's launch configuration; other names are dropped.
   */
  function Selection(names: seq<string>, registry: map<string, Server>): (t: ServerTable)
    ensures forall n :: n in t.configs <==> n in names && n in registry
    ensures forall n :: n in t.configs ==> t.configs[n] == registry[n].config
  {
    if names == [] then EmptyTable
    else
      var prefix, last := names[..|names| - 1], names[|names| - 1];
      assert names == prefix + [last];
      var rest := Selection(prefix, registry);
      if last in registry then Assign(rest, last, registry[last].config) else rest
  }

  /**
   What `writeMcpConfig(requested)` does to the files: nothing when the name
   sets agree; otherwise `.mcp.json` is replaced by the known requested names
   with their registry configurations, and one write is logged.
   */
  function WriteMcp(f: Files, registry: map<string, Server>, requested: seq<string>): (g: Files)
    ensures g.settings == f.settings
    ensures !HasChanges(CurrentServers(f.mcp), requested) ==> g == f
    ensures HasChanges(CurrentServers(f.mcp), requested) ==>
              && g.writes == f.writes + [McpJson]
              && (forall n :: n in CurrentServers(g.mcp) <==> n in requested && n in registry)
              && (forall n :: n in ReadMcpConfig(g.mcp).configs ==> ReadMcpConfig(g.mcp).configs[n] == registry[n].config)
  {
    if HasChanges(CurrentServers(f.mcp), requested) then
      f.(mcp := Parsed(Selection(requested, registry)), writes := f.writes + [McpJson])
    else
      f
  }

  // ----- the settings sidecar -----

  /** A missing or unparsable settings file reads as the empty object. */
  function ReadSettings(file: Stored<Settings>): (s: Settings)
    ensures file.Parsed? ==> s == file.value
    ensures !file.Parsed? ==> s == map[]
  {
    Registry.LoadJsonFile(file, map[])
  }

  /** `settings.enableAllProjectMcpServers` is truthy (an absent key reads as `undefined`). */
  predicate FlagEnabled(s: Settings)
    ensures FlagEnabled(s) ==> EnableAllKey in s
    ensures EnableAllKey in s && s[EnableAllKey] == JBool(true) ==> FlagEnabled(s)
  {
    EnableAllKey in s && Truthy(s[EnableAllKey])
  }

  /** The final value of `needsWrite`: whether normalising changes anything. */
  predicate NeedsNormalising(s: Settings)
  {
    !FlagEnabled(s) || LegacyKey in s
  }

  /** The settings as `ensureSettingsFile` leaves them. */
  function Normalise(s: Settings): (r: Settings)
    ensures FlagEnabled(r) && LegacyKey !in r
    ensures !NeedsNormalising(r)
    ensures FlagEnabled(s) ==> r[EnableAllKey] == s[EnableAllKey]
    ensures !FlagEnabled(s) ==> r[EnableAllKey] == JBool(true)
    ensures forall k :: k != EnableAllKey && k != LegacyKey ==> (k in r <==> k in s)
    ensures forall k :: k in r && k != EnableAllKey ==> r[k] == s[k]
    ensures !NeedsNormalising(s) ==> r == s
  {
    var flagged := if FlagEnabled(s) then s else s[EnableAllKey := JBool(true)];
    flagged - {LegacyKey}
  }

  /** What `ensureSettingsFile()` does to the files: the settings normalised, written only when that changes them. */
  function EnsureSettings(f: Files): (g: Files)
    ensures g.mcp == f.mcp
    ensures ReadSettings(g.settings) == Normalise(ReadSettings(f.settings))
    ensures g.writes == f.writes + (if NeedsNormalising(ReadSettings(f.settings)) then [SettingsLocal] else [])
  {
    var s := ReadSettings(f.settings);
    if NeedsNormalising(s) then
      f.(settings := Parsed(Normalise(s)), writes := f.writes + [SettingsLocal])
    else
      f
  }

  /** Write the requested names, then ensure the settings: the shape of every command that changes servers. */
  function Commit(f: Files, registry: map<string, Server>, requested: seq<string>): (g: Files)
    ensures FlagEnabled(ReadSettings(g.settings)) && LegacyKey !in ReadSettings(g.settings)
    ensures !HasChanges(CurrentServers(f.mcp), requested) ==> g.mcp == f.mcp
    ensures HasChanges(CurrentServers(f.mcp), requested) ==>
              CurrentServers(g.mcp) == Dedup(KnownNames(requested, registry))
    ensures f.writes <= g.writes && |g.writes| <= |f.writes| + 2
  {
    SelectionOrder(requested, registry);
    EnsureSettings(WriteMcp(f, registry, requested))
  }

  // ----- the requests built by add, remove and clear -----

  /** `[...new Set([...current, ...names])]`. */
  function AddRequest(current: seq<string>, names: seq<string>): (r: seq<string>)
    ensures Elems(r) == Elems(current) + Elems(names)
    ensures Distinct(r)
    ensures Distinct(current) ==> current <= r
  {
    if Distinct(current) then
      DedupAfterDistinct(current, names);
      Dedup(current + names)
    else
      Dedup(current + names)
  }

  /** `current.filter(name => !names.includes(name))`. */
  function RemoveRequest(current: seq<string>, names: seq<string>): (r: seq<string>)
    ensures Elems(r) == Elems(current) - Elems(names)
    ensures Distinct(current) ==> Distinct(r)
  {
    Without(current, names)
  }

  // ----- lemmas -----

  /** Dropping unknown names keeps the request order: it distributes over concatenation. */
  lemma {:induction false} KnownNamesAppend(a: seq<string>, b: seq<string>, registry: map<string, Server>)
    ensures KnownNames(a + b, registry) == KnownNames(a, registry) + KnownNames(b, registry)
    decreases |b|
  {
    if b == [] {
      assert a + b == a;
    } else {
      var b' := b[..|b| - 1];
      assert (a + b)[..|a + b| - 1] == a + b';
      assert (a + b)[|a + b| - 1] == b[|b| - 1];
      KnownNamesAppend(a, b', registry);
    }
  }

  /** The written record lists the known requested names in first-occurrence order. */
  lemma {:induction false} SelectionOrder(names: seq<string>, registry: map<string, Server>)
    ensures Selection(names, registry).order == Dedup(KnownNames(names, registry))
    decreases |names|
  {
    if names != [] {
      var prefix, last := names[..|names| - 1], names[|names| - 1];
      SelectionOrder(prefix, registry);
      var known := KnownNames(prefix, registry);
      if last in registry {
        assert KnownNames(names, registry) == known + [last];
        assert (known + [last])[..|known + [last]| - 1] == known;
      }
    }
  }

  /** One more requested name: assigned at the end when known, ignored otherwise. */
  lemma SelectionSnoc(names: seq<string>, last: string, registry: map<string, Server>)
    ensures Selection(names + [last], registry) ==
            if last in registry then Assign(Selection(names, registry), last, registry[last].config)
            else Selection(names, registry)
  {
  }

  /** Repeating a requested name changes nothing about the record written for it. */
  lemma SelectionRepeat(names: seq<string>, last: string, registry: map<string, Server>)
    requires last in names
    ensures Selection(names + [last], registry) == Selection(names, registry)
  {
  }

  /** Deduplicating a request changes nothing about the record written for it. */
  lemma {:induction false} SelectionDedup(names: seq<string>, registry: map<string, Server>)
    ensures Selection(Dedup(names), registry) == Selection(names, registry)
    decreases |names|
  {
    if names != [] {
      var prefix, last := names[..|names| - 1], names[|names| - 1];
      assert names == prefix + [last];
      SelectionDedup(prefix, registry);
      var d := Dedup(prefix);
      assert Dedup(names) == Insert(d, last);
      if last in d {
        assert last in Elems(d) && last in prefix;
        SelectionRepeat(prefix, last, registry);
      } else {
        SelectionSnoc(d, last, registry);
        SelectionSnoc(prefix, last, registry);
      }
    }
  }

  /** Order and duplicates in the request do not matter to the change test nor to the written entries. */
  lemma RequestOrderIrrelevant(f: Files, registry: map<string, Server>, a: seq<string>, b: seq<string>)
    requires Elems(a) == Elems(b)
    ensures HasChanges(CurrentServers(f.mcp), a) == HasChanges(CurrentServers(f.mcp), b)
    ensures Selection(a, registry).configs == Selection(b, registry).configs
  {
    var sa, sb := Selection(a, registry), Selection(b, registry);
    forall n
      ensures n in sa.configs <==> n in sb.configs
    {
      assert n in a <==> n in Elems(a);
      assert n in b <==> n in Elems(b);
    }
  }

  /** No change detected: no write, and the files are as they were. */
  lemma UnchangedMeansNoWrite(f: Files, registry: map<string, Server>, requested: seq<string>)
    requires Elems(requested) == Elems(CurrentServers(f.mcp))
    ensures WriteMcp(f, registry, requested) == f
  {
  }

  /** After a write, the enabled names are exactly the known requested names, in first-occurrence order. */
  lemma WrittenNames(f: Files, registry: map<string, Server>, requested: seq<string>)
    requires HasChanges(CurrentServers(f.mcp), requested)
    ensures CurrentServers(WriteMcp(f, registry, requested).mcp) == Dedup(KnownNames(requested, registry))
    ensures WriteMcp(f, registry, requested).writes == f.writes + [McpJson]
    ensures forall n :: n in requested && n !in registry ==>
              n !in CurrentServers(WriteMcp(f, registry, requested).mcp)
  {
    SelectionOrder(requested, registry);
  }

  /** Writing the same names twice: the second write is a no-op when every name is known. */
  lemma WriteTwiceKnown(f: Files, registry: map<string, Server>, requested: seq<string>)
    requires forall n :: n in requested ==> n in registry
    ensures var once := WriteMcp(f, registry, requested);
            !HasChanges(CurrentServers(once.mcp), requested) && WriteMcp(once, registry, requested) == once
  {
  }

  /** If the first write dropped an unknown name, the second call writes again. */
  lemma WriteTwiceDropped(f: Files, registry: map<string, Server>, requested: seq<string>, unknown: string)
    requires unknown in requested && unknown !in registry
    requires HasChanges(CurrentServers(f.mcp), requested)
    ensures var once := WriteMcp(f, registry, requested);
            HasChanges(CurrentServers(once.mcp), requested) &&
            WriteMcp(once, registry, requested).writes == once.writes + [McpJson]
  {
  }

  /** What `ensureSettingsFile` guarantees about the settings it leaves, and when it writes. */
  lemma EnsureSettingsOutcome(f: Files)
    ensures var g := EnsureSettings(f);
            var before, after := ReadSettings(f.settings), ReadSettings(g.settings);
            && FlagEnabled(after)
            && LegacyKey !in after
            && (forall k :: k != EnableAllKey && k != LegacyKey ==> (k in after <==> k in before))
            && (forall k :: k in after && k != EnableAllKey ==> after[k] == before[k])
            && g.mcp == f.mcp
            && g.writes == f.writes + (if NeedsNormalising(before) then [SettingsLocal] else [])
  {
  }

  /** `needsWrite` ends up set exactly when normalising changes the settings. */
  lemma NeedsWriteIffChanged(s: Settings)
    ensures NeedsNormalising(s) <==> Normalise(s) != s
  {
  }

  /** A second `ensureSettingsFile` right after the first writes nothing. */
  lemma EnsureSettingsIdempotent(f: Files)
    ensures EnsureSettings(EnsureSettings(f)) == EnsureSettings(f)
  {
  }

  /**
   `add` requests the current names followed by the new ones that are not
   already enabled, each once, in the order they were first given.
   */
  lemma AddRequestShape(current: seq<string>, names: seq<string>)
    requires Distinct(current)
    ensures AddRequest(current, names) == InsertAll(current, names)
    ensures var r := AddRequest(current, names);
            && current <= r
            && (forall k :: |current| <= k < |r| ==> r[k] in names && r[k] !in current)
            && (forall n :: n in names && n !in current ==> n in r[|current|..])
            && (forall i, j :: |current| <= i < j < |r| ==>
                  r[i] in names && r[j] in names && FirstIndex(names, r[i]) < FirstIndex(names, r[j]))
  {
    DedupAfterDistinct(current, names);
    InsertAllFresh(current, names);
    InsertAllOrder(current, names);
  }

  /** `remove` of names none of which is enabled requests exactly the current names, so nothing is written. */
  lemma RemoveNothingEnabled(f: Files, registry: map<string, Server>, names: seq<string>)
    requires Elems(names) !! Elems(CurrentServers(f.mcp))
    ensures RemoveRequest(CurrentServers(f.mcp), names) == CurrentServers(f.mcp)
    ensures WriteMcp(f, registry, RemoveRequest(CurrentServers(f.mcp), names)) == f
  {
    WithoutAbsent(CurrentServers(f.mcp), names);
  }

  /** Enabled `a, b`; `remove a` leaves `b` enabled. */
  lemma RemoveExample(f: Files, registry: map<string, Server>)
    requires CurrentServers(f.mcp) == ["a", "b"]
    requires "b" in registry
    ensures CurrentServers(WriteMcp(f, registry, RemoveRequest(["a", "b"], ["a"])).mcp) == ["b"]
  {
    assert ["a", "b"] == ["a"] + ["b"];
    WithoutAppend(["a"], ["b"], ["a"]);
    assert RemoveRequest(["a", "b"], ["a"]) == ["b"];
    assert "a" in Elems(CurrentServers(f.mcp)) && "a" !in Elems(["b"]);
    WrittenNames(f, registry, ["b"]);
    assert KnownNames(["b"], registry) == ["b"];
    DedupOfDistinct(["b"]);
  }

  /** `clear` leaves no server enabled, whatever was enabled before. */
  lemma ClearEmpties(f: Files, registry: map<string, Server>)
    ensures CurrentServers(Commit(f, registry, []).mcp) == []
  {
    if CurrentServers(f.mcp) != [] {
      assert CurrentServers(f.mcp)[0] in Elems(CurrentServers(f.mcp));
    }
  }

  // ----- the project directory -----

  class Workspace {
    const sources: Registry.Sources
    var mcpFile: Stored<ServerTable>
    var settingsFile: Stored<Settings>
    var writes: seq<Path>

    constructor (sources: Registry.Sources, mcpFile: Stored<ServerTable>, settingsFile: Stored<Settings>)
      ensures this.sources == sources
      ensures State() == Files(mcpFile, settingsFile, [])
    {
      this.sources := sources;
      this.mcpFile := mcpFile;
      this.settingsFile := settingsFile;
      this.writes := [];
    }

    function State(): Files
      reads this
    {
      Files(mcpFile, settingsFile, writes)
    }

    function Servers(): map<string, Server>
    {
      Registry.AllServers(sources)
    }

    function Profiles(): map<string, Profile>
    {
      Registry.AllProfiles(sources)
    }

    /** `writeMcpConfig`: returns whether it wrote. */
    method WriteMcpConfig(serverNames: seq<string>) returns (changed: bool)
      modifies this
      ensures changed == HasChanges(CurrentServers(old(mcpFile)), serverNames)
      ensures State() == WriteMcp(old(State()), Servers(), serverNames)
    {
      var allServers := Servers();
      var currentSet := Elems(CurrentServers(mcpFile));
      var newSet := Elems(serverNames);
      var hasChanges := |currentSet| != |newSet| || !(newSet <= currentSet);
      if !hasChanges {
        SameSizeSubsetIsEqual(newSet, currentSet);
        return false;
      }
      var mcpServers := EmptyTable;
      for i := 0 to |serverNames|
        invariant mcpServers == Selection(serverNames[..i], allServers)
      {
        var name := serverNames[i];
        assert serverNames[..i + 1][..i] == serverNames[..i];
        if name in allServers {
          mcpServers := Assign(mcpServers, name, allServers[name].config);
        }
      }
      assert serverNames[..|serverNames|] == serverNames;
      mcpFile := Parsed(mcpServers);
      writes := writes + [McpJson];
      changed := true;
    }

    /** `ensureSettingsFile`: flag forced on, legacy key deleted, written only if either was needed. */
    method EnsureSettingsFile()
      modifies this
      ensures State() == EnsureSettings(old(State()))
    {
      var settings := ReadSettings(settingsFile);
      ghost var original := settings;
      var needsWrite := false;
      if !FlagEnabled(settings) {
        settings := settings[EnableAllKey := JBool(true)];
        needsWrite := true;
      }
      if LegacyKey in settings {
        settings := settings - {LegacyKey};
        needsWrite := true;
      }
      if needsWrite {
        assert settings == Normalise(original);
        settingsFile := Parsed(settings);
        writes := writes + [SettingsLocal];
      }
    }

    method AddServers(serverNames: seq<string>)
      modifies this
      ensures State() == Commit(old(State()), Servers(), AddRequest(CurrentServers(old(mcpFile)), serverNames))
    {
      var current := CurrentServers(mcpFile);
      var combined := Dedup(current + serverNames);
      var _ := WriteMcpConfig(combined);
      EnsureSettingsFile();
    }

    method RemoveServers(serverNames: seq<string>)
      modifies this
      ensures State() == Commit(old(State()), Servers(), RemoveRequest(CurrentServers(old(mcpFile)), serverNames))
    {
      var current := CurrentServers(mcpFile);
      var remaining := Without(current, serverNames);
      var _ := WriteMcpConfig(remaining);
      EnsureSettingsFile();
    }

    method ClearServers()
      modifies this
      ensures State() == Commit(old(State()), Servers(), [])
    {
      var _ := WriteMcpConfig([]);
      EnsureSettingsFile();
    }
  }
}
