/**
 The profile resolver: expands a batch of profile and server names into one
 deduplicated server list and writes it, or aborts before any write.
 */
module Profiles {
  import opened Values
  import opened OrderedSet
  import opened ConfigStore
  import Registry

  /** The fatal errors, each of which ends the process with exit code 1. */
  datatype Failure =
    | UnknownToken(token: string)
    | NoServersToConfigure
    | ProfileNotFound(name: string)

  datatype Outcome = Completed(changed: bool) | Aborted(failure: Failure)
  {
    function ExitCode(): int
    {
      if Completed? then 0 else 1
    }
  }

  /** What one token adds: a profile's members (profiles win), else the server name itself; `None` when unknown. */
  function Contribution(token: string, profiles: map<string, Profile>, servers: map<string, Server>): (r: Option<seq<string>>)
    ensures r.None? <==> !Known(token, profiles, servers)
  {
    if token in profiles then Some(profiles[token].servers)
    else if token in servers then Some([token])
    else None
  }

  /** `profiles[arg]` or `servers[arg]` finds an entry. */
  predicate Known(token: string, profiles: map<string, Profile>, servers: map<string, Server>)
  {
    token in profiles || token in servers
  }

  /** The resolution loop over the tokens: the accumulated set, or the first unknown token. */
  function Resolve(tokens: seq<string>, profiles: map<string, Profile>, servers: map<string, Server>): (r: Result<seq<string>, Failure>)
    ensures r.Ok? ==> Distinct(r.value)
  {
    if tokens == [] then Ok([])
    else
      var prefix, last := tokens[..|tokens| - 1], tokens[|tokens| - 1];
      match Resolve(prefix, profiles, servers)
      case Err(e) => Err(e)
      case Ok(acc) =>
        match Contribution(last, profiles, servers)
        case None => Err(UnknownToken(last))
        case Some(names) => Ok(InsertAll(acc, names))
  }

  /** `applyMultiple`'s resolution, including its refusal of an empty result. */
  function Resolution(tokens: seq<string>, profiles: map<string, Profile>, servers: map<string, Server>): (r: Result<seq<string>, Failure>)
    ensures r.Ok? ==> r.value != [] && Distinct(r.value)
  {
    match Resolve(tokens, profiles, servers)
    case Ok(names) => if names == [] then Err(NoServersToConfigure) else Ok(names)
    case Err(e) => Err(e)
  }

  /** The reference definition: every token's contribution, concatenated in token order. */
  function Expand(tokens: seq<string>, profiles: map<string, Profile>, servers: map<string, Server>): seq<string>
  {
    if tokens == [] then []
    else
      var prefix, last := tokens[..|tokens| - 1], tokens[|tokens| - 1];
      Expand(prefix, profiles, servers) + Contribution(last, profiles, servers).GetOr([])
  }

  /** `applyProfile`'s request: the profile's members followed by the extra names. */
  function ProfileRequest(name: string, additional: seq<string>, profiles: map<string, Profile>): (r: Result<seq<string>, Failure>)
    ensures r.Ok? <==> name in profiles
    ensures r.Ok? ==> profiles[name].servers <= r.value && r.value[|profiles[name].servers|..] == additional
    ensures r.Err? ==> r.error == ProfileNotFound(name)
  {
    if name in profiles then Ok(profiles[name].servers + additional) else Err(ProfileNotFound(name))
  }

  /** Carry out a request: an error aborts with the files untouched, a name list is written and the settings ensured. */
  function Activate(f: Files, servers: map<string, Server>, request: Result<seq<string>, Failure>): (r: (Outcome, Files))
    ensures request.Err? ==> r == (Aborted(request.error), f) && r.0.ExitCode() == 1
    ensures request.Ok? ==>
              && r.0.Completed? && r.0.ExitCode() == 0
              && FlagEnabled(ReadSettings(r.1.settings))
  {
    match request
    case Err(e) => (Aborted(e), f)
    case Ok(names) => (Completed(HasChanges(CurrentServers(f.mcp), names)), Commit(f, servers, names))
  }

  // ----- lemmas -----

  /** A failure on some tokens is the failure on every longer batch: later tokens are never looked at. */
  lemma {:induction false} ResolveErrPersists(tokens: seq<string>, more: seq<string>, profiles: map<string, Profile>, servers: map<string, Server>)
    requires Resolve(tokens, profiles, servers).Err?
    ensures Resolve(tokens + more, profiles, servers) == Resolve(tokens, profiles, servers)
    decreases |more|
  {
    if more == [] {
      assert tokens + more == tokens;
    } else {
      var more' := more[..|more| - 1];
      assert (tokens + more)[..|tokens + more| - 1] == tokens + more';
      ResolveErrPersists(tokens, more', profiles, servers);
    }
  }

  /** When every token is known, resolution succeeds with the deduplicated expansion. */
  lemma {:induction false} ResolveKnown(tokens: seq<string>, profiles: map<string, Profile>, servers: map<string, Server>)
    requires forall t :: t in tokens ==> Known(t, profiles, servers)
    ensures Resolve(tokens, profiles, servers) == Ok(Dedup(Expand(tokens, profiles, servers)))
    decreases |tokens|
  {
    if tokens != [] {
      var prefix, last := tokens[..|tokens| - 1], tokens[|tokens| - 1];
      assert forall t :: t in prefix ==> t in tokens;
      ResolveKnown(prefix, profiles, servers);
      assert last in tokens;
      var names := Contribution(last, profiles, servers).value;
      InsertAllAppend([], Expand(prefix, profiles, servers), names);
    }
  }

  /** An unknown token after a successful prefix is the failure. */
  lemma ResolveStopsAt(prefix: seq<string>, last: string, profiles: map<string, Profile>, servers: map<string, Server>)
    requires Resolve(prefix, profiles, servers).Ok? && !Known(last, profiles, servers)
    ensures Resolve(prefix + [last], profiles, servers) == Err(UnknownToken(last))
  {
  }

  /**
   With an unknown token in the batch, resolution fails naming the first
   unknown token, whatever comes after it.
   */
  lemma {:induction false} ResolveUnknown(tokens: seq<string>, i: nat, profiles: map<string, Profile>, servers: map<string, Server>)
    requires i < |tokens| && !Known(tokens[i], profiles, servers)
    requires forall t :: t in tokens[..i] ==> Known(t, profiles, servers)
    ensures Resolve(tokens, profiles, servers) == Err(UnknownToken(tokens[i]))
    ensures Resolution(tokens, profiles, servers) == Err(UnknownToken(tokens[i]))
  {
    var upTo := tokens[..i + 1];
    ResolveKnown(tokens[..i], profiles, servers);
    ResolveStopsAt(tokens[..i], tokens[i], profiles, servers);
    assert tokens[..i] + [tokens[i]] == upTo;
    ResolveErrPersists(upTo, tokens[i + 1..], profiles, servers);
    assert upTo + tokens[i + 1..] == tokens;
  }

  /** Resolution either fails on an unknown token or yields exactly the names the tokens contribute, each once. */
  lemma ResolutionMeaning(tokens: seq<string>, profiles: map<string, Profile>, servers: map<string, Server>)
    ensures (forall t :: t in tokens ==> Known(t, profiles, servers)) <==> Resolve(tokens, profiles, servers).Ok?
    ensures Resolve(tokens, profiles, servers).Ok? ==>
              var names := Resolve(tokens, profiles, servers).value;
              Distinct(names) && Elems(names) == Elems(Expand(tokens, profiles, servers))
  {
  }

  /** A batch with an unknown token aborts with exit code 1 and leaves both files and the write log as they were. */
  lemma UnknownTokenAbortsBeforeWrite(f: Files, tokens: seq<string>, i: nat, profiles: map<string, Profile>, servers: map<string, Server>)
    requires i < |tokens| && !Known(tokens[i], profiles, servers)
    requires forall t :: t in tokens[..i] ==> Known(t, profiles, servers)
    ensures Activate(f, servers, Resolution(tokens, profiles, servers)) == (Aborted(UnknownToken(tokens[i])), f)
    ensures Activate(f, servers, Resolution(tokens, profiles, servers)).0.ExitCode() == 1
  {
    ResolveUnknown(tokens, i, profiles, servers);
  }

  /** Known tokens that contribute no names (profiles without members) abort without writing. */
  lemma EmptyResultAbortsBeforeWrite(f: Files, tokens: seq<string>, profiles: map<string, Profile>, servers: map<string, Server>)
    requires forall t :: t in tokens ==> t in profiles && profiles[t].servers == []
    ensures Activate(f, servers, Resolution(tokens, profiles, servers)) == (Aborted(NoServersToConfigure), f)
  {
    ResolveKnown(tokens, profiles, servers);
    NoMembersExpandToNothing(tokens, profiles, servers);
  }

  lemma {:induction false} NoMembersExpandToNothing(tokens: seq<string>, profiles: map<string, Profile>, servers: map<string, Server>)
    requires forall t :: t in tokens ==> t in profiles && profiles[t].servers == []
    ensures Expand(tokens, profiles, servers) == []
    decreases |tokens|
  {
    if tokens != [] {
      var prefix := tokens[..|tokens| - 1];
      assert forall t :: t in prefix ==> t in tokens;
      assert tokens[|tokens| - 1] in tokens;
      NoMembersExpandToNothing(prefix, profiles, servers);
    }
  }

  /** A name that is both a profile and a server expands as the profile. */
  lemma ProfileShadowsServer(name: string, profiles: map<string, Profile>, servers: map<string, Server>)
    requires name in profiles && name in servers
    ensures Resolve([name], profiles, servers) == Ok(Dedup(profiles[name].servers))
  {
  }

  /** Profile members are not checked against the server registry: a batch of profiles resolves the same whatever the servers. */
  lemma {:induction false} MembersUnchecked(tokens: seq<string>, profiles: map<string, Profile>, s1: map<string, Server>, s2: map<string, Server>)
    requires forall t :: t in tokens ==> t in profiles
    ensures Resolve(tokens, profiles, s1) == Resolve(tokens, profiles, s2)
    ensures Resolve(tokens, profiles, s1).Ok?
    decreases |tokens|
  {
    if tokens != [] {
      var prefix := tokens[..|tokens| - 1];
      assert forall t :: t in prefix ==> t in tokens;
      MembersUnchecked(prefix, profiles, s1, s2);
    }
  }

  /** Servers `a, b, c` and profile `work = [a, b]`: `work c` resolves to `a, b, c`. */
  lemma WorkProfileExample(profiles: map<string, Profile>, servers: map<string, Server>)
    requires "work" in profiles && profiles["work"].servers == ["a", "b"]
    requires "c" !in profiles && "c" in servers
    ensures Resolution(["work", "c"], profiles, servers) == Ok(["a", "b", "c"])
  {
    assert ["work", "c"][..1] == ["work"];
    assert ["work"][..0] == [];
    assert ["a", "b"][..1] == ["a"];
    assert ["a"][..0] == [];
    assert ["c"][..0] == [];
    assert InsertAll([], ["a"]) == ["a"];
    assert InsertAll([], ["a", "b"]) == ["a", "b"];
    assert Resolve(["work"], profiles, servers) == Ok(["a", "b"]);
    assert InsertAll(["a", "b"], ["c"]) == ["a", "b", "c"];
  }

  /**
   The single-profile shortcut and the general path agree on a profile with
   members; on a profile with no members the shortcut writes an empty list
   while the general path aborts.
   */
  lemma DirectPathsAgree(f: Files, name: string, profiles: map<string, Profile>, servers: map<string, Server>)
    requires name in profiles
    ensures profiles[name].servers != [] ==>
              Activate(f, servers, ProfileRequest(name, [], profiles)) ==
              Activate(f, servers, Resolution([name], profiles, servers))
    ensures profiles[name].servers == [] ==>
              Activate(f, servers, Resolution([name], profiles, servers)) == (Aborted(NoServersToConfigure), f) &&
              Activate(f, servers, ProfileRequest(name, [], profiles)).1 == Commit(f, servers, [])
  {
    var members := profiles[name].servers;
    var d := Dedup(members);
    assert [name][..0] == [];
    assert Resolve([name], profiles, servers) == Ok(d);
    assert ProfileRequest(name, [], profiles) == Ok(members) by {
      assert members + [] == members;
    }
    if members != [] {
      assert Resolution([name], profiles, servers) == Ok(d) by {
        assert members[0] in Elems(d);
      }
      var current := CurrentServers(f.mcp);
      assert HasChanges(current, d) == HasChanges(current, members);
      SelectionDedup(members, servers);
      assert WriteMcp(f, servers, d) == WriteMcp(f, servers, members);
    } else {
      assert d == [];
    }
  }

  // ----- the operations -----

  /** `applyProfile`: an unknown profile aborts; otherwise its members and the extra names are written. */
  method ApplyProfile(ws: Workspace, profileName: string, additionalServers: seq<string>) returns (outcome: Outcome)
    modifies ws
    ensures (outcome, ws.State()) ==
            Activate(old(ws.State()), ws.Servers(), ProfileRequest(profileName, additionalServers, ws.Profiles()))
  {
    var profile := Registry.GetProfile(ws.sources, profileName);
    if profile.None? {
      return Aborted(ProfileNotFound(profileName));
    }
    var servers := profile.value.servers + additionalServers;
    var changed := ws.WriteMcpConfig(servers);
    ws.EnsureSettingsFile();
    outcome := Completed(changed);
  }

  /** `applyMultiple`: classify each token, abort on an unknown one or an empty result, else write. */
  method ApplyMultiple(ws: Workspace, args: seq<string>) returns (outcome: Outcome)
    modifies ws
    ensures (outcome, ws.State()) ==
            Activate(old(ws.State()), ws.Servers(), Resolution(args, ws.Profiles(), ws.Servers()))
  {
    var profiles := ws.Profiles();
    var servers := ws.Servers();
    var allServers: seq<string> := [];
    for i := 0 to |args|
      invariant Resolve(args[..i], profiles, servers) == Ok(allServers)
    {
      var arg := args[i];
      assert args[..i + 1][..i] == args[..i];
      if arg in profiles {
        var members := profiles[arg].servers;
        ghost var before := allServers;
        for j := 0 to |members|
          invariant allServers == InsertAll(before, members[..j])
        {
          assert members[..j + 1][..j] == members[..j];
          allServers := Insert(allServers, members[j]);
        }
        assert members[..|members|] == members;
        assert Resolve(args[..i + 1], profiles, servers) == Ok(InsertAll(before, members));
      } else if arg in servers {
        assert [arg][..0] == [];
        assert Resolve(args[..i + 1], profiles, servers) == Ok(InsertAll(allServers, [arg]));
        allServers := Insert(allServers, arg);
      } else {
        ResolveErrPersists(args[..i + 1], args[i + 1..], profiles, servers);
        assert args[..i + 1] + args[i + 1..] == args;
        return Aborted(UnknownToken(arg));
      }
    }
    assert args[..|args|] == args;
    if |allServers| == 0 {
      return Aborted(NoServersToConfigure);
    }
    var changed := ws.WriteMcpConfig(allServers);
    ws.EnsureSettingsFile();
    outcome := Completed(changed);
  }
}
