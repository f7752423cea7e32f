/**
 The command dispatcher: the classification of the command-line operands that
 runs before the command framework, and the bodies of the interactive default
 action and the `clear` command. The operator's checklist selection and the
 answer to the confirmation prompt are inputs.
 */
module Dispatcher {
  import opened Values
  import opened OrderedSet
  import opened ConfigStore
  import opened Profiles

  /** Names the command framework handles itself; a first operand among them is never a direct activation. */
  const CommandNames: seq<string> := ["list", "status", "profiles", "add", "remove", "clear"]

  /** `arg.startsWith('-')`. */
  predicate IsFlag(arg: string)
    ensures IsFlag(arg) <==> "-" <= arg
  {
    |arg| > 0 && arg[0] == '-'
  }

  /** The user's arguments with every flag removed. */
  function Operands(argv: seq<string>): (args: seq<string>)
    ensures forall a :: a in args ==> a in argv && !IsFlag(a)
    ensures forall a :: a in argv && !IsFlag(a) ==> a in args
    ensures |args| <= |argv|
  {
    if argv == [] then []
    else
      var prefix, last := argv[..|argv| - 1], argv[|argv| - 1];
      assert argv == prefix + [last];
      if IsFlag(last) then Operands(prefix) else Operands(prefix) + [last]
  }

  /** Where an invocation goes: a direct activation through one of the two resolver paths, or on to the command framework. */
  datatype Route = Multiple(tokens: seq<string>) | SingleProfile(name: string) | ToCommander

  function Classify(args: seq<string>, profiles: map<string, Profile>, servers: map<string, Server>): (r: Route)
    ensures r != ToCommander <==>
              |args| > 0 && Known(args[0], profiles, servers) && args[0] !in CommandNames
    ensures r.SingleProfile? ==> args == [r.name] && r.name in profiles
    ensures r.Multiple? ==> r.tokens == args && (|args| > 1 || args[0] !in profiles)
  {
    if |args| > 0 && (args[0] in profiles || args[0] in servers) && args[0] !in CommandNames then
      if |args| > 1 then Multiple(args)
      else if args[0] in profiles then SingleProfile(args[0])
      else Multiple(args)
    else
      ToCommander
  }

  /** Removing flags keeps the remaining operands in order: it distributes over concatenation. */
  lemma {:induction false} OperandsAppend(a: seq<string>, b: seq<string>)
    ensures Operands(a + b) == Operands(a) + Operands(b)
    decreases |b|
  {
    if b == [] {
      assert a + b == a;
    } else {
      var b' := b[..|b| - 1];
      assert (a + b)[..|a + b| - 1] == a + b';
      assert (a + b)[|a + b| - 1] == b[|b| - 1];
      OperandsAppend(a, b');
    }
  }

  /** A reserved command name goes to the command framework even when it also names a profile or server. */
  lemma ReservedNamesPassOn(args: seq<string>, profiles: map<string, Profile>, servers: map<string, Server>)
    requires |args| > 0 && args[0] in CommandNames
    ensures Classify(args, profiles, servers) == ToCommander
  {
  }

  /** `claude-config --yes work c`: the flag is dropped and the batch goes to the general resolver. */
  lemma FlagThenBatchExample(profiles: map<string, Profile>, servers: map<string, Server>)
    requires "work" in profiles
    ensures Operands(["--yes", "work", "c"]) == ["work", "c"]
    ensures Classify(Operands(["--yes", "work", "c"]), profiles, servers) == Multiple(["work", "c"])
  {
  }

  /**
   The direct-activation step before the command framework parses the
   arguments. `None` means the invocation is left to the framework; otherwise
   the process ends with the outcome's exit code.
   */
  method Dispatch(ws: Workspace, argv: seq<string>) returns (r: Option<Outcome>)
    modifies ws
    ensures match Classify(Operands(argv), ws.Profiles(), ws.Servers())
            case ToCommander => r == None && ws.State() == old(ws.State())
            case SingleProfile(name) =>
              r.Some? &&
              (r.value, ws.State()) == Activate(old(ws.State()), ws.Servers(), ProfileRequest(name, [], ws.Profiles()))
            case Multiple(tokens) =>
              r.Some? &&
              (r.value, ws.State()) ==
              Activate(old(ws.State()), ws.Servers(), Resolution(tokens, ws.Profiles(), ws.Servers()))
  {
    var profiles := ws.Profiles();
    var servers := ws.Servers();
    var args := Operands(argv);
    if |args| > 0 && (args[0] in profiles || args[0] in servers) {
      if args[0] !in CommandNames {
        var outcome;
        if |args| > 1 {
          outcome := ApplyMultiple(ws, args);
        } else if args[0] in profiles {
          outcome := ApplyProfile(ws, args[0], []);
        } else {
          outcome := ApplyMultiple(ws, args);
        }
        return Some(outcome);
      }
    }
    r := None;
  }

  datatype InteractiveResult = Updated(changed: bool) | Cancelled

  /**
   The default action: write the operator's selection and always ensure the
   settings. A cancelled prompt (`None`) changes nothing.
   */
  method InteractiveAction(ws: Workspace, selection: Option<seq<string>>) returns (r: InteractiveResult)
    modifies ws
    ensures selection.None? ==> r == Cancelled && ws.State() == old(ws.State())
    ensures selection.Some? ==>
              r == Updated(HasChanges(CurrentServers(old(ws.mcpFile)), selection.value)) &&
              ws.State() == Commit(old(ws.State()), ws.Servers(), selection.value)
  {
    if selection.None? {
      return Cancelled;
    }
    var changed := ws.WriteMcpConfig(selection.value);
    ws.EnsureSettingsFile();
    r := Updated(changed);
  }

  datatype ClearResult = NothingConfigured | Cleared | ClearDeclined

  /** The `clear` command: nothing to do when no server is enabled; otherwise clear only when confirmed. */
  method ClearCommand(ws: Workspace, confirmed: bool) returns (r: ClearResult)
    modifies ws
    ensures CurrentServers(old(ws.mcpFile)) == [] ==> r == NothingConfigured && ws.State() == old(ws.State())
    ensures CurrentServers(old(ws.mcpFile)) != [] && !confirmed ==> r == ClearDeclined && ws.State() == old(ws.State())
    ensures CurrentServers(old(ws.mcpFile)) != [] && confirmed ==>
              r == Cleared && ws.State() == Commit(old(ws.State()), ws.Servers(), []) &&
              CurrentServers(ws.mcpFile) == []
  {
    var current := CurrentServers(ws.mcpFile);
    if |current| == 0 {
      return NothingConfigured;
    }
    if confirmed {
      ClearEmpties(ws.State(), ws.Servers());
      ws.ClearServers();
      r := Cleared;
    } else {
      r := ClearDeclined;
    }
  }
}
