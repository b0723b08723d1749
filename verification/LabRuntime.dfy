/**
 The laboratory runtime (scripts/virtual-lab/apx-lab-runtime.py) as a crash protocol: any call may
 fail, or the process be killed before or after its effect, unless the runtime is reliable.
 */
module LabRuntime {
  import opened Common
  import opened LabJournal

  datatype State = Stopped | Running

  /** A Btrfs subvolume, as far as the runtime configures it. */
  datatype Subvolume = Subvolume(referenced: Option<string>, exclusive: Option<string>,
                                 hostname: string, machineId: string, hubEndpoint: bool)

  datatype Registration = Registration(name: string, role: Role, generation: string, release: string,
                                       state: State, restoredFrom: Option<string>)

  /** An Environment's directory; `temporaries` are writers' process identities in leftover file names. */
  datatype Environment = Environment(root: Option<Subvolume>, home: Option<Subvolume>,
                                     registration: Option<Registration>, temporaries: set<nat>)

  datatype Manifest = Manifest(role: Role, release: string, root: Subvolume, home: Subvolume)

  const EMPTY := Environment(None, None, None, {})
  const NEW_SUBVOLUME := Subvolume(None, None, "", "", false)

  /** `[a-z][a-z0-9-]{0,31}`. */
  predicate ValidName(name: string) {
    && 1 <= |name| <= 32 && 'a' <= name[0] <= 'z'
    && (forall i | 1 <= i < |name| :: 'a' <= name[i] <= 'z' || '0' <= name[i] <= '9' || name[i] == '-')
  }

  function RoleText(role: Role): string {
    match role case Hub => "hub" case Development => "development" case Minimal => "minimal"
  }

  function ReleaseIdentity(role: Role): string {
    match role
    case Hub => "hub-headless-v3"
    case Development => "development-headless-v1"
    case Minimal => "minimal-headless-v1"
  }

  function RootLimit(role: Role): string {
    if role == Development then "16G" else "4G"
  }

  function HomeLimit(role: Role): string {
    if role == Development then "8G" else "2G"
  }

  function Machine(name: string): string {
    "apx-" + name
  }

  function Limited(volume: Subvolume, limit: string): Subvolume {
    volume.(referenced := Some(limit), exclusive := Some(limit))
  }

  /** What a published registration promises of its Environment. */
  predicate Published(name: string, env: Environment, record: Registration) {
    && record.name == name
    && env.root.Some? && env.home.Some?
    && env.root.value == Limited(env.root.value, RootLimit(record.role))
    && env.home.value == Limited(env.home.value, HomeLimit(record.role))
    && env.root.value.hostname == Machine(name) + "\n" && env.root.value.machineId == ""
    && (record.role == Hub && record.restoredFrom.None? ==> env.root.value.hubEndpoint)
  }

  predicate Sound(name: string, env: Environment) {
    env.registration.Some? ==> Published(name, env, env.registration.value)
  }

  function Configured(root: Subvolume, name: string): Subvolume {
    root.(hostname := Machine(name) + "\n", machineId := "")
  }

  /** The home goes before the root, and nothing else changes. */
  predicate PartlyRemoved(before: Environment, after: Environment) {
    after in {before, before.(home := None), before.(home := None, root := None)}
  }

  predicate HasState(env: Environment, state: State) {
    env.registration.Some? && env.registration.value.state == state
  }

  /** Nothing but the registration's state, and perhaps a leftover temporary. */
  predicate StateChanged(before: Environment, after: Environment, state: State, pid: nat) {
    && before.registration.Some? && after.root == before.root && after.home == before.home
    && after.registration in {before.registration, Some(before.registration.value.(state := state))}
    && before.temporaries <= after.temporaries <= before.temporaries + {pid}
  }

  /** What a completed creation leaves in its directory. */
  function Created(name: string, role: Role, generation: string, image: Subvolume): Environment {
    var root := Configured(Limited(image, RootLimit(role)), name);
    Environment(Some(if role == Hub then root.(hubEndpoint := true) else root),
                Some(Limited(NEW_SUBVOLUME, HomeLimit(role))),
                Some(Registration(name, role, generation, ReleaseIdentity(role), Stopped, None)), {})
  }

  /** What a completed restoration leaves. */
  function Restored(name: string, archive: string, generation: string, manifest: Manifest): Environment {
    Environment(Some(Configured(Limited(manifest.root, RootLimit(manifest.role)), name)),
                Some(Limited(manifest.home, HomeLimit(manifest.role))),
                Some(Registration(name, manifest.role, generation, manifest.release, Stopped, Some(archive))), {})
  }

  // ---------------------------------------------------------------- the journal and the directory

  /** The entries say this of the operation's effect. */
  predicate Logged(entries: seq<Entry>, effect: Effect, status: Status) {
    exists e :: e in entries && e.effect == effect && e.status == status
  }

  function At(environments: map<string, Environment>, name: string): Environment {
    if name in environments then environments[name] else EMPTY
  }

  predicate IsLimited(volume: Subvolume, limit: string) {
    volume.referenced == Some(limit) && volume.exclusive == Some(limit)
  }

  /** What `n` entries of a creation and its directory say of each other. */
  predicate CreatedUpTo(n: nat, name: string, role: Role, image: Option<Subvolume>, env: Environment) {
    && (env.root.Some? ==> n >= 2) && (n >= 3 ==> env.root.Some?)
    && (env.home.Some? ==> n >= 4)
    && (n >= 5 ==> && env.root.Some? && IsLimited(env.root.value, RootLimit(role))
                   && env.home.Some? && IsLimited(env.home.value, HomeLimit(role)))
    && (image.Some? && env.root.Some? && n < 6 ==>
          env.root.value.hostname == image.value.hostname && env.root.value.machineId == image.value.machineId)
    && (n >= 7 ==> && env.root.Some?
                   && env.root.value.hostname == Machine(name) + "\n" && env.root.value.machineId == ""
                   && (role == Hub ==> env.root.value.hubEndpoint))
    && (env.registration.Some? || env.temporaries != {} ==> n >= 8) && (n >= 9 ==> env.registration.Some?)
  }

  /** The same by what is logged: each effect after its "started" and before its "complete". */
  predicate CreationInOrder(entries: seq<Entry>, name: string, role: Role, image: Option<Subvolume>, env: Environment) {
    && (env.root.Some? ==> Logged(entries, RootEffect, Started))
    && (Logged(entries, RootEffect, Complete) ==> env.root.Some?)
    && (env.home.Some? ==> Logged(entries, HomeEffect, Started) && Logged(entries, RootEffect, Complete))
    && (Logged(entries, HomeEffect, Complete) ==>
          && env.root.Some? && IsLimited(env.root.value, RootLimit(role))
          && env.home.Some? && IsLimited(env.home.value, HomeLimit(role)))
    && (image.Some? && env.root.Some? && !Logged(entries, Configure, Started) ==>
          env.root.value.hostname == image.value.hostname && env.root.value.machineId == image.value.machineId)
    && (Logged(entries, Configure, Started) ==> Logged(entries, HomeEffect, Complete))
    && (Logged(entries, Configure, Complete) ==>
          && env.root.Some? && env.root.value.hostname == Machine(name) + "\n" && env.root.value.machineId == ""
          && (role == Hub ==> env.root.value.hubEndpoint))
    && (env.registration.Some? ==> Logged(entries, Publish, Started) && Logged(entries, Configure, Complete))
    && (Logged(entries, Publish, Complete) ==> env.registration.Some?)
    && (Logged(entries, Operation, Complete) ==> Logged(entries, Publish, Complete))
  }

  /** What `n` entries of a destruction, with those of its stop, and the directory say of each other. */
  predicate DestroyedUpTo(n: nat, before: Environment, present: bool, env: Environment) {
    && (env.root.Some? ==> env.root == before.root) && (env.home.Some? ==> env.home == before.home)
    && (env.registration.Some? ==> before.registration.Some?)
    && (env.root != before.root ==> n >= 8) && (n >= 9 ==> env.root.None?)
    && (env.home != before.home ==> n >= 6) && (n >= 7 ==> env.home.None?)
    && (before.registration.Some? && env.registration.None? ==> n >= 4) && (n >= 5 ==> env.registration.None?)
    && (env.registration != before.registration ==> n >= 2)
    && (n >= 3 && env.registration.Some? ==> env.registration.value.state == Stopped)
    && (!present ==> n >= 9) && (n >= 10 ==> !present)
  }

  predicate DestructionInOrder(entries: seq<Entry>, before: Environment, present: bool, env: Environment) {
    && (env.root.Some? ==> env.root == before.root) && (env.home.Some? ==> env.home == before.home)
    && (env.registration.Some? ==> before.registration.Some?)
    && (env.registration != before.registration ==> Logged(entries, Runtime, Started))
    && (Logged(entries, Runtime, Complete) && env.registration.Some? ==> env.registration.value.state == Stopped)
    && (before.registration.Some? && env.registration.None? ==>
          Logged(entries, Unpublish, Started) && Logged(entries, Runtime, Complete))
    && (Logged(entries, Unpublish, Complete) ==> env.registration.None?)
    && (env.home != before.home ==> Logged(entries, RemoveHome, Started) && Logged(entries, Unpublish, Complete))
    && (Logged(entries, RemoveHome, Complete) ==> env.home.None?)
    && (env.root != before.root ==> Logged(entries, RemoveRoot, Started) && Logged(entries, RemoveHome, Complete))
    && (Logged(entries, RemoveRoot, Complete) ==> env.root.None?)
    && (!present ==> Logged(entries, RemoveRoot, Complete))
    && (Logged(entries, Operation, Complete) ==> !present)
  }

  function LoadPlan(plans: map<Identity, Plan>, identity: Identity, action: Action): Result<Plan> {
    if identity !in plans || PlanDigest(plans[identity]) != identity || plans[identity].action != action then Failure
    else Success(plans[identity])
  }

  class LabRuntime {
    /** No call fails and the process is not killed. */
    const reliable: bool
    /** The admitted immutable release roots. */
    const releases: map<Role, Subvolume>
    /** The archives whose streams match their manifest. */
    const archives: map<string, Manifest>
    var journal: seq<Event>
    var environments: map<string, Environment>
    var plans: map<Identity, Plan>

    ghost predicate Valid()
      reads this
    {
      && Chained(journal) && Orderly(Log(journal))
      && forall name | name in environments :: Sound(name, environments[name])
    }

    constructor (reliable: bool, releases: map<Role, Subvolume>, archives: map<string, Manifest>)
      ensures Valid() && journal == [] && environments == map[] && plans == map[]
      ensures this.reliable == reliable && this.releases == releases && this.archives == archives
    {
      this.reliable, this.releases, this.archives := reliable, releases, archives;
      journal, environments, plans := [], map[], map[];
    }

    // ---------------------------------------------------------------- single calls

    /** `append_event`, taken as atomic: on an exception nothing was written. */
    method Append(entry: Entry) returns (outcome: Outcome, ghost written: bool)
      modifies this`journal
      ensures journal == if written then Extend(old(journal), [entry]) else old(journal)
      ensures (outcome == Done ==> written) && (outcome == Raised ==> !written)
      ensures reliable ==> outcome == Done
    {
      outcome := Fate(reliable);
      written := outcome == Done;
      if outcome == Crashed {
        var late := *;
        written := late;
        if !late {
          return;
        }
      }
      if outcome != Raised {
        journal := journal + [Event(entry, Head(journal))];
      }
    }

    /** The next entry of a script of which `n` entries are written. */
    method Note(entry: Entry, ghost before: seq<Event>, ghost script: seq<Entry>, ghost n: nat)
        returns (outcome: Outcome, ghost next: nat)
      requires n < |script| && entry == script[n] && journal == Extend(before, script[..n])
      modifies this`journal
      ensures n <= next <= n + 1 && journal == Extend(before, script[..next])
      ensures (outcome == Done ==> next == n + 1) && (outcome == Raised ==> next == n)
      ensures reliable ==> outcome == Done
    {
      ghost var written;
      outcome, written := Append(entry);
      next := if written then n + 1 else n;
      ExtendTwice(before, script[..n], [entry]);
      assert script[..n] + [entry] == script[..n + 1];
    }

    /** One command or file call meant to turn a directory into `after`. */
    method Change(name: string, after: Environment, ghost base: map<string, Environment>)
        returns (outcome: Outcome, ghost now: Environment)
      requires name in environments && environments == base[name := environments[name]]
      modifies this`environments
      ensures environments == base[name := now] && now in {old(environments)[name], after}
      ensures outcome == Done ==> now == after
      ensures reliable ==> outcome == Done
    {
      outcome := Fate(reliable);
      var happened := true;
      if outcome != Done {
        happened := *;
      }
      if happened {
        environments := environments[name := after];
      }
      now := environments[name];
    }

    /** `write_text`: the file is emptied, then written. */
    method WriteHostname(name: string, ghost base: map<string, Environment>)
        returns (outcome: Outcome, ghost now: Environment)
      requires name in environments && environments == base[name := environments[name]]
      requires environments[name].root.Some?
      modifies this`environments
      ensures environments == base[name := now]
      ensures now.registration == old(environments)[name].registration
              && now.temporaries == old(environments)[name].temporaries
      ensures now.home == old(environments)[name].home && now.root.Some?
              && now.root.value.(hostname := "") == old(environments)[name].root.value.(hostname := "")
      ensures outcome == Done ==>
                var env := old(environments)[name];
                now == env.(root := Some(env.root.value.(hostname := Machine(name) + "\n")))
      ensures reliable ==> outcome == Done
    {
      var env := environments[name];
      outcome, now := Change(name, env.(root := Some(env.root.value.(hostname := ""))), base);
      if outcome == Done {
        outcome, now := Change(name, env.(root := Some(env.root.value.(hostname := Machine(name) + "\n"))), base);
      }
    }

    /** `atomic_json` on a registration: only the replacement publishes, and it publishes the whole record. */
    method WriteRegistration(name: string, record: Registration, pid: nat, ghost base: map<string, Environment>)
        returns (outcome: Outcome, ghost now: Environment)
      requires name in environments && environments == base[name := environments[name]]
      modifies this`environments
      ensures environments == base[name := now]
      ensures var env := old(environments)[name];
              && now.root == env.root && now.home == env.home
              && now.registration in {env.registration, Some(record)}
              && env.temporaries <= now.temporaries <= env.temporaries + {pid}
              && (outcome == Done ==> now == env.(registration := Some(record)))
      ensures reliable ==> (outcome == Done <==> pid !in old(environments)[name].temporaries)
    {
      var env := environments[name];
      now := env;
      outcome := Fate(reliable);
      if outcome != Done {
        return;
      }
      if pid in env.temporaries {
        return Raised, now;
      }
      outcome, now := Change(name, env.(temporaries := env.temporaries + {pid}), base);
      assert env.temporaries + {pid} - {pid} == env.temporaries;
      if outcome != Done {
        return;
      }
      outcome := Fate(reliable);
      if outcome == Done {
        outcome, now := Change(name, env.(registration := Some(record)), base);
        if outcome == Done {
          outcome := Fate(reliable);
        }
      }
      if outcome == Raised {
        var cleaned;
        cleaned, now := Change(name, environments[name].(temporaries := environments[name].temporaries - {pid}), base);
        if cleaned == Crashed {
          outcome := Crashed;
        }
      }
    }

    /** `apply_limits`: four quota calls over both subvolumes. */
    method ApplyLimits(name: string, role: Role, ghost base: map<string, Environment>)
        returns (outcome: Outcome, ghost now: Environment)
      requires name in environments && environments == base[name := environments[name]]
      requires environments[name].root.Some? && environments[name].home.Some?
      modifies this`environments
      ensures environments == base[name := now]
      ensures now.registration == old(environments)[name].registration
              && now.temporaries == old(environments)[name].temporaries
      ensures now.root.Some? && now.home.Some?
              && Limited(now.root.value, "") == Limited(old(environments)[name].root.value, "")
      ensures outcome == Done ==>
                var env := old(environments)[name];
                now == env.(root := Some(Limited(env.root.value, RootLimit(role))),
                            home := Some(Limited(env.home.value, HomeLimit(role))))
      ensures reliable ==> outcome == Done
    {
      var env := environments[name];
      var limit := RootLimit(role);
      outcome, now := Change(name, env.(root := Some(env.root.value.(referenced := Some(limit)))), base);
      if outcome != Done {
        return;
      }
      outcome, now := Change(name, env.(root := Some(Limited(env.root.value, limit))), base);
      if outcome != Done {
        return;
      }
      env, limit := environments[name], HomeLimit(role);
      outcome, now := Change(name, env.(home := Some(env.home.value.(referenced := Some(limit)))), base);
      if outcome != Done {
        return;
      }
      outcome, now := Change(name, env.(home := Some(Limited(env.home.value, limit))), base);
    }

    /** `target.mkdir`. */
    method MakeDirectory(name: string) returns (outcome: Outcome)
      modifies this`environments
      ensures environments == old(environments)
              || (name !in old(environments) && environments == old(environments)[name := EMPTY])
      ensures outcome == Done ==> name in environments && name !in old(environments)
      ensures outcome == Raised ==> environments == old(environments)
      ensures reliable ==> (outcome == Done <==> name !in old(environments))
    {
      outcome := Fate(reliable);
      if outcome == Raised || (outcome == Done && name in environments) {
        return Raised;
      }
      var happened := outcome == Done;
      if outcome == Crashed {
        happened := *;
      }
      if happened && name !in environments {
        environments := environments[name := EMPTY];
      }
    }

    /** `target.rmdir`, which refuses anything left inside. */
    method RemoveDirectory(name: string) returns (outcome: Outcome)
      requires name in environments
      modifies this`environments
      ensures environments == old(environments)
              || (old(environments)[name] == EMPTY && environments == old(environments) - {name})
      ensures outcome == Done ==> name !in environments
      ensures outcome == Raised ==> environments == old(environments)
      ensures reliable ==> (outcome == Done <==> old(environments)[name] == EMPTY)
    {
      outcome := Fate(reliable);
      if outcome == Raised || (outcome == Done && environments[name] != EMPTY) {
        return Raised;
      }
      var happened := outcome == Done;
      if outcome == Crashed {
        happened := *;
      }
      if happened && environments[name] == EMPTY {
        environments := environments - {name};
      }
    }

    /** `make_plan`: a plan is stored under its own digest. */
    method MakePlan(action: Action, name: string, role: Option<Role>, generation: string)
        returns (outcome: Outcome, identity: Identity)
      modifies this`plans
      ensures var plan := Plan(action, name, role, generation);
              && identity == PlanDigest(plan)
              && plans in {old(plans), old(plans)[identity := plan]}
              && (outcome == Done ==> plans == old(plans)[identity := plan])
              && (plans != old(plans) ==> ValidName(name) && MayPlan(action, name, role))
              && (reliable ==> (outcome == Done <==> ValidName(name) && MayPlan(action, name, role)))
    {
      var plan := Plan(action, name, role, generation);
      identity := PlanDigest(plan);
      if !ValidName(name) || !PlanAdmitted(plan) {
        return Raised, identity;
      }
      outcome := Fate(reliable);
      var happened := true;
      if outcome != Done {
        happened := *;
      }
      if happened {
        plans := plans[identity := plan];
      }
    }

    /** A new name for an admitted role, or a name whose registration is its own. */
    predicate MayPlan(action: Action, name: string, role: Option<Role>)
      reads this
    {
      || (action == Creation && role.Some? && role.value in releases && name !in environments)
      || (action == Destruction && name in environments && environments[name].registration.Some?
          && environments[name].registration.value.name == name)
    }

    predicate PlanAdmitted(plan: Plan)
      reads this
    {
      match plan.action
      case Creation => plan.role.Some? && plan.name !in environments && plan.role.value in releases
      case Destruction => Registered(plan.name).Some?
      case _ => false
    }

    /** `registration`: the authoritative record, when there is one. */
    function Registered(name: string): (record: Option<Registration>)
      reads this
      ensures record.Some? ==> name in environments && environments[name].registration == record
    {
      if name in environments && environments[name].registration.Some?
         && environments[name].registration.value.name == name
      then environments[name].registration
      else None
    }

    // ---------------------------------------------------------------- create

    /** The admitted release's root, if there is one. */
    function Image(role: Role): Option<Subvolume> {
      if role in releases then Some(releases[role]) else None
    }

    /** The "root" effect: a snapshot of the admitted release. */
    method CreateRoot(operation: string, name: string, role: Role, plan: Identity,
                      ghost before: seq<Event>, ghost base: map<string, Environment>)
        returns (outcome: Outcome, ghost n: nat, ghost now: Environment)
      requires name in environments && environments == base[name := EMPTY]
      requires journal == Extend(before, CreateScript(operation, name, plan)[..1])
      modifies this`journal, this`environments
      ensures 1 <= n <= 3 && journal == Extend(before, CreateScript(operation, name, plan)[..n])
      ensures environments == base[name := now] && now.registration.None?
      ensures CreatedUpTo(n, name, role, Image(role), now)
      ensures outcome == Done ==> n == 3 && role in releases && now == EMPTY.(root := Some(releases[role]))
      ensures reliable ==> (outcome == Done <==> role in releases)
    {
      ghost var script := CreateScript(operation, name, plan);
      now := EMPTY;
      outcome, n := Note(Entry(operation, Creation, RootEffect, Started, name, Nothing), before, script, 1);
      if outcome != Done {
        return;
      }
      outcome := Fate(reliable);
      if outcome != Done {
        return;
      }
      if role !in releases {
        return Raised, n, now;
      }
      outcome, now := Change(name, EMPTY.(root := Some(releases[role])), base);
      if outcome != Done {
        return;
      }
      outcome, n := Note(Entry(operation, Creation, RootEffect, Complete, name, Nothing), before, script, 2);
    }

    /** The "home" effect: a new subvolume, and the limits of both. */
    method CreateHome(operation: string, name: string, role: Role, plan: Identity,
                      ghost before: seq<Event>, ghost base: map<string, Environment>)
        returns (outcome: Outcome, ghost n: nat, ghost now: Environment)
      requires name in environments && environments == base[name := environments[name]]
      requires environments[name].root.Some? && environments[name].registration.None?
      requires journal == Extend(before, CreateScript(operation, name, plan)[..3])
      modifies this`journal, this`environments
      ensures 3 <= n <= 5 && journal == Extend(before, CreateScript(operation, name, plan)[..n])
      ensures environments == base[name := now] && now.registration.None?
      ensures old(environments)[name] == EMPTY.(root := Image(role)) ==> CreatedUpTo(n, name, role, Image(role), now)
      ensures outcome == Done ==>
                && n == 5
                && now == old(environments)[name].(
                            root := Some(Limited(old(environments)[name].root.value, RootLimit(role))),
                            home := Some(Limited(NEW_SUBVOLUME, HomeLimit(role))))
      ensures reliable ==> outcome == Done
    {
      ghost var script := CreateScript(operation, name, plan);
      now := environments[name];
      outcome, n := Note(Entry(operation, Creation, HomeEffect, Started, name, Nothing), before, script, 3);
      if outcome != Done {
        return;
      }
      outcome, now := Change(name, environments[name].(home := Some(NEW_SUBVOLUME)), base);
      if outcome != Done {
        return;
      }
      outcome, now := ApplyLimits(name, role, base);
      if outcome != Done {
        return;
      }
      outcome, n := Note(Entry(operation, Creation, HomeEffect, Complete, name, Nothing), before, script, 4);
    }

    /** The "configure" effect. */
    method ConfigureRoot(operation: string, name: string, role: Role, plan: Identity,
                         ghost before: seq<Event>, ghost base: map<string, Environment>)
        returns (outcome: Outcome, ghost n: nat, ghost now: Environment)
      requires name in environments && environments == base[name := environments[name]]
      requires environments[name].root.Some? && environments[name].registration.None?
      requires journal == Extend(before, CreateScript(operation, name, plan)[..5])
      modifies this`journal, this`environments
      ensures 5 <= n <= 7 && journal == Extend(before, CreateScript(operation, name, plan)[..n])
      ensures environments == base[name := now] && now.registration.None?
      ensures old(CreatedUpTo(5, name, role, Image(role), environments[name])) ==>
                CreatedUpTo(n, name, role, Image(role), now)
      ensures outcome == Done ==>
                var env := old(environments)[name];
                var root := Configured(env.root.value, name);
                n == 7 && now == env.(root := Some(if role == Hub then root.(hubEndpoint := true) else root))
      ensures reliable ==> outcome == Done
    {
      ghost var script := CreateScript(operation, name, plan);
      now := environments[name];
      outcome, n := Note(Entry(operation, Creation, Configure, Started, name, Nothing), before, script, 5);
      if outcome != Done {
        return;
      }
      outcome, now := WriteHostname(name, base);
      if outcome != Done {
        return;
      }
      var env := environments[name];
      outcome, now := Change(name, env.(root := Some(env.root.value.(machineId := ""))), base);
      if outcome != Done {
        return;
      }
      if role == Hub {
        env := environments[name];
        outcome, now := Change(name, env.(root := Some(env.root.value.(hubEndpoint := true))), base);
        if outcome != Done {
          return;
        }
      }
      outcome, n := Note(Entry(operation, Creation, Configure, Complete, name, Nothing), before, script, 6);
    }

    /** The "publish" effect and the completion of the operation. */
    method PublishNew(operation: string, name: string, record: Registration, plan: Identity, pid: nat,
                      ghost before: seq<Event>, ghost base: map<string, Environment>)
        returns (outcome: Outcome, ghost n: nat, ghost now: Environment)
      requires name in environments && environments == base[name := environments[name]]
      requires environments[name].registration.None? && environments[name].temporaries == {}
      requires journal == Extend(before, CreateScript(operation, name, plan)[..7])
      modifies this`journal, this`environments
      ensures 7 <= n <= 10 && journal == Extend(before, CreateScript(operation, name, plan)[..n])
      ensures environments == base[name := now]
      ensures var env := old(environments)[name];
              && now.root == env.root && now.home == env.home && now.registration in {None, Some(record)}
              && (now != env ==> n >= 8) && (n >= 9 ==> now == env.(registration := Some(record)))
              && (outcome == Done ==> n == 10 && now == env.(registration := Some(record)))
      ensures outcome == Raised ==> n < 10
      ensures reliable ==> outcome == Done
    {
      ghost var script := CreateScript(operation, name, plan);
      now := environments[name];
      outcome, n := Note(Entry(operation, Creation, Publish, Started, name, Nothing), before, script, 7);
      if outcome != Done {
        return;
      }
      outcome, now := WriteRegistration(name, record, pid, base);
      if outcome != Done {
        return;
      }
      outcome, n := Note(Entry(operation, Creation, Publish, Complete, name, Nothing), before, script, 8);
      if outcome != Done {
        return;
      }
      outcome, n := Note(Entry(operation, Creation, Operation, Complete, name, Nothing), before, script, 9);
    }

    /** The guarded part of `create`. */
    method CreateSteps(operation: string, name: string, role: Role, plan: Identity, generation: string, pid: nat,
                       ghost before: seq<Event>, ghost base: map<string, Environment>)
        returns (outcome: Outcome, ghost n: nat, ghost now: Environment)
      requires name in environments && environments == base[name := EMPTY]
      requires journal == Extend(before, CreateScript(operation, name, plan)[..1])
      modifies this`journal, this`environments
      ensures 1 <= n <= 10 && journal == Extend(before, CreateScript(operation, name, plan)[..n])
      ensures environments == base[name := now] && Sound(name, now)
      ensures CreatedUpTo(n, name, role, Image(role), now)
      ensures n >= 9 ==> role in releases && now == Created(name, role, generation, releases[role])
      ensures outcome == Done ==> n == 10 && role in releases && now == Created(name, role, generation, releases[role])
      ensures outcome == Raised ==> n < 10
      ensures reliable ==> (outcome == Done <==> role in releases)
    {
      outcome, n, now := CreateRoot(operation, name, role, plan, before, base);
      if outcome != Done {
        return;
      }
      outcome, n, now := CreateHome(operation, name, role, plan, before, base);
      if outcome != Done {
        return;
      }
      outcome, n, now := ConfigureRoot(operation, name, role, plan, before, base);
      if outcome != Done {
        return;
      }
      var record := Registration(name, role, generation, ReleaseIdentity(role), Stopped, None);
      outcome, n, now := PublishNew(operation, name, record, plan, pid, before, base);
    }

    /**
     `create`. Whatever happens the registration appears last and whole, and the journal holds the
     operation's entries up to where it stopped, with the report of uncertainty if it raised inside.
     */
    method Create(identity: Identity, approval: string, operation: string, pid: nat)
        returns (outcome: Outcome, ghost name: string, ghost cut: Cut)
      requires Valid() && Statuses(Log(journal), operation) == []
      modifies this`journal, this`environments
      ensures Valid()
      ensures CutOf(cut, CreateScript(operation, name, identity))
              && journal == Extend(old(journal),
                                   Written(CreateScript(operation, name, identity),
                                           Entry(operation, Creation, Operation, Uncertain, name, Nothing), cut))
      ensures if cut.n == 0 then environments == old(environments) else name !in old(environments)
      ensures environments == old(environments)
              || (name !in old(environments) && name in environments
                  && environments == old(environments)[name := environments[name]])
      ensures outcome == Done ==>
                && identity.PlanDigest? && LoadPlan(plans, identity, Creation) == Success(identity.plan)
                && name == identity.plan.name && name in environments && name !in old(environments)
                && identity.plan.role.Some? && identity.plan.role.value in releases
                && cut == Cut(10, false)
                && environments[name] == Created(name, identity.plan.role.value, identity.plan.generation,
                                                 releases[identity.plan.role.value])
                && environments[name].registration.Some?
                && var record := environments[name].registration.value;
                   && record.state == Stopped && record.generation == identity.plan.generation
                   && record.release == ReleaseIdentity(identity.plan.role.value) && record.restoredFrom.None?
      ensures cut.n > 0 ==>
                && identity.PlanDigest? && identity.plan.role.Some? && name == identity.plan.name
                && CreationInOrder(Written(CreateScript(operation, name, identity),
                                           Entry(operation, Creation, Operation, Uncertain, name, Nothing), cut),
                                   name, identity.plan.role.value, Image(identity.plan.role.value),
                                   At(environments, name))
      ensures cut.n == 10 <==> Complete in Statuses(Log(journal), operation)
      ensures reliable ==>
                (outcome == Done <==>
                 && LoadPlan(plans, identity, Creation).Success?
                 && ValidName(identity.plan.name) && identity.plan.name !in old(environments)
                 && identity.plan.role.Some? && identity.plan.role.value in releases
                 && approval == "CREATE " + identity.plan.name + " AS " + RoleText(identity.plan.role.value))
    {
      hide Written, CreateScript, CreatedUpTo, CreationInOrder, Statuses, Log, Extend, Chained, Orderly, Published;
      name, cut := "", Cut(0, false);
      NotBegun(journal, CreateScript(operation, name, identity),
               Entry(operation, Creation, Operation, Uncertain, name, Nothing));
      outcome := Fate(reliable);
      if outcome != Done {
        return;
      }
      var plan := LoadPlan(plans, identity, Creation);
      if plan.Failure? || plan.value.role.None?
         || approval != Approval(plan.value.name, plan.value.role.value)
         || !ValidName(plan.value.name) || plan.value.name in environments
      {
        return Raised, name, cut;
      }
      outcome, name, cut := CreateAdmitted(identity, plan.value, operation, pid);
      CreatedIsInOrder(operation, name, identity, cut, plan.value.role.value, Image(plan.value.role.value),
                       At(environments, name));
    }

    /** `create` from its first append on. */
    method CreateAdmitted(identity: Identity, plan: Plan, operation: string, pid: nat)
        returns (outcome: Outcome, ghost name: string, ghost cut: Cut)
      requires Valid() && Statuses(Log(journal), operation) == []
      requires plan.role.Some? && plan.name !in environments
      modifies this`journal, this`environments
      ensures Valid() && name == plan.name
      ensures CutOf(cut, CreateScript(operation, name, identity))
              && journal == Extend(old(journal),
                                   Written(CreateScript(operation, name, identity),
                                           Entry(operation, Creation, Operation, Uncertain, name, Nothing), cut))
      ensures cut.n == 0 ==> environments == old(environments)
      ensures environments == old(environments)
              || (name in environments && environments == old(environments)[name := environments[name]])
      ensures CreatedUpTo(cut.n, name, plan.role.value, Image(plan.role.value), At(environments, name))
      ensures cut.n >= 9 ==>
                && plan.role.value in releases
                && At(environments, name) == Created(name, plan.role.value, plan.generation, releases[plan.role.value])
      ensures outcome == Done ==>
                && cut == Cut(10, false) && plan.role.value in releases && name in environments
                && environments[name] == Created(name, plan.role.value, plan.generation, releases[plan.role.value])
      ensures cut.n == 10 <==> Complete in Statuses(Log(journal), operation)
      ensures reliable ==> (outcome == Done <==> plan.role.value in releases)
    {
      hide Published, Created, Statuses, Orderly, Chained, Written;
      ghost var before, base := journal, environments;
      name := plan.name;
      ghost var script := CreateScript(operation, name, identity);
      ghost var n, now;
      outcome, n := Note(Entry(operation, Creation, Operation, Started, plan.name, OfPlan(identity)), before,
                         script, 0);
      cut := Cut(n, false);
      if outcome == Done {
        outcome := MakeDirectory(plan.name);
        if outcome == Done {
          outcome, n, now :=
            CreateSteps(operation, plan.name, plan.role.value, identity, plan.generation, pid, before, base);
          cut := Cut(n, false);
          if outcome == Raised {
            var reported, written := Append(Entry(operation, Creation, Operation, Uncertain, plan.name, Nothing));
            cut := Cut(n, written);
            if reported == Crashed {
              outcome := Crashed;
            }
          }
        }
      }
      JournalAfterCreate(before, operation, name, identity, cut, journal);
    }

    // ---------------------------------------------------------------- start and stop

    /** An append in an error path, before the error is raised again. */
    method Report(uncertain: Entry) returns (outcome: Outcome, ghost written: bool)
      modifies this`journal
      ensures journal == if written then Extend(old(journal), [uncertain]) else old(journal)
      ensures outcome != Done
      ensures reliable ==> written
    {
      outcome, written := Append(uncertain);
      if outcome == Done {
        outcome := Raised;
      }
    }

    /** The rewriting of a registration's state, and the "complete" of a start or stop. */
    method ChangeState(operation: string, action: Action, name: string, state: State, pid: nat,
                       ghost before: seq<Event>) returns (outcome: Outcome, ghost n: nat)
      requires Registered(name).Some? && Sound(name, environments[name])
      requires journal == Extend(before, RuntimeScript(operation, action, name)[..1])
      modifies this`journal, this`environments
      ensures 1 <= n <= 2 && journal == Extend(before, RuntimeScript(operation, action, name)[..n])
      ensures name in environments && environments == old(environments)[name := environments[name]]
      ensures Sound(name, environments[name])
      ensures StateChanged(old(environments)[name], environments[name], state, pid)
      ensures n == 2 ==> environments[name].registration == Some(old(Registered(name)).value.(state := state))
      ensures outcome == Done ==>
                && n == 2
                && environments[name] == old(environments)[name].(
                                           registration := Some(old(Registered(name)).value.(state := state)))
      ensures reliable ==> (outcome == Done <==> pid !in old(environments)[name].temporaries)
    {
      ghost var base, now := environments, environments[name];
      var record := Registered(name).value;
      n := 1;
      outcome, now := WriteRegistration(name, record.(state := state), pid, base);
      if outcome == Done {
        outcome, n := Note(Entry(operation, action, Runtime, Complete, name, Nothing), before,
                           RuntimeScript(operation, action, name), 1);
      }
    }

    /** What `start` and `stop` may do to the environments. */
    twostate predicate OnlyStateOf(new name: string, new state: State, new pid: nat)
      reads this
    {
      || environments == old(environments)
      || (old(Registered(name)).Some? && name in old(environments) && name in environments
          && environments == old(environments)[name := environments[name]]
          && StateChanged(old(environments)[name], environments[name], state, pid))
    }

    /**
     `stop`; `residue` says whether the machine was still seen running after the poweroff and the wait.
     */
    method Stop(name: string, operation: string, pid: nat, residue: bool)
        returns (outcome: Outcome, ghost cut: Cut)
      requires Valid()
      modifies this`journal, this`environments
      ensures Valid() && OnlyStateOf(name, Stopped, pid)
      ensures environments != old(environments) ==> cut.n >= 1 && !residue
      ensures cut.n == 2 ==> name in environments && HasState(environments[name], Stopped)
      ensures CutOf(cut, RuntimeScript(operation, Stopping, name))
              && journal == Extend(old(journal),
                                   Written(RuntimeScript(operation, Stopping, name),
                                           Entry(operation, Stopping, Runtime, Uncertain, name, Nothing), cut))
      ensures outcome == Done ==>
                && old(Registered(name)).Some? && name in environments && !residue && cut == Cut(2, false)
                && environments[name] == old(environments)[name].(
                                           registration := Some(old(Registered(name)).value.(state := Stopped)))
      ensures reliable ==>
                (outcome == Done <==>
                 && old(Registered(name)).Some? && !residue && pid !in old(environments)[name].temporaries)
    {
      ghost var before, script := journal, RuntimeScript(operation, Stopping, name);
      cut := Cut(0, false);
      if Registered(name).None? {
        return Raised, cut;
      }
      outcome := Fate(reliable);
      if outcome != Done {
        return;
      }
      ghost var n, written;
      outcome, n := Note(Entry(operation, Stopping, Runtime, Started, name, Nothing), before, script, 0);
      cut := Cut(n, false);
      if outcome == Done {
        if residue {
          outcome, written := Report(Entry(operation, Stopping, Runtime, Uncertain, name, Nothing));
          cut := Cut(n, written);
        } else {
          outcome := Fate(reliable);
          if outcome == Done {
            outcome, n := ChangeState(operation, Stopping, name, Stopped, pid, before);
            cut := Cut(n, false);
          }
        }
      }
      RuntimeJournal(before, operation, Stopping, name, cut, journal);
    }

    /**
     `start`; the observations: was the machine running already, did the Hub's executor endpoint
     exist, did the machine register, did it become usable.
     */
    method Start(name: string, operation: string, pid: nat, running: bool, endpoint: bool, registers: bool,
                 usable: bool)
        returns (outcome: Outcome, ghost cut: Cut)
      requires Valid()
      modifies this`journal, this`environments
      ensures Valid() && OnlyStateOf(name, Running, pid)
      ensures environments != old(environments) ==> cut.n >= 1 && !running && registers && usable
      ensures cut.n == 2 ==> name in environments && HasState(environments[name], Running)
      ensures CutOf(cut, RuntimeScript(operation, Activation, name))
              && journal == Extend(old(journal),
                                   Written(RuntimeScript(operation, Activation, name),
                                           Entry(operation, Activation, Runtime, Uncertain, name, Nothing), cut))
      ensures outcome == Done ==>
                && old(Registered(name)).Some? && name in environments
                && if running then cut == Cut(0, false) && environments == old(environments)
                   else
                     && registers && usable && cut == Cut(2, false)
                     && (old(Registered(name)).value.role == Hub ==> endpoint)
                     && environments[name] == old(environments)[name].(
                                                registration := Some(old(Registered(name)).value.(state := Running)))
      ensures reliable ==>
                (outcome == Done <==>
                 && old(Registered(name)).Some?
                 && (running || (&& (old(Registered(name)).value.role == Hub ==> endpoint) && registers && usable
                                 && pid !in old(environments)[name].temporaries)))
    {
      ghost var before, script := journal, RuntimeScript(operation, Activation, name);
      cut := Cut(0, false);
      if Registered(name).None? {
        return Raised, cut;
      }
      outcome := Fate(reliable);
      if outcome != Done || running {
        return;
      }
      if Registered(name).value.role == Hub && !endpoint {
        return Raised, cut;
      }
      ghost var n, written;
      outcome, n := Note(Entry(operation, Activation, Runtime, Started, name, Nothing), before, script, 0);
      cut := Cut(n, false);
      if outcome == Done {
        outcome := Fate(reliable);
        if outcome == Done {
          if !registers || !usable {
            outcome, written := Report(Entry(operation, Activation, Runtime, Uncertain, name, Nothing));
            cut := Cut(n, written);
          } else {
            outcome, n := ChangeState(operation, Activation, name, Running, pid, before);
            cut := Cut(n, false);
          }
        }
      }
      RuntimeJournal(before, operation, Activation, name, cut, journal);
    }

    // ---------------------------------------------------------------- destroy

    /** `delete_subvolume_tree` on the home, between its two entries. */
    method RemoveHomeTree(operation: string, stopping: string, name: string, plan: Identity,
                          ghost before: seq<Event>, ghost base: map<string, Environment>)
        returns (outcome: Outcome, ghost n: nat, ghost now: Environment)
      requires name in environments && environments == base[name := environments[name]]
      requires environments[name].registration.None?
      requires journal == Extend(before, DestroyScript(operation, stopping, name, plan)[..5])
      modifies this`journal, this`environments
      ensures 5 <= n <= 7 && journal == Extend(before, DestroyScript(operation, stopping, name, plan)[..n])
      ensures environments == base[name := now] && now.registration.None?
      ensures var env := old(environments)[name];
              now in {env, env.(home := None)} && (now != env ==> n >= 6) && (n >= 7 ==> now == env.(home := None))
      ensures outcome == Done ==> n == 7 && now == old(environments)[name].(home := None)
      ensures reliable ==> outcome == Done
    {
      ghost var script := DestroyScript(operation, stopping, name, plan);
      now := environments[name];
      outcome, n := Note(Entry(operation, Destruction, RemoveHome, Started, name, Nothing), before, script, 5);
      if outcome != Done {
        return;
      }
      if environments[name].home.Some? {
        outcome, now := Change(name, environments[name].(home := None), base);
        if outcome != Done {
          return;
        }
      }
      outcome, n := Note(Entry(operation, Destruction, RemoveHome, Complete, name, Nothing), before, script, 6);
    }

    /** The same on the root. */
    method RemoveRootTree(operation: string, stopping: string, name: string, plan: Identity,
                          ghost before: seq<Event>, ghost base: map<string, Environment>)
        returns (outcome: Outcome, ghost n: nat, ghost now: Environment)
      requires name in environments && environments == base[name := environments[name]]
      requires environments[name].registration.None?
      requires journal == Extend(before, DestroyScript(operation, stopping, name, plan)[..7])
      modifies this`journal, this`environments
      ensures 7 <= n <= 9 && journal == Extend(before, DestroyScript(operation, stopping, name, plan)[..n])
      ensures environments == base[name := now] && now.registration.None?
      ensures var env := old(environments)[name];
              now in {env, env.(root := None)} && (now != env ==> n >= 8) && (n >= 9 ==> now == env.(root := None))
      ensures outcome == Done ==> n == 9 && now == old(environments)[name].(root := None)
      ensures reliable ==> outcome == Done
    {
      ghost var script := DestroyScript(operation, stopping, name, plan);
      now := environments[name];
      outcome, n := Note(Entry(operation, Destruction, RemoveRoot, Started, name, Nothing), before, script, 7);
      if outcome != Done {
        return;
      }
      if environments[name].root.Some? {
        outcome, now := Change(name, environments[name].(root := None), base);
        if outcome != Done {
          return;
        }
      }
      outcome, n := Note(Entry(operation, Destruction, RemoveRoot, Complete, name, Nothing), before, script, 8);
    }

    /** The "unpublish" effect: the registration is unlinked. */
    method Withdraw(operation: string, stopping: string, name: string, plan: Identity,
                    ghost before: seq<Event>, ghost base: map<string, Environment>)
        returns (outcome: Outcome, ghost n: nat, ghost now: Environment)
      requires name in environments && environments == base[name := environments[name]]
      requires journal == Extend(before, DestroyScript(operation, stopping, name, plan)[..3])
      modifies this`journal, this`environments
      ensures 3 <= n <= 5 && journal == Extend(before, DestroyScript(operation, stopping, name, plan)[..n])
      ensures var env := old(environments)[name];
              environments == base[name := now] && now in {env, env.(registration := None)}
              && (now != env ==> n >= 4) && (n >= 5 ==> now == env.(registration := None))
              && (outcome == Done ==> n == 5 && now == env.(registration := None))
      ensures reliable ==> outcome == Done
    {
      ghost var script := DestroyScript(operation, stopping, name, plan);
      now := environments[name];
      outcome, n := Note(Entry(operation, Destruction, Unpublish, Started, name, Nothing), before, script, 3);
      if outcome != Done {
        return;
      }
      outcome, now := Change(name, environments[name].(registration := None), base);
      if outcome != Done {
        return;
      }
      outcome, n := Note(Entry(operation, Destruction, Unpublish, Complete, name, Nothing), before, script, 4);
    }

    /** `destroy` after the stop: the registration goes first, then home, root and directory. */
    method Dismantle(operation: string, stopping: string, name: string, plan: Identity, ghost before: seq<Event>)
        returns (outcome: Outcome, ghost n: nat)
      requires name in environments && Sound(name, environments[name])
      requires journal == Extend(before, DestroyScript(operation, stopping, name, plan)[..3])
      modifies this`journal, this`environments
      ensures 3 <= n <= 10 && journal == Extend(before, DestroyScript(operation, stopping, name, plan)[..n])
      ensures || environments == old(environments) - {name}
              || (name in environments && environments == old(environments)[name := environments[name]]
                  && Sound(name, environments[name]))
      ensures HasState(old(environments)[name], Stopped) ==>
                DestroyedUpTo(n, old(environments)[name], name in environments, At(environments, name))
      ensures outcome == Done ==> n == 10 && name !in environments
      ensures outcome == Raised ==> n < 10
      ensures reliable ==> (outcome == Done <==> old(environments)[name].temporaries == {})
    {
      hide Extend;
      ghost var script := DestroyScript(operation, stopping, name, plan);
      ghost var base, now := environments, environments[name];
      outcome, n, now := Withdraw(operation, stopping, name, plan, before, base);
      if outcome != Done {
        return;
      }
      outcome, n, now := RemoveHomeTree(operation, stopping, name, plan, before, base);
      if outcome != Done {
        return;
      }
      outcome, n, now := RemoveRootTree(operation, stopping, name, plan, before, base);
      if outcome != Done {
        return;
      }
      outcome := RemoveDirectory(name);
      if outcome != Done {
        return;
      }
      outcome, n := Note(Entry(operation, Destruction, Operation, Complete, name, Nothing), before, script, 9);
    }

    /**
     `destroy`. It reports nothing when it raises: only the stop inside it may add its own report.
     */
    method Destroy(identity: Identity, approval: string, operation: string, stopping: string, pid: nat, residue: bool)
        returns (outcome: Outcome, ghost name: string, ghost cut: Cut)
      requires Valid() && Statuses(Log(journal), operation) == []
      modifies this`journal, this`environments
      ensures Valid()
      ensures CutOf(cut, DestroyScript(operation, stopping, name, identity)) && (cut.reported ==> cut.n == 2)
              && journal == Extend(old(journal),
                                   Written(DestroyScript(operation, stopping, name, identity),
                                           Entry(stopping, Stopping, Runtime, Uncertain, name, Nothing), cut))
      ensures || environments == old(environments)
              || environments == old(environments) - {name}
              || (name in old(environments) && name in environments
                  && environments == old(environments)[name := environments[name]])
      ensures environments != old(environments) ==> old(Registered(name)).Some?
      ensures name in old(environments) ==>
                DestructionInOrder(Written(DestroyScript(operation, stopping, name, identity),
                                           Entry(stopping, Stopping, Runtime, Uncertain, name, Nothing), cut),
                                   old(environments)[name], name in environments, At(environments, name))
      ensures outcome == Done ==>
                && identity.PlanDigest? && LoadPlan(plans, identity, Destruction) == Success(identity.plan)
                && name == identity.plan.name && old(Registered(name)).Some? && !residue
                && cut == Cut(10, false) && environments == old(environments) - {name}
      ensures cut.n == 10 <==> Complete in Statuses(Log(journal), operation)
      ensures reliable ==>
                (outcome == Done <==>
                 && LoadPlan(plans, identity, Destruction).Success?
                 && approval == "DESTROY " + identity.plan.name
                 && old(Registered(identity.plan.name)).Some? && !residue
                 && old(environments)[identity.plan.name].temporaries == {})
    {
      hide Written, DestroyScript, DestroyedUpTo, DestructionInOrder, Statuses, Log, Extend, Chained, Orderly, Sound;
      ghost var before := environments;
      name, cut := "", Cut(0, false);
      NotBegun(journal, DestroyScript(operation, stopping, name, identity),
               Entry(stopping, Stopping, Runtime, Uncertain, name, Nothing));
      if name in before {
        NothingDestroyed(operation, stopping, name, identity, before[name]);
      }
      outcome := Fate(reliable);
      if outcome != Done {
        return;
      }
      var plan := LoadPlan(plans, identity, Destruction);
      if plan.Failure? || approval != "DESTROY " + plan.value.name {
        return Raised, name, cut;
      }
      outcome, cut := DestroyApproved(identity, plan.value.name, operation, stopping, pid, residue);
      name := plan.value.name;
      if name in before {
        DestroyedIsInOrder(operation, stopping, name, identity, cut, before[name], name in environments,
                           At(environments, name));
      }
    }

    method DestroyApproved(identity: Identity, name: string, operation: string, stopping: string, pid: nat,
                           residue: bool)
        returns (outcome: Outcome, ghost cut: Cut)
      requires Valid() && Statuses(Log(journal), operation) == []
      modifies this`journal, this`environments
      ensures Valid()
      ensures CutOf(cut, DestroyScript(operation, stopping, name, identity)) && (cut.reported ==> cut.n == 2)
              && journal == Extend(old(journal),
                                   Written(DestroyScript(operation, stopping, name, identity),
                                           Entry(stopping, Stopping, Runtime, Uncertain, name, Nothing), cut))
      ensures || environments == old(environments)
              || environments == old(environments) - {name}
              || (name in old(environments) && name in environments
                  && environments == old(environments)[name := environments[name]])
      ensures environments != old(environments) ==> old(Registered(name)).Some?
      ensures name in old(environments) ==>
                DestroyedUpTo(cut.n, old(environments)[name], name in environments, At(environments, name))
      ensures outcome == Done ==>
                && old(Registered(name)).Some? && !residue
                && cut == Cut(10, false) && environments == old(environments) - {name}
      ensures cut.n == 10 <==> Complete in Statuses(Log(journal), operation)
      ensures reliable ==>
                (outcome == Done <==>
                 old(Registered(name)).Some? && !residue && old(environments)[name].temporaries == {})
    {
      hide Chained, Orderly, Lifecycle, Log, Statuses, Framed, Sound, Extend;
      ghost var before, script := journal, DestroyScript(operation, stopping, name, identity);
      ghost var n;
      DestroyIsFramed(operation, stopping, name, identity);
      NothingWritten(before, script);
      outcome, n := Note(Entry(operation, Destruction, Operation, Started, name, OfPlan(identity)), before, script, 0);
      cut := Cut(n, false);
      StartedJournal(before, script, operation, cut, journal);
      if outcome == Done {
        ghost var stopped, base := journal, environments;
        outcome, cut := Stop(name, stopping, pid, residue);
        cut := StopInsideDestroy(before, operation, stopping, name, identity, cut, journal);
        if outcome == Done {
          outcome, n := Dismantle(operation, stopping, name, identity, before);
          cut := Cut(n, false);
        }
      }
      FramedJournal(before, script, operation, Entry(stopping, Stopping, Runtime, Uncertain, name, Nothing),
                    cut, journal);
    }

    // ---------------------------------------------------------------- restore

    /** The guarded part of `restore`. */
    method RestoreSteps(operation: string, archive: string, name: string, generation: string, pid: nat,
                        ghost before: seq<Event>, ghost base: map<string, Environment>)
        returns (outcome: Outcome, ghost n: nat, ghost now: Environment)
      requires archive in archives && name in environments && environments == base[name := EMPTY]
      requires journal == Extend(before, RestoreScript(operation, name, archive)[..1])
      modifies this`journal, this`environments
      ensures 1 <= n <= 2 && journal == Extend(before, RestoreScript(operation, name, archive)[..n])
      ensures environments == base[name := now] && Sound(name, now)
      ensures now.home.Some? ==> now.root.Some?
      ensures now.registration.Some? || n == 2 ==>
                now.(temporaries := {}) == Restored(name, archive, generation, archives[archive])
      ensures outcome == Done ==> n == 2 && now == Restored(name, archive, generation, archives[archive])
      ensures outcome == Raised ==> n == 1
      ensures reliable ==> outcome == Done
    {
      var manifest := archives[archive];
      n := 1;
      outcome, now := Change(name, EMPTY.(root := Some(manifest.root)), base);
      if outcome != Done {
        return;
      }
      outcome, now := Change(name, EMPTY.(root := Some(manifest.root), home := Some(manifest.home)), base);
      if outcome != Done {
        return;
      }
      outcome, now := ApplyLimits(name, manifest.role, base);
      if outcome != Done {
        return;
      }
      outcome, now := WriteHostname(name, base);
      if outcome != Done {
        return;
      }
      var env := environments[name];
      outcome, now := Change(name, env.(root := Some(env.root.value.(machineId := ""))), base);
      if outcome != Done {
        return;
      }
      var record := Registration(name, manifest.role, generation, manifest.release, Stopped, Some(archive));
      outcome, now := WriteRegistration(name, record, pid, base);
      if outcome != Done {
        return;
      }
      outcome, n := Note(Entry(operation, Restoration, Operation, Complete, name, OfArchive(archive)), before,
                         RestoreScript(operation, name, archive), 1);
    }

    /**
     `restore`. The directory is made before the first entry: a process killed between the two leaves
     an empty directory the journal never mentions.
     */
    method Restore(archive: string, name: string, approval: string, generation: string, operation: string, pid: nat)
        returns (outcome: Outcome, ghost cut: Cut)
      requires Valid() && Statuses(Log(journal), operation) == []
      modifies this`journal, this`environments
      ensures Valid()
      ensures CutOf(cut, RestoreScript(operation, name, archive))
              && journal == Extend(old(journal),
                                   Written(RestoreScript(operation, name, archive),
                                           Entry(operation, Restoration, Operation, Uncertain, name,
                                                 OfArchive(archive)),
                                           cut))
      ensures if cut.n == 0
              then environments == old(environments)
                   || (name !in old(environments) && environments == old(environments)[name := EMPTY])
              else name !in old(environments)
      ensures environments == old(environments)
              || (name !in old(environments) && name in environments
                  && environments == old(environments)[name := environments[name]])
      ensures outcome == Done ==>
                && archive in archives && name in environments && name !in old(environments) && cut == Cut(2, false)
                && environments[name] == Restored(name, archive, generation, archives[archive])
                && environments[name].registration
                   == Some(Registration(name, archives[archive].role, generation, archives[archive].release, Stopped,
                                        Some(archive)))
      ensures cut.n == 2 || (name !in old(environments) && At(environments, name).registration.Some?) ==>
                && archive in archives
                && At(environments, name).(temporaries := {}) == Restored(name, archive, generation, archives[archive])
      ensures name !in old(environments) ==>
                && (At(environments, name) != EMPTY ==> cut.n >= 1)
                && (At(environments, name).home.Some? ==> At(environments, name).root.Some?)
      ensures cut.n == 2 <==> Complete in Statuses(Log(journal), operation)
      ensures reliable ==>
                (outcome == Done <==>
                 && ValidName(name) && name !in old(environments) && archive in archives
                 && approval == "RESTORE " + archive + " AS " + name)
    {
      hide Chained, Orderly, Lifecycle, Log, Statuses, Framed, Published, Extend;
      ghost var before, script, base := journal, RestoreScript(operation, name, archive), environments;
      NothingWritten(before, script);
      cut := Cut(0, false);
      ghost var n, now, written := 0, EMPTY, false;
      outcome := Fate(reliable);
      if outcome == Done {
        if !ValidName(name) || approval != "RESTORE " + archive + " AS " + name || name in environments
           || archive !in archives
        {
          outcome := Raised;
        } else {
          outcome := MakeDirectory(name);
        }
      }
      if outcome == Done {
        outcome, n := Note(Entry(operation, Restoration, Operation, Started, name, OfArchive(archive)), before,
                           script, 0);
        cut := Cut(n, false);
        if outcome == Done {
          outcome, n, now := RestoreSteps(operation, archive, name, generation, pid, before, base);
          cut := Cut(n, false);
          if outcome == Raised {
            outcome, written := Report(Entry(operation, Restoration, Operation, Uncertain, name, OfArchive(archive)));
            cut := Cut(n, written);
          }
        }
      }
      RestoreIsFramed(operation, name, archive);
      FramedJournal(before, script, operation,
                    Entry(operation, Restoration, Operation, Uncertain, name, OfArchive(archive)), cut, journal);
    }

    // ---------------------------------------------------------------- recovery

    /** `recover`: exactly the operations that started and for which no completion was ever written. */
    method Recover() returns (uncertain: set<string>)
      requires Valid()
      ensures forall operation :: operation in uncertain <==> Unsettled(Log(journal), operation)
    {
      hide Statuses, Lifecycle, Orderly, Unsettled;
      var operations: map<string, Status> := map[];
      ghost var log := Log(journal);
      NoStatuses();
      for i := 0 to |journal|
        invariant forall operation :: LastStatus(operations, log[..i], operation)
      {
        var entry := journal[i].entry;
        ghost var seen := log[..i + 1];
        assert seen == log[..i] + [entry];
        ghost var was := operations;
        if entry.effect == Operation {
          operations := operations[entry.operation := entry.status];
        }
        forall operation ensures LastStatus(operations, seen, operation) {
          assert LastStatus(was, log[..i], operation);
          StatusesConcat(log[..i], [entry], operation);
          SingleStatus(entry, operation);
        }
      }
      assert log[..|journal|] == log;
      uncertain := set operation | operation in operations && operations[operation] != Complete;
      forall operation ensures operation in uncertain <==> Unsettled(log, operation) {
        assert LastStatus(operations, log, operation);
        ReportIsExact(log, operation);
      }
    }

    /** The scan of `recover_unpublished`, newest line first. */
    method FindAttempt(name: string) returns (found: Option<Entry>)
      ensures found == LatestAttempt(Log(journal), name)
    {
      ghost var log := Log(journal);
      var i := |journal|;
      assert log[..i] == log;
      while i > 0
        invariant i <= |journal| && LatestAttempt(log[..i], name) == LatestAttempt(log, name)
      {
        i := i - 1;
        assert log[..i + 1][..i] == log[..i];
        if IsAttempt(journal[i].entry, name) {
          return Some(journal[i].entry);
        }
      }
      found := None;
    }

    /**
     `recover_unpublished`: removes home, root and directory of an unpublished name and completes the
     newest creation or restoration the journal has for it. It notices foreign content only once the
     subvolumes are gone.
     */
    method RecoverUnpublished(name: string, approval: string, running: bool)
        returns (outcome: Outcome, found: Option<Entry>)
      requires Valid()
      modifies this`journal, this`environments
      ensures Valid()
      ensures || environments == old(environments)
              || environments == old(environments) - {name}
              || (name in old(environments) && name in environments && environments[name].registration.None?
                  && environments == old(environments)[name := environments[name]]
                  && PartlyRemoved(old(environments)[name], environments[name]))
      ensures environments != old(environments) ==>
                && old(environments)[name].registration.None? && !running
                && found == LatestAttempt(Log(old(journal)), name) && found.Some?
      ensures journal != old(journal) ==>
                && found.Some? && found == LatestAttempt(Log(old(journal)), name)
                && environments == old(environments) - {name}
                && journal == Extend(old(journal), [Cleaned(found.value, name)])
                && journal == Extend(old(journal), [Entry(found.value.operation, found.value.action, Operation,
                                                          Complete, name, ApprovedClean)])
      ensures outcome == Done ==> journal != old(journal)
      ensures forall operation ::
                Unsettled(Log(journal), operation)
                <==> && Unsettled(Log(old(journal)), operation)
                     && (journal != old(journal) ==> found.Some? && operation != found.value.operation)
      ensures reliable ==>
                (outcome == Done <==>
                 && old(Cleanable(name)) && approval == "CLEAN UNPUBLISHED " + name && !running
                 && old(environments)[name].temporaries == {})
      ensures reliable && old(Cleanable(name)) && approval == "CLEAN UNPUBLISHED " + name && !running
              && old(environments)[name].temporaries != {}
              ==> environments == old(environments)[name := EMPTY.(temporaries := old(environments)[name].temporaries)]
    {
      hide Chained, Orderly, Statuses, Lifecycle, Unsettled, Extend;
      found := None;
      outcome := Fate(reliable);
      if outcome != Done {
        return;
      }
      if !ValidName(name) || approval != "CLEAN UNPUBLISHED " + name
         || name !in environments || environments[name].registration.Some? || running
      {
        return Raised, found;
      }
      found := FindAttempt(name);
      if found.None? {
        return Raised, found;
      }
      ghost var base := environments;
      outcome := RemoveTrees(name, base);
      if outcome != Done {
        return;
      }
      outcome := RemoveDirectory(name);
      if outcome != Done {
        return;
      }
      ghost var written;
      outcome, written := Append(Cleaned(found.value, name));
      if written {
        JournalAfterCleaning(old(journal), found.value, name);
      }
    }

    /** Home and root deleted, in that order. */
    method RemoveTrees(name: string, ghost base: map<string, Environment>) returns (outcome: Outcome)
      requires name in environments && environments == base[name := environments[name]]
      requires environments[name].registration.None?
      modifies this`environments
      ensures name in environments && environments == base[name := environments[name]]
      ensures environments[name].registration.None? && PartlyRemoved(old(environments)[name], environments[name])
      ensures outcome == Done ==> environments[name] == EMPTY.(temporaries := old(environments)[name].temporaries)
      ensures reliable ==> outcome == Done
    {
      ghost var now;
      outcome := Done;
      if environments[name].home.Some? {
        outcome, now := Change(name, environments[name].(home := None), base);
      }
      if outcome == Done && environments[name].root.Some? {
        outcome, now := Change(name, environments[name].(root := None), base);
      }
    }

    /** An unpublished directory the journal has an attempt for. */
    predicate Cleanable(name: string)
      reads this
    {
      && ValidName(name) && name in environments && environments[name].registration.None?
      && LatestAttempt(Log(journal), name).Some?
    }
  }

  lemma JournalAfterCreate(before: seq<Event>, operation: string, name: string, plan: Identity, cut: Cut,
                           after: seq<Event>)
    requires Chained(before) && Orderly(Log(before)) && Statuses(Log(before), operation) == []
    requires CutOf(cut, CreateScript(operation, name, plan))
    requires after == if cut.reported
                      then Extend(Extend(before, CreateScript(operation, name, plan)[..cut.n]),
                                  [Entry(operation, Creation, Operation, Uncertain, name, Nothing)])
                      else Extend(before, CreateScript(operation, name, plan)[..cut.n])
    ensures after == Extend(before, Written(CreateScript(operation, name, plan),
                                            Entry(operation, Creation, Operation, Uncertain, name, Nothing), cut))
    ensures Chained(after) && Orderly(Log(after))
    ensures cut.n == 10 <==> Complete in Statuses(Log(after), operation)
  {
    FramedJournal(before, CreateScript(operation, name, plan), operation,
                  Entry(operation, Creation, Operation, Uncertain, name, Nothing), cut, after);
  }

  /** The journal after a new operation was cut short anywhere. */
  lemma FramedJournal(before: seq<Event>, script: seq<Entry>, operation: string, uncertain: Entry, cut: Cut,
                      after: seq<Event>)
    requires Chained(before) && Orderly(Log(before)) && Statuses(Log(before), operation) == []
    requires Framed(script, operation) && CutOf(cut, script)
    requires uncertain.effect == Operation ==> uncertain.operation == operation && uncertain.status == Uncertain
    requires after == if cut.reported then Extend(Extend(before, script[..cut.n]), [uncertain])
                      else Extend(before, script[..cut.n])
    ensures after == Extend(before, Written(script, uncertain, cut))
    ensures Chained(after) && Orderly(Log(after))
    ensures cut.n == |script| <==> Complete in Statuses(Log(after), operation)
    ensures cut.n > 0 <==> Started in Statuses(Log(after), operation)
  {
    hide Framed, Chained, Orderly, Statuses, SpeaksOnlyFor, Lifecycle;
    FramedIsLong(script, operation);
    ExtendTwice(before, script[..cut.n], [uncertain]);
    assert script[..cut.n] + [] == script[..cut.n];
    var entries := Written(script, uncertain, cut);
    ExtendKeepsTheChain(before, entries);
    FramedTraces(script, operation, uncertain, cut);
    CutLifecycles(Statuses(entries, operation));
    OrderlyAfterNewOperation(Log(before), entries, operation);
  }

  /** Starting and stopping say nothing about operations as a whole. */
  lemma RuntimeJournal(before: seq<Event>, operation: string, action: Action, name: string, cut: Cut, after: seq<Event>)
    requires Chained(before) && Orderly(Log(before))
    requires var script := RuntimeScript(operation, action, name);
             && CutOf(cut, script)
             && after == if cut.reported then Extend(Extend(before, script[..cut.n]),
                                                     [Entry(operation, action, Runtime, Uncertain, name, Nothing)])
                         else Extend(before, script[..cut.n])
    ensures after == Extend(before, Written(RuntimeScript(operation, action, name),
                                            Entry(operation, action, Runtime, Uncertain, name, Nothing), cut))
    ensures Chained(after) && Orderly(Log(after))
    ensures forall other :: Statuses(Log(after), other) == Statuses(Log(before), other)
  {
    var script := RuntimeScript(operation, action, name);
    var uncertain := Entry(operation, action, Runtime, Uncertain, name, Nothing);
    var entries := Written(script, uncertain, cut);
    assert forall e | e in entries :: e.effect != Operation;
    hide Chained, Orderly, Statuses, Lifecycle;
    ExtendTwice(before, script[..cut.n], [uncertain]);
    assert script[..cut.n] + [] == script[..cut.n];
    ExtendKeepsTheChain(before, entries);
    OrderlyAfterSilence(Log(before), entries);
  }

  lemma OrderlyAfterSilence(log: seq<Entry>, entries: seq<Entry>)
    requires Orderly(log) && forall e | e in entries :: e.effect != Operation
    ensures Orderly(log + entries)
    ensures forall other :: Statuses(log + entries, other) == Statuses(log, other)
  {
    hide Statuses, Lifecycle;
    forall other ensures Statuses(log + entries, other) == Statuses(log, other) {
      StatusesConcat(log, entries, other);
      SilentEntries(entries, other);
    }
  }

  lemma StartedJournal(before: seq<Event>, script: seq<Entry>, operation: string, cut: Cut, after: seq<Event>)
    requires Chained(before) && Orderly(Log(before)) && Statuses(Log(before), operation) == []
    requires Framed(script, operation) && cut.n <= |script| && !cut.reported && after == Extend(before, script[..cut.n])
    ensures Chained(after) && Orderly(Log(after))
  {
    FramedJournal(before, script, operation, Entry(operation, Destruction, RootEffect, Uncertain, "", Nothing), cut,
                  after);
  }

  /** What a stop writes, seen from the destruction that called it. */
  lemma StopInsideDestroy(before: seq<Event>, operation: string, stopping: string, name: string, plan: Identity,
                          stop: Cut,
                          after: seq<Event>)
      returns (cut: Cut)
    requires CutOf(stop, RuntimeScript(stopping, Stopping, name))
    requires after == Extend(Extend(before, DestroyScript(operation, stopping, name, plan)[..1]),
                             Written(RuntimeScript(stopping, Stopping, name),
                                     Entry(stopping, Stopping, Runtime, Uncertain, name, Nothing), stop))
    ensures cut == Cut(stop.n + 1, stop.reported) && CutOf(cut, DestroyScript(operation, stopping, name, plan))
    ensures var script := DestroyScript(operation, stopping, name, plan);
            after == if cut.reported then Extend(Extend(before, script[..cut.n]),
                                                 [Entry(stopping, Stopping, Runtime, Uncertain, name, Nothing)])
                     else Extend(before, script[..cut.n])
  {
    cut := Cut(stop.n + 1, stop.reported);
    var script, inner := DestroyScript(operation, stopping, name, plan), RuntimeScript(stopping, Stopping, name);
    var uncertain := Entry(stopping, Stopping, Runtime, Uncertain, name, Nothing);
    assert inner == script[1..3];
    assert script[..1] + inner[..stop.n] == script[..cut.n];
    ExtendTwice(before, script[..1], inner[..stop.n]);
    ExtendTwice(Extend(before, script[..1]), inner[..stop.n], [uncertain]);
    assert inner[..stop.n] + [] == inner[..stop.n];
  }

  lemma NothingWritten(before: seq<Event>, script: seq<Entry>)
    ensures Extend(before, script[..0]) == before
  {
  }

  lemma DestroyIsFramed(operation: string, stopping: string, name: string, plan: Identity)
    ensures Framed(DestroyScript(operation, stopping, name, plan), operation)
  {
  }

  function Cleaned(attempt: Entry, name: string): Entry {
    Entry(attempt.operation, attempt.action, Operation, Complete, name, ApprovedClean)
  }

  lemma JournalAfterCleaning(before: seq<Event>, attempt: Entry, name: string)
    requires Chained(before) && Orderly(Log(before)) && LatestAttempt(Log(before), name) == Some(attempt)
    ensures var after := Extend(before, [Cleaned(attempt, name)]);
            && after != before && Chained(after) && Orderly(Log(after))
            && (forall operation ::
                  Unsettled(Log(after), operation)
                  <==> Unsettled(Log(before), operation) && operation != attempt.operation)
  {
    hide Chained, Orderly, Statuses, Lifecycle, Unsettled, Extend;
    ExtendKeepsTheChain(before, [Cleaned(attempt, name)]);
    LatestAttemptIsRecorded(Log(before), name);
    OrderlyAfterCompletion(Log(before), Cleaned(attempt, name));
    assert |Log(Extend(before, [Cleaned(attempt, name)]))| == |Log(before)| + 1;
  }

  lemma RestoreIsFramed(operation: string, name: string, archive: string)
    ensures Framed(RestoreScript(operation, name, archive), operation)
  {
  }

  /** What the dictionary of `recover` holds for an operation after part of the journal. */
  predicate LastStatus(operations: map<string, Status>, log: seq<Entry>, operation: string) {
    var statuses := Statuses(log, operation);
    && (operation in operations <==> statuses != [])
    && (operation in operations ==> operations[operation] == statuses[|statuses| - 1])
  }

  lemma NoStatuses()
    ensures forall operation :: Statuses([], operation) == []
  {
  }

  // ---------------------------------------------------------------- what the scripts say

  /** An entry at one place of a script is logged exactly when the cut is past it. */
  lemma LoggedExactly(script: seq<Entry>, uncertain: Entry, cut: Cut, k: nat, effect: Effect, status: Status)
    requires CutOf(cut, script) && k < |script|
    requires forall i | 0 <= i < |script| :: (script[i].effect == effect && script[i].status == status <==> i == k)
    requires !(uncertain.effect == effect && uncertain.status == status)
    ensures Logged(Written(script, uncertain, cut), effect, status) <==> cut.n > k
  {
    var entries := Written(script, uncertain, cut);
    if cut.n > k {
      assert entries[k] == script[k] && entries[k] in entries;
    }
    if Logged(entries, effect, status) {
      var e :| e in entries && e.effect == effect && e.status == status;
      var i :| 0 <= i < |entries| && entries[i] == e;
      assert i < cut.n ==> script[i] == e;
    }
  }

  lemma CreateScriptSays(operation: string, name: string, plan: Identity, cut: Cut)
    requires CutOf(cut, CreateScript(operation, name, plan))
    ensures var entries := Written(CreateScript(operation, name, plan),
                                   Entry(operation, Creation, Operation, Uncertain, name, Nothing), cut);
            && (Logged(entries, RootEffect, Started) <==> cut.n >= 2)
            && (Logged(entries, RootEffect, Complete) <==> cut.n >= 3)
            && (Logged(entries, HomeEffect, Started) <==> cut.n >= 4)
            && (Logged(entries, HomeEffect, Complete) <==> cut.n >= 5)
            && (Logged(entries, Configure, Started) <==> cut.n >= 6)
            && (Logged(entries, Configure, Complete) <==> cut.n >= 7)
            && (Logged(entries, Publish, Started) <==> cut.n >= 8)
            && (Logged(entries, Publish, Complete) <==> cut.n >= 9)
            && (Logged(entries, Operation, Complete) <==> cut.n >= 10)
  {
    hide Written, Logged;
    var script := CreateScript(operation, name, plan);
    var uncertain := Entry(operation, Creation, Operation, Uncertain, name, Nothing);
    LoggedExactly(script, uncertain, cut, 1, RootEffect, Started);
    LoggedExactly(script, uncertain, cut, 2, RootEffect, Complete);
    LoggedExactly(script, uncertain, cut, 3, HomeEffect, Started);
    LoggedExactly(script, uncertain, cut, 4, HomeEffect, Complete);
    LoggedExactly(script, uncertain, cut, 5, Configure, Started);
    LoggedExactly(script, uncertain, cut, 6, Configure, Complete);
    LoggedExactly(script, uncertain, cut, 7, Publish, Started);
    LoggedExactly(script, uncertain, cut, 8, Publish, Complete);
    LoggedExactly(script, uncertain, cut, 9, Operation, Complete);
  }

  lemma DestroyScriptSays(operation: string, stopping: string, name: string, plan: Identity, cut: Cut)
    requires CutOf(cut, DestroyScript(operation, stopping, name, plan))
    ensures var entries := Written(DestroyScript(operation, stopping, name, plan),
                                   Entry(stopping, Stopping, Runtime, Uncertain, name, Nothing), cut);
            && (Logged(entries, Runtime, Started) <==> cut.n >= 2)
            && (Logged(entries, Runtime, Complete) <==> cut.n >= 3)
            && (Logged(entries, Unpublish, Started) <==> cut.n >= 4)
            && (Logged(entries, Unpublish, Complete) <==> cut.n >= 5)
            && (Logged(entries, RemoveHome, Started) <==> cut.n >= 6)
            && (Logged(entries, RemoveHome, Complete) <==> cut.n >= 7)
            && (Logged(entries, RemoveRoot, Started) <==> cut.n >= 8)
            && (Logged(entries, RemoveRoot, Complete) <==> cut.n >= 9)
            && (Logged(entries, Operation, Complete) <==> cut.n >= 10)
  {
    hide Written, Logged;
    var script := DestroyScript(operation, stopping, name, plan);
    var uncertain := Entry(stopping, Stopping, Runtime, Uncertain, name, Nothing);
    LoggedExactly(script, uncertain, cut, 1, Runtime, Started);
    LoggedExactly(script, uncertain, cut, 2, Runtime, Complete);
    LoggedExactly(script, uncertain, cut, 3, Unpublish, Started);
    LoggedExactly(script, uncertain, cut, 4, Unpublish, Complete);
    LoggedExactly(script, uncertain, cut, 5, RemoveHome, Started);
    LoggedExactly(script, uncertain, cut, 6, RemoveHome, Complete);
    LoggedExactly(script, uncertain, cut, 7, RemoveRoot, Started);
    LoggedExactly(script, uncertain, cut, 8, RemoveRoot, Complete);
    LoggedExactly(script, uncertain, cut, 9, Operation, Complete);
  }

  lemma CreatedIsInOrder(operation: string, name: string, plan: Identity, cut: Cut, role: Role,
                         image: Option<Subvolume>, env: Environment)
    requires CutOf(cut, CreateScript(operation, name, plan)) && CreatedUpTo(cut.n, name, role, image, env)
    ensures CreationInOrder(Written(CreateScript(operation, name, plan),
                                    Entry(operation, Creation, Operation, Uncertain, name, Nothing), cut),
                            name, role, image, env)
  {
    hide Written, CreateScript, Logged;
    CreateScriptSays(operation, name, plan, cut);
  }

  lemma DestroyedIsInOrder(operation: string, stopping: string, name: string, plan: Identity, cut: Cut,
                           before: Environment, present: bool, env: Environment)
    requires CutOf(cut, DestroyScript(operation, stopping, name, plan)) && DestroyedUpTo(cut.n, before, present, env)
    ensures DestructionInOrder(Written(DestroyScript(operation, stopping, name, plan),
                                       Entry(stopping, Stopping, Runtime, Uncertain, name, Nothing), cut),
                               before, present, env)
  {
    hide Written, DestroyScript, Logged;
    DestroyScriptSays(operation, stopping, name, plan, cut);
  }

  lemma NotBegun(journal: seq<Event>, script: seq<Entry>, uncertain: Entry)
    ensures CutOf(Cut(0, false), script) && Extend(journal, Written(script, uncertain, Cut(0, false))) == journal
  {
  }

  lemma NothingDestroyed(operation: string, stopping: string, name: string, plan: Identity, env: Environment)
    ensures CutOf(Cut(0, false), DestroyScript(operation, stopping, name, plan))
    ensures DestructionInOrder(Written(DestroyScript(operation, stopping, name, plan),
                                       Entry(stopping, Stopping, Runtime, Uncertain, name, Nothing), Cut(0, false)),
                               env, true, env)
  {
    hide Written;
    DestroyedIsInOrder(operation, stopping, name, plan, Cut(0, false), env, true, env);
  }

  // ---------------------------------------------------------------- names, roles and approvals

  /** A valid name is one path component, and machines and registrations of different names differ. */
  lemma NamesAreComponents(name: string, other: string)
    requires ValidName(name) && ValidName(other)
    ensures 1 <= |name| <= 32 && '/' !in name && ' ' !in name && name != "." && name != ".."
    ensures Machine(name) == Machine(other) ==> name == other
    ensures |Machine(name)| == |name| + 4 && Machine(name)[..4] == "apx-"
  {
    if Machine(name) == Machine(other) {
      assert Machine(name)[4..] == name && Machine(other)[4..] == other;
    }
  }

  /** The limits, releases and names of the three roles. */
  lemma RolesAreFixed(role: Role)
    ensures (RootLimit(role), HomeLimit(role)) == if role.Development? then ("16G", "8G") else ("4G", "2G")
    ensures (RoleText(role), ReleaseIdentity(role))
            == if role.Hub? then ("hub", "hub-headless-v3")
               else if role.Development? then ("development", "development-headless-v1")
               else ("minimal", "minimal-headless-v1")
  {
  }

  function UpToSpace(s: string): string {
    if s == "" || s[0] == ' ' then "" else [s[0]] + UpToSpace(s[1..])
  }

  lemma {:induction false} UpToTheFirstSpace(a: string, rest: string)
    requires ' ' !in a && rest != "" && rest[0] == ' '
    ensures UpToSpace(a + rest) == a
  {
    if a == "" {
      assert a + rest == rest;
    } else {
      assert (a + rest)[1..] == a[1..] + rest;
      UpToTheFirstSpace(a[1..], rest);
    }
  }

  /** What `create` must be told, word for word. */
  function Approval(name: string, role: Role): string {
    "CREATE " + name + " AS " + RoleText(role)
  }

  lemma Suffix(a: string, b: string)
    ensures (a + b)[|a|..] == b
  {
  }

  lemma ApprovalSaysTheName(name: string, role: Role)
    requires ValidName(name)
    ensures |Approval(name, role)| >= 7 && UpToSpace(Approval(name, role)[7..]) == name
    ensures |Approval(name, role)| >= 11 + |name| && Approval(name, role)[11 + |name|..] == RoleText(role)
  {
    NamesAreComponents(name, name);
    hide UpToSpace, ValidName, RoleText;
    var rest := " AS " + RoleText(role);
    assert Approval(name, role) == "CREATE " + (name + rest);
    assert Approval(name, role) == ("CREATE " + name + " AS ") + RoleText(role);
    Suffix("CREATE ", name + rest);
    Suffix("CREATE " + name + " AS ", RoleText(role));
    UpToTheFirstSpace(name, rest);
  }

  /** An approval of a creation says which name, and which role. */
  lemma ApprovalsAreUnambiguous(name: string, role: Role, other: string, otherRole: Role)
    requires ValidName(name) && ValidName(other) && Approval(name, role) == Approval(other, otherRole)
    ensures name == other && role == otherRole
  {
    hide Approval, UpToSpace, ValidName;
    ApprovalSaysTheName(name, role);
    ApprovalSaysTheName(other, otherRole);
    assert RoleText(role)[0] == RoleText(otherRole)[0];
  }
}
