/**
 The Deployfile data model and Merge, which layers one configuration on top of another.
 A Go nil map and an empty map are one value here; a nil task pointer is None.
 */
module Deployfile {
  import opened Common
  import opened Inventory

  datatype Task = Task(
    cmds: seq<string>,
    scripts: seq<string>,
    deps: seq<string>,
    roles: seq<string>,
    isLocal: bool,
    once: bool,
    silentOutput: bool,
    continueOnError: bool,
    nonDeploy: bool,
    allHosts: bool,
    only: seq<string>,
    except: seq<string>,
    output: string,
    action: string)
  {
    predicate ActiveForStage(stage: string) {
      stage !in except && (only == [] || stage in only)
    }
  }

  /** A phase or task name mapped to the tasks run before or after it. */
  datatype Hooks = Hooks(before: map<string, seq<string>>, after: map<string, seq<string>>)

  /** A phase name: one of the built-in lifecycle phases, one of the two other hook points, or any other text. */
  datatype PhaseName =
    | PhaseStarting | PhaseCheck | PhaseInit | PhaseStarted | PhaseUpdating | PhaseSymlink | PhaseUpdated
    | PhasePublishing | PhasePublished | PhaseFinishing | PhaseFinished
    | PhaseFailed | PhaseRollback
    | PhaseOther(text: string)
  {
    predicate IsBuiltin() {
      !PhaseFailed? && !PhaseRollback? && !PhaseOther?
    }
  }

  /** A phase spliced into the lifecycle; an anchor left empty is None. */
  datatype CustomPhase = CustomPhase(
    name: PhaseName,
    before: Option<PhaseName>,
    after: Option<PhaseName>,
    task: string)

  datatype PluginSpec = PluginSpec(name: string, params: map<string, string>)

  datatype App = App(name: string, repo: string, branch: string, deployTo: string, keepReleases: int)

  datatype Bastion = Bastion(address: string, port: int, user: string, identityFile: string)

  datatype SSH = SSH(
    user: string,
    port: int,
    identityFile: string,
    passphrase: string,
    knownHostsFile: string,
    strictHostKey: Option<bool>,
    acceptNew: Option<bool>,
    forwardAgent: Option<bool>,
    forwardKey: string,
    bastion: Option<Bastion>,
    identities: map<string, string>)

  datatype Log = Log(
    level: string,
    format: string,
    output: string,
    color: Option<bool>,
    file: string,
    fileFormat: string,
    rawRemoteLog: Option<bool>)

  datatype Config = Config(
    version: string,
    description: string,
    includes: seq<string>,
    app: App,
    linkedFiles: seq<string>,
    linkedDirs: seq<string>,
    vars: map<string, string>,
    envs: map<string, string>,
    envFiles: seq<string>,
    ssh: SSH,
    hosts: seq<Host>,
    tasks: map<string, Option<Task>>,
    hooks: Hooks,
    scriptsDir: string,
    onUnreachable: string,
    log: Log,
    plugins: seq<PluginSpec>,
    customPhases: seq<CustomPhase>)

  const EMPTY: Config := Config(
    "", "", [], App("", "", "", "", 0), [], [], map[], map[], [],
    SSH("", 0, "", "", "", None, None, None, "", None, map[]),
    [], map[], Hooks(map[], map[]), "", "", Log("", "", "", None, "", "", None), [], [])

  // ---- Merge ----

  /** A non-empty override replaces the base wholesale; used for strings and for the linked path lists. */
  function Over<T(==)>(base: seq<T>, ov: seq<T>): seq<T> {
    if ov != [] then ov else base
  }

  function OverInt(base: int, ov: int): int {
    if ov != 0 then ov else base
  }

  function OverOption<T>(base: Option<T>, ov: Option<T>): Option<T> {
    if ov.Some? then ov else base
  }

  function MergeApp(base: App, ov: App): App {
    App(Over(base.name, ov.name), Over(base.repo, ov.repo), Over(base.branch, ov.branch),
        Over(base.deployTo, ov.deployTo), OverInt(base.keepReleases, ov.keepReleases))
  }

  function MergeSSH(base: SSH, ov: SSH): SSH {
    SSH(Over(base.user, ov.user), OverInt(base.port, ov.port), Over(base.identityFile, ov.identityFile),
        Over(base.passphrase, ov.passphrase), Over(base.knownHostsFile, ov.knownHostsFile),
        OverOption(base.strictHostKey, ov.strictHostKey), OverOption(base.acceptNew, ov.acceptNew),
        OverOption(base.forwardAgent, ov.forwardAgent), Over(base.forwardKey, ov.forwardKey),
        OverOption(base.bastion, ov.bastion), base.identities + ov.identities)
  }

  function MergeLog(base: Log, ov: Log): Log {
    Log(Over(base.level, ov.level), Over(base.format, ov.format), Over(base.output, ov.output),
        OverOption(base.color, ov.color), Over(base.file, ov.file), Over(base.fileFormat, ov.fileFormat),
        OverOption(base.rawRemoteLog, ov.rawRemoteLog))
  }

  /** Layers ov on top of base. The include list is the one field Merge leaves alone: it stays the base's. */
  function Merge(base: Config, ov: Config): Config {
    base.(
      version := Over(base.version, ov.version),
      description := Over(base.description, ov.description),
      scriptsDir := Over(base.scriptsDir, ov.scriptsDir),
      onUnreachable := Over(base.onUnreachable, ov.onUnreachable),
      plugins := base.plugins + ov.plugins,
      app := MergeApp(base.app, ov.app),
      linkedFiles := Over(base.linkedFiles, ov.linkedFiles),
      linkedDirs := Over(base.linkedDirs, ov.linkedDirs),
      ssh := MergeSSH(base.ssh, ov.ssh),
      log := MergeLog(base.log, ov.log),
      vars := base.vars + ov.vars,
      envs := base.envs + ov.envs,
      envFiles := base.envFiles + ov.envFiles,
      hosts := base.hosts + ov.hosts,
      customPhases := base.customPhases + ov.customPhases,
      tasks := base.tasks + ov.tasks,
      hooks := Hooks(base.hooks.before + ov.hooks.before, base.hooks.after + ov.hooks.after))
  }

  lemma SectionsAssociative(a: Config, b: Config, c: Config)
    ensures MergeApp(MergeApp(a.app, b.app), c.app) == MergeApp(a.app, MergeApp(b.app, c.app))
    ensures MergeSSH(MergeSSH(a.ssh, b.ssh), c.ssh) == MergeSSH(a.ssh, MergeSSH(b.ssh, c.ssh))
    ensures MergeLog(MergeLog(a.log, b.log), c.log) == MergeLog(a.log, MergeLog(b.log, c.log))
  {
    MapAssociative(a.ssh.identities, b.ssh.identities, c.ssh.identities);
  }

  lemma MergeAssociative(a: Config, b: Config, c: Config)
    ensures Merge(Merge(a, b), c) == Merge(a, Merge(b, c))
  {
    SectionsAssociative(a, b, c);
    MapAssociative(a.vars, b.vars, c.vars);
    MapAssociative(a.envs, b.envs, c.envs);
    MapAssociative(a.tasks, b.tasks, c.tasks);
    MapAssociative(a.hooks.before, b.hooks.before, c.hooks.before);
    MapAssociative(a.hooks.after, b.hooks.after, c.hooks.after);
    assert (a.plugins + b.plugins) + c.plugins == a.plugins + (b.plugins + c.plugins);
    assert (a.envFiles + b.envFiles) + c.envFiles == a.envFiles + (b.envFiles + c.envFiles);
    assert (a.hosts + b.hosts) + c.hosts == a.hosts + (b.hosts + c.hosts);
    assert (a.customPhases + b.customPhases) + c.customPhases == a.customPhases + (b.customPhases + c.customPhases);
  }

  lemma MapAssociative<K, V>(a: map<K, V>, b: map<K, V>, c: map<K, V>)
    ensures (a + b) + c == a + (b + c)
  {
  }

  lemma SectionsIdentity(app: App, ssh: SSH, log: Log)
    ensures MergeApp(app, EMPTY.app) == app == MergeApp(EMPTY.app, app)
    ensures MergeSSH(ssh, EMPTY.ssh) == ssh == MergeSSH(EMPTY.ssh, ssh)
    ensures MergeLog(log, EMPTY.log) == log == MergeLog(EMPTY.log, log)
  {
    assert map[] + ssh.identities == ssh.identities == ssh.identities + map[];
  }

  lemma MergeEmptyRight(c: Config)
    ensures Merge(c, EMPTY) == c
  {
    SectionsIdentity(c.app, c.ssh, c.log);
    assert c.vars + map[] == c.vars && c.envs + map[] == c.envs && c.tasks + map[] == c.tasks;
    assert c.hooks == Hooks(c.hooks.before + map[], c.hooks.after + map[]);
    assert c.plugins + [] == c.plugins && c.envFiles + [] == c.envFiles;
    assert c.hosts + [] == c.hosts && c.customPhases + [] == c.customPhases;
  }

  /** EMPTY is a left identity up to the include list, which Merge takes from its base. */
  lemma MergeEmptyLeft(c: Config)
    ensures Merge(EMPTY, c) == c.(includes := [])
  {
    SectionsIdentity(c.app, c.ssh, c.log);
    assert map[] + c.vars == c.vars && map[] + c.envs == c.envs && map[] + c.tasks == c.tasks;
    assert c.hooks == Hooks(map[] + c.hooks.before, map[] + c.hooks.after);
  }

  // ---- One flat fold ----

  /** The left fold of Merge over cfgs, starting from base. */
  function MergeAll(base: Config, cfgs: seq<Config>): Config
    decreases |cfgs|
  {
    if cfgs == [] then base else MergeAll(Merge(base, cfgs[0]), cfgs[1..])
  }

  lemma {:induction false} MergeAllAppend(base: Config, a: seq<Config>, b: seq<Config>)
    ensures MergeAll(base, a + b) == MergeAll(MergeAll(base, a), b)
    decreases |a|
  {
    if a == [] {
      assert a + b == b;
    } else {
      assert (a + b)[1..] == a[1..] + b;
      MergeAllAppend(Merge(base, a[0]), a[1..], b);
    }
  }

  /** Merging a whole fold on top is the same as folding on: nesting does not matter. */
  lemma {:induction false} MergeNested(base: Config, cfgs: seq<Config>)
    ensures Merge(base, MergeAll(EMPTY, cfgs)) == MergeAll(base, cfgs)
    decreases |cfgs|
  {
    if cfgs == [] {
      MergeEmptyRight(base);
    } else {
      var init, last := cfgs[..|cfgs| - 1], cfgs[|cfgs| - 1];
      MergeAllLast(EMPTY, cfgs);
      MergeAllLast(base, cfgs);
      MergeNested(base, init);
      MergeAssociative(base, MergeAll(EMPTY, init), last);
    }
  }

  // ---- What the fold means field by field ----

  lemma MergeAllOne(base: Config, c: Config)
    ensures MergeAll(base, [c]) == Merge(base, c)
  {
    assert [c][1..] == [];
    assert MergeAll(base, [c]) == MergeAll(Merge(base, c), []);
  }

  lemma MergeAllLast(base: Config, cfgs: seq<Config>)
    requires cfgs != []
    ensures MergeAll(base, cfgs) == Merge(MergeAll(base, cfgs[..|cfgs| - 1]), cfgs[|cfgs| - 1])
  {
    var init, last := cfgs[..|cfgs| - 1], cfgs[|cfgs| - 1];
    assert cfgs == init + [last];
    MergeAllAppend(base, init, [last]);
    MergeAllOne(MergeAll(base, init), last);
  }

  /** The value of the last of cfgs that sets the field at all. */
  function LastSet<T(==)>(cfgs: seq<Config>, get: Config -> T, unset: T): T {
    if cfgs == [] then unset
    else if get(cfgs[|cfgs| - 1]) != unset then get(cfgs[|cfgs| - 1])
    else LastSet(cfgs[..|cfgs| - 1], get, unset)
  }

  /** A field in which an override that sets it wins, and one that leaves it unset does not matter. */
  ghost predicate Layered<T(!new)>(get: Config -> T, unset: T) {
    && get(EMPTY) == unset
    && forall a, b :: get(Merge(a, b)) == if get(b) != unset then get(b) else get(a)
  }

  /** In one flat fold a layered field comes from the last file that sets it. */
  lemma {:induction false} FieldFromLastFile<T(!new)>(cfgs: seq<Config>, get: Config -> T, unset: T)
    requires Layered(get, unset)
    ensures get(MergeAll(EMPTY, cfgs)) == LastSet(cfgs, get, unset)
    decreases |cfgs|
  {
    if cfgs != [] {
      MergeAllLast(EMPTY, cfgs);
      FieldFromLastFile(cfgs[..|cfgs| - 1], get, unset);
    }
  }

  function Lookup<V>(m: map<string, V>, key: string): Option<V> {
    if key in m then Some(m[key]) else None
  }

  /** The scalars and the wholesale lists are layered fields. */
  lemma ScalarsAreLayered()
    ensures Layered((c: Config) => c.version, "") && Layered((c: Config) => c.description, "")
    ensures Layered((c: Config) => c.scriptsDir, "") && Layered((c: Config) => c.onUnreachable, "")
    ensures Layered((c: Config) => c.linkedFiles, []) && Layered((c: Config) => c.linkedDirs, [])
  {
  }

  lemma AppIsLayered()
    ensures Layered((c: Config) => c.app.name, "") && Layered((c: Config) => c.app.repo, "")
    ensures Layered((c: Config) => c.app.branch, "") && Layered((c: Config) => c.app.deployTo, "")
    ensures Layered((c: Config) => c.app.keepReleases, 0)
  {
  }

  lemma SSHIsLayered()
    ensures Layered((c: Config) => c.ssh.user, "") && Layered((c: Config) => c.ssh.port, 0)
    ensures Layered((c: Config) => c.ssh.identityFile, "") && Layered((c: Config) => c.ssh.passphrase, "")
  {
  }

  lemma SSHSwitchesAreLayered()
    ensures Layered((c: Config) => c.ssh.knownHostsFile, "") && Layered((c: Config) => c.ssh.strictHostKey, None)
    ensures Layered((c: Config) => c.ssh.acceptNew, None) && Layered((c: Config) => c.ssh.forwardAgent, None)
    ensures Layered((c: Config) => c.ssh.forwardKey, "") && Layered((c: Config) => c.ssh.bastion, None)
  {
  }

  lemma LogIsLayered()
    ensures Layered((c: Config) => c.log.level, "") && Layered((c: Config) => c.log.format, "")
    ensures Layered((c: Config) => c.log.output, "") && Layered((c: Config) => c.log.color, None)
    ensures Layered((c: Config) => c.log.file, "") && Layered((c: Config) => c.log.fileFormat, "")
    ensures Layered((c: Config) => c.log.rawRemoteLog, None)
  {
  }

  /** So is every entry of every map: the whole value of a key is replaced, never merged into. */
  lemma MapEntriesAreLayered(key: string)
    ensures Layered((c: Config) => Lookup(c.vars, key), None) && Layered((c: Config) => Lookup(c.envs, key), None)
    ensures Layered((c: Config) => Lookup(c.tasks, key), None)
  {
  }

  lemma HookEntriesAreLayered(key: string)
    ensures Layered((c: Config) => Lookup(c.hooks.before, key), None)
    ensures Layered((c: Config) => Lookup(c.hooks.after, key), None)
    ensures Layered((c: Config) => Lookup(c.ssh.identities, key), None)
  {
  }

  function Concat<T>(parts: seq<seq<T>>): seq<T> {
    if parts == [] then [] else Concat(parts[..|parts| - 1]) + parts[|parts| - 1]
  }

  ghost predicate Appended<T(!new)>(get: Config -> seq<T>) {
    get(EMPTY) == [] && forall a, b :: get(Merge(a, b)) == get(a) + get(b)
  }

  function Parts<T>(cfgs: seq<Config>, get: Config -> seq<T>): (r: seq<seq<T>>)
    ensures |r| == |cfgs|
    ensures forall i :: 0 <= i < |r| ==> r[i] == get(cfgs[i])
  {
    if cfgs == [] then [] else Parts(cfgs[..|cfgs| - 1], get) + [get(cfgs[|cfgs| - 1])]
  }

  /** In one flat fold an appended field is the exact concatenation, in file order. */
  lemma {:induction false} FieldIsConcatenation<T(!new)>(cfgs: seq<Config>, get: Config -> seq<T>)
    requires Appended(get)
    ensures get(MergeAll(EMPTY, cfgs)) == Concat(Parts(cfgs, get))
    decreases |cfgs|
  {
    if cfgs != [] {
      MergeAllLast(EMPTY, cfgs);
      FieldIsConcatenation(cfgs[..|cfgs| - 1], get);
      assert Parts(cfgs, get)[..|cfgs| - 1] == Parts(cfgs[..|cfgs| - 1], get);
    }
  }

  lemma ListsAreAppended()
    ensures Appended((c: Config) => c.hosts) && Appended((c: Config) => c.plugins)
    ensures Appended((c: Config) => c.envFiles) && Appended((c: Config) => c.customPhases)
  {
  }
}
