/** The deployment worker: the object a deployment run drives through
    `read`, `filter`, `deploy` and `commit`. */
module DeployWorker {
  import opened Types
  import opened Ordering
  import opened Aggregate
  import opened Filtering

  /** The worker's command store. `Grouped` is the version-keyed array that
      reading builds; `Flat` is the plain list that filtering leaves behind.
      `Grouped(map[])` and `Flat([])` both stand for the empty array. */
  datatype Commands = Grouped(byVersion: map<int, seq<Item>>) | Flat(list: seq<string>)

  /** No command of the list is a falsy string. */
  predicate NoFalsyCommand(list: seq<string>)
  {
    forall i :: 0 <= i < |list| ==> !Falsy(Text(list[i]))
  }

  /** What `deploy` hands to the action, or why it cannot start: grouped
      commands are filtered with a policy that removes nothing first. */
  function Scheduled(c: Commands): Result<seq<string>>
  {
    match c
    case Grouped(pending) => if pending == map[] then Ok([]) else FilterOutcome(NoRemoval(), pending)
    case Flat(list) => Ok(list)
  }

  /** Deploying grouped commands runs every distinct command once, versions
      in ascending order, each command where it first occurs; it cannot start
      exactly when a stored entry is not a string, and then it names the
      first such entry. */
  lemma ScheduledGrouped(l: Ledger)
    requires Consistent(l)
    ensures var flat := Flatten(l.pending);
      match Scheduled(Grouped(l.pending))
      case Ok(list) =>
        && (forall i :: 0 <= i < |flat| ==> flat[i].Text?)
        && list == KeepFirst(CommandStrings(flat).value)
      case Err(e) =>
        exists i :: 0 <= i < |flat| && !flat[i].Text? && e == InvalidCommand(flat[i]) &&
          forall j :: 0 <= j < i ==> flat[j].Text?
  {
    var flat := Flatten(l.pending);
    CommandStringsShape(flat);
    FlattenTruthy(l);
    FilterOutcomeWithoutRemovals(l.pending);
    if l.pending == map[] {
      assert AscendingVersions(l.pending.Keys) == [];
    }
  }

  class Worker {
    /** Whether `deploy` has completed. */
    var deployed: bool
    const environment: string
    /** The revision file: the base name given at construction, a dash and
        the environment. */
    const versionFile: string
    /** The code version of the last saved revision. */
    var currentCodeVersion: int
    /** The highest version taken from any playbook so far. */
    var newCodeVersion: int
    /** For each playbook path, the version of the last entry taken from it. */
    var completed: map<string, int>
    var commands: Commands

    /** The class invariant. */
    ghost predicate Valid()
      reads this
    {
      && currentCodeVersion <= newCodeVersion
      && (commands.Grouped? ==> Consistent(Collected()))
      && (commands.Flat? ==> NoDup(commands.list) && NoFalsyCommand(commands.list))
    }

    /** The grouped commands; none once they have been flattened. */
    function Pending(): map<int, seq<Item>>
      reads this
    {
      if commands.Grouped? then commands.byVersion else map[]
    }

    /** Everything reading updates, as one value. */
    ghost function Collected(): Ledger
      reads this
    {
      Ledger(Pending(), completed, newCodeVersion)
    }

    /** The state of a worker just constructed for `environment` with the
        revision files `store` (path to parsed record) on disk: markers and
        version come from the record when its file exists, an absent key
        counting as empty markers and version 0. */
    ghost predicate Opened(environment: string, versionFileBase: string, store: map<string, Saved>)
      reads this
    {
      && this.environment == environment
      && versionFile == versionFileBase + "-" + environment
      && !deployed
      && commands == Grouped(map[])
      && currentCodeVersion == newCodeVersion
      && (versionFile in store && store[versionFile].version.Some? ==>
            currentCodeVersion == store[versionFile].version.value)
      && (versionFile !in store || store[versionFile].version.None? ==> currentCodeVersion == 0)
      && (versionFile in store && store[versionFile].completed.Some? ==>
            completed == store[versionFile].completed.value)
      && (versionFile !in store || store[versionFile].completed.None? ==> completed == map[])
    }

    /** Loads the saved revision if its file exists; both versions start at
        the saved one. */
    constructor (environment: string, versionFileBase: string, store: map<string, Saved>)
      ensures Opened(environment, versionFileBase, store) && Valid()
    {
      this.environment := environment;
      var path := versionFileBase + "-" + environment;
      versionFile := path;
      deployed := false;
      commands := Grouped(map[]);
      completed := map[];
      currentCodeVersion := 0;
      newCodeVersion := 0;
      if path in store {
        var info := store[path];
        completed := if info.completed.Some? then info.completed.value else map[];
        var version := if info.version.Some? then info.version.value else 0;
        currentCodeVersion := version;
        newCodeVersion := version;
      }
    }

    /** Construction refuses to go on without a usable YAML parser. */
    static method Create(parserAvailable: bool, environment: string, versionFileBase: string,
                         store: map<string, Saved>) returns (r: Result<Worker>)
      ensures r.Ok? <==> parserAvailable
      ensures r.Err? ==> r.error == ParserUnavailable
      ensures r.Ok? ==> fresh(r.value) && r.value.Opened(environment, versionFileBase, store) && r.value.Valid()
    {
      if !parserAvailable {
        return Err(ParserUnavailable);
      }
      var w := new Worker(environment, versionFileBase, store);
      return Ok(w);
    }

    /** The version of the last saved revision; never above the new one. */
    function CurrentCodeVersion(): (v: int)
      reads this
      ensures Valid() ==> v <= newCodeVersion
    {
      currentCodeVersion
    }

    /** The version the next saved revision will carry: at least the current
        one and at least every version with commands pending. */
    function NewCodeVersion(): (v: int)
      reads this
      ensures Valid() ==> CurrentCodeVersion() <= v
      ensures Valid() ==> forall k :: k in Pending() ==> k <= v
    {
      newCodeVersion
    }

    /** One pass of the inner loop of `processPlaybook`: the entry is
        skipped when its version is not newer than the current code version
        and the document already has a marker; otherwise its commands join
        their version's slot, the document is marked with this version and
        the new version rises to it. */
    method Take(path: string, e: Entry)
      requires Valid() && commands.Grouped?
      modifies this
      ensures Valid() && commands.Grouped?
      ensures Collected() == GateStep(old(Collected()), currentCodeVersion, path, e)
      ensures deployed == old(deployed) && currentCodeVersion == old(currentCodeVersion)
    {
      GateStepConsistent(Collected(), currentCodeVersion, path, e);
      if e.version <= currentCodeVersion && path in completed {
        return;
      }
      var pending := commands.byVersion;
      if e.version !in pending {
        pending := pending[e.version := []];
      }
      pending := pending[e.version := pending[e.version] + Normalized(e.value)];
      commands := Grouped(pending);
      completed := completed[path := e.version];
      newCodeVersion := if newCodeVersion >= e.version then newCodeVersion else e.version;
    }

    /** The inner loop of `processPlaybook` over one applicable group. */
    method ProcessGroup(path: string, versions: seq<Entry>)
      requires Valid() && commands.Grouped?
      modifies this
      ensures Valid() && commands.Grouped?
      ensures Collected() == ProcessEntries(old(Collected()), currentCodeVersion, path, versions)
      ensures deployed == old(deployed) && currentCodeVersion == old(currentCodeVersion)
    {
      ghost var start := Collected();
      for vi := 0 to |versions|
        invariant Valid() && commands.Grouped?
        invariant deployed == old(deployed) && currentCodeVersion == old(currentCodeVersion)
        invariant Collected() == ProcessEntries(start, currentCodeVersion, path, versions[..vi])
      {
        assert versions[..vi + 1][..vi] == versions[..vi];
        Take(path, versions[vi]);
      }
      assert versions[..|versions|] == versions;
    }

    /** `processPlaybook`: a document with a playbook extension contributes
        the entries of its `global` group and of this environment's group,
        each judged by the version gate against the live markers. */
    method ProcessPlaybook(path: string, doc: Playbook)
      requires Valid() && commands.Grouped?
      modifies this
      ensures Valid() && commands.Grouped?
      ensures Collected() == PlaybookEffect(old(Collected()), currentCodeVersion, environment, path, doc)
      ensures deployed == old(deployed) && currentCodeVersion == old(currentCodeVersion)
    {
      if !IsPlaybookPath(path) {
        return;
      }
      ghost var start := Collected();
      for gi := 0 to |doc.commands|
        invariant Valid() && commands.Grouped?
        invariant deployed == old(deployed) && currentCodeVersion == old(currentCodeVersion)
        invariant Collected() == ProcessEntries(start, currentCodeVersion, path, DocEntries(doc.commands[..gi], environment))
      {
        var group := doc.commands[gi];
        ghost var before := DocEntries(doc.commands[..gi], environment);
        assert doc.commands[..gi + 1][..gi] == doc.commands[..gi];
        if Selected(group.name, environment) {
          ProcessEntriesConcat(start, currentCodeVersion, path, before, group.versions);
          ProcessGroup(path, group.versions);
        } else {
          assert before + [] == before;
        }
      }
      assert doc.commands[..|doc.commands|] == doc.commands;
    }

    /** The loop of `read` over a directory's entries, in the order given. */
    method ReadFiles(files: map<string, Playbook>, paths: seq<string>)
      requires Valid() && commands.Grouped?
      requires forall p :: p in paths ==> p in files
      modifies this
      ensures Valid() && commands.Grouped?
      ensures Collected() == FilesEffect(old(Collected()), currentCodeVersion, environment, files, paths)
      ensures deployed == old(deployed) && currentCodeVersion == old(currentCodeVersion)
    {
      ghost var start := Collected();
      for i := 0 to |paths|
        invariant Valid() && commands.Grouped?
        invariant deployed == old(deployed) && currentCodeVersion == old(currentCodeVersion)
        invariant forall p :: p in paths[..i] ==> p in files
        invariant Collected() == FilesEffect(start, currentCodeVersion, environment, files, paths[..i])
      {
        assert paths[..i + 1][..i] == paths[..i];
        assert paths[i] in paths;
        ProcessPlaybook(paths[i], files[paths[i]]);
      }
      assert paths[..|paths|] == paths;
    }

    /** `read`: every entry of a directory in ascending path order, or a
        single file; a missing path changes nothing. Reading is only modelled
        before filtering, or once the commands are empty again. */
    method Read(target: Target)
      requires Valid() && (commands.Grouped? || commands.list == [])
      modifies this
      ensures Valid() && commands.Grouped?
      ensures Collected() == ReadEffect(old(Collected()), currentCodeVersion, environment, target)
      ensures deployed == old(deployed) && currentCodeVersion == old(currentCodeVersion)
    {
      if commands.Flat? {
        commands := Grouped(map[]);
      }
      match target {
        case Directory(files) =>
          ReadFiles(files, AscendingPaths(files.Keys));
        case File(path, doc) =>
          ProcessPlaybook(path, doc);
        case Missing(_) =>
      }
    }

    /** `filter`: the grouped commands, versions ascending, go one by one
        through the retained set and the caller's policy; a non-string entry
        stops everything and leaves the commands as they were. Filtering an
        already flat list finds no arrays to walk and empties it. */
    method Filter(processor: Processor) returns (outcome: Outcome)
      requires Valid()
      modifies this
      ensures Valid()
      ensures old(commands).Grouped? ==>
        match FilterOutcome(processor, old(commands).byVersion)
        case Ok(list) => outcome == Pass && commands == Flat(list)
        case Err(e) => outcome == Fail(e) && commands == old(commands)
      ensures old(commands).Flat? ==> outcome == Pass && commands == Flat([])
      ensures deployed == old(deployed) && currentCodeVersion == old(currentCodeVersion)
      ensures newCodeVersion == old(newCodeVersion) && completed == old(completed)
    {
      match commands {
        case Flat(_) =>
          commands := Flat([]);
          outcome := Pass;
        case Grouped(pending) =>
          var r := FilterVersions(processor, pending, AscendingVersions(pending.Keys));
          match r {
            case Err(e) =>
              outcome := Fail(e);
            case Ok(list) =>
              FilterOutcomeShape(processor, pending);
              FlattenTruthy(Collected());
              commands := Flat(list);
              outcome := Pass;
          }
      }
    }

    /** `deploy`: unfiltered commands are filtered without removals first;
        the action then runs on each command in order, and once every
        command has run the commands are emptied and the worker is marked
        deployed. A failing action stops the run where it fails. */
    method Deploy(action: string -> bool) returns (ran: seq<string>, outcome: Outcome)
      requires Valid()
      modifies this
      ensures Valid()
      ensures Scheduled(old(commands)).Err? ==>
        && ran == [] && outcome == Fail(Scheduled(old(commands)).error)
        && commands == old(commands) && deployed == old(deployed)
      ensures Scheduled(old(commands)).Ok? ==>
        var list := Scheduled(old(commands)).value;
        && |ran| <= |list| && ran == list[..|ran|]
        && (outcome.Pass? ==> ran == list && deployed && commands == Grouped(map[]))
        && (outcome.Fail? ==> ran != [] && outcome == Fail(ActionFailed(ran[|ran| - 1]))
                              && commands == Flat(list) && deployed == old(deployed))
      ensures forall i :: 0 <= i < |ran| ==> (action(ran[i]) <==> outcome.Pass? || i < |ran| - 1)
      ensures NoDup(ran)
      ensures currentCodeVersion == old(currentCodeVersion) && newCodeVersion == old(newCodeVersion)
      ensures completed == old(completed)
    {
      if commands.Grouped? && commands.byVersion != map[] {
        outcome := Filter(NoRemoval());
        if outcome.Fail? {
          ran := [];
          return;
        }
      }
      var list := if commands.Flat? then commands.list else [];
      var stopped;
      ran, stopped := RunActions(action, list);
      if stopped {
        outcome := Fail(ActionFailed(ran[|ran| - 1]));
        return;
      }
      commands := Grouped(map[]);
      deployed := true;
      outcome := Pass;
    }

    /** `commit`: refuses before a completed deployment, fails when the
        revision file cannot be written, and otherwise writes the new version
        and the markers to the revision file. The caller stores the record;
        `Stored` is what a later worker parses back. */
    method Commit(writable: bool) returns (r: Result<Revision>)
      ensures !deployed ==> r == Err(NotDeployed)
      ensures deployed && !writable ==> r == Err(PersistError(versionFile))
      ensures deployed && writable ==> r == Ok(Revision(versionFile, newCodeVersion, completed))
    {
      if !deployed {
        return Err(NotDeployed);
      }
      if !writable {
        return Err(PersistError(versionFile));
      }
      return Ok(Revision(versionFile, newCodeVersion, completed));
    }
  }

  /** The `array_map` of `deploy`: the action runs on each command in
      order; a failing action stops the run, and the command it failed on
      is the last one run. */
  method RunActions(action: string -> bool, list: seq<string>) returns (ran: seq<string>, stopped: bool)
    ensures |ran| <= |list| && ran == list[..|ran|]
    ensures !stopped <==> ran == list && forall i :: 0 <= i < |list| ==> action(list[i])
    ensures stopped ==> ran != [] && !action(ran[|ran| - 1])
    ensures forall i :: 0 <= i < |ran| - 1 ==> action(ran[i])
  {
    ran := [];
    for i := 0 to |list|
      invariant ran == list[..i]
      invariant forall j :: 0 <= j < i ==> action(list[j])
    {
      ran := ran + [list[i]];
      if !action(list[i]) {
        return ran, true;
      }
    }
    assert list[..|list|] == list;
    stopped := false;
  }

  /** The record a later worker parses from a written revision: both keys
      present. */
  function Stored(r: Revision): Saved
  {
    Saved(Some(r.version), Some(r.completed))
  }

  /** The loops of `filter` over version-grouped commands: the versions in
      the order given, each version's entries in order, each string inserted
      into the retained keys and the key the policy names removed. */
  method FilterVersions(processor: Processor, pending: map<int, seq<Item>>, versions: seq<int>)
    returns (r: Result<seq<string>>)
    requires forall i :: 0 <= i < |versions| ==> versions[i] in pending
    ensures r == FilterItems(processor, FlattenAlong(pending, versions))
  {
    var retained: seq<string> := [];
    ghost var seen: seq<string> := [];
    ghost var done: seq<Item> := [];
    for vi := 0 to |versions|
      invariant done == FlattenAlong(pending, versions[..vi])
      invariant CommandStrings(done) == Ok(seen)
      invariant retained == FilterAll(processor, seen)
    {
      var list := pending[versions[vi]];
      FlattenAlongPrefix(pending, versions, vi);
      var outcome := FilterSlot(processor, retained, done, seen, list);
      if outcome.Err? {
        FirstInvalidStops(pending, versions, vi);
        return outcome;
      }
      retained := outcome.value;
      seen := CommandStrings(done + list).value;
      done := done + list;
    }
    assert versions[..|versions|] == versions;
    return Ok(retained);
  }

  /** The inner loop of `filter` over the entries of one version, continuing
      from the keys retained so far. */
  method FilterSlot(processor: Processor, retained: seq<string>, ghost done: seq<Item>, ghost seen: seq<string>,
                    list: seq<Item>) returns (r: Result<seq<string>>)
    requires CommandStrings(done) == Ok(seen) && retained == FilterAll(processor, seen)
    ensures r.Err? ==> CommandStrings(done + list) == Err(r.error)
    ensures r.Ok? ==> CommandStrings(done + list).Ok? && r.value == FilterAll(processor, CommandStrings(done + list).value)
  {
    var keys := retained;
    ghost var acc := done;
    ghost var cs := seen;
    for ii := 0 to |list|
      invariant acc == done + list[..ii]
      invariant CommandStrings(acc) == Ok(cs)
      invariant keys == FilterAll(processor, cs)
    {
      var item := list[ii];
      CommandStringsSnoc(acc, item);
      PrefixSnoc(done, list, ii);
      if !item.Text? {
        SplitAfter(done, list, ii);
        CommandStringsPrefixError(acc + [item], list[ii + 1..]);
        return Err(InvalidCommand(item));
      }
      var command := item.s;
      FilterAllSnoc(processor, cs, command);
      keys := RetainStep(processor, keys, command);
      acc := acc + [item];
      cs := cs + [command];
    }
    assert list[..|list|] == list;
    return Ok(keys);
  }

  /** The body of the inner loop of `filter`: insert the command, hand the
      policy the updated keys and a resolver bound to them, and remove the
      key it names. */
  method RetainStep(processor: Processor, retained: seq<string>, command: string) returns (r: seq<string>)
    ensures r == FilterStep(processor, retained, command)
  {
    r := Insert(retained, command);
    var victim := processor(command, r, ResolverFor(command, r));
    r := Remove(r, victim);
  }

  /** A version whose entries fail to convert decides the outcome of the
      whole list of versions. */
  lemma FirstInvalidStops(pending: map<int, seq<Item>>, versions: seq<int>, vi: nat)
    requires vi < |versions|
    requires CommandStrings(FlattenAlong(pending, versions[..vi]) + Slot(pending, versions[vi])).Err?
    ensures CommandStrings(FlattenAlong(pending, versions)) ==
            CommandStrings(FlattenAlong(pending, versions[..vi]) + Slot(pending, versions[vi]))
  {
    FlattenAlongAround(pending, versions, vi);
    CommandStringsPrefixError(FlattenAlong(pending, versions[..vi]) + Slot(pending, versions[vi]),
                              FlattenAlong(pending, versions[vi + 1..]));
  }
}
