/** Concrete runs: the filtering test's policy applied to the ordering
    test's expected command lists, the version gate on marked and unmarked
    playbooks as the code behaves, and a whole deployment cycle driven
    through the worker. */
module Scenarios {
  import opened Types
  import opened Aggregate
  import opened Filtering
  import opened DeployWorker

  /** The policy of the filtering test: drop "drush cc css-js" when
      "drush updb" is retained; otherwise ask the resolver to remove an
      earlier "drush cc all" for "drush updb", and failing that (a falsy
      answer) to refuse a new "drush cc all" when "drush updb" is retained. */
  function TestPolicy(): Processor
  {
    (command: string, retained: seq<string>, resolve: Resolve) =>
      if command == "drush cc css-js" && "drush updb" in retained then command
      else
        var previous := resolve(true, ["drush updb"], ["drush cc all"]);
        if previous != "" && previous != "0" then previous
        else resolve(false, ["drush cc all"], ["drush updb"])
  }

  /** The five commands of the site `lush_website_de` in the ordering
      test, by name. */
  predicate TestCommands(updb: string, ccDrush: string, echo: string, ccAll: string, cssJs: string)
  {
    && updb == "drush updb" && ccDrush == "drush cc drush" && echo == "print bla bla"
    && ccAll == "drush cc all" && cssJs == "drush cc css-js"
  }

  /** The test policy removes nothing for a command other than the two
      cache clears, unless it is "drush updb" arriving after "drush cc all". */
  lemma PolicyKeeps(retained: seq<string>, command: string)
    requires command != "drush cc all" && command != "drush cc css-js"
    requires command == "drush updb" ==> "drush cc all" !in retained
    ensures Victim(TestPolicy(), retained, command) == ""
  {
    var snapshot := Insert(retained, command);
    var resolve := ResolverFor(command, snapshot);
    assert resolve(true, ["drush updb"], ["drush cc all"]) == "" by {
      if command == "drush updb" {
        assert forall j :: 0 <= j < |snapshot| ==> snapshot[j] !in ["drush cc all"];
      }
    }
    assert resolve(false, ["drush cc all"], ["drush updb"]) == "";
  }

  /** A new "drush cc all" is refused once "drush updb" is retained. */
  lemma PolicyRefusesCacheClear(retained: seq<string>)
    requires "drush updb" in retained
    ensures Victim(TestPolicy(), retained, "drush cc all") == "drush cc all"
  {
    var command := "drush cc all";
    var snapshot := Insert(retained, command);
    var resolve := ResolverFor(command, snapshot);
    assert resolve(true, ["drush updb"], ["drush cc all"]) == "";
    assert FirstMatch(snapshot, ["drush updb"]).Some? by {
      var i :| 0 <= i < |snapshot| && snapshot[i] == "drush updb";
    }
    assert resolve(false, ["drush cc all"], ["drush updb"]) == command;
  }

  /** "drush cc css-js" is dropped once "drush updb" is retained. */
  lemma PolicyDropsCssJs(retained: seq<string>)
    requires "drush updb" in retained
    ensures Victim(TestPolicy(), retained, "drush cc css-js") == "drush cc css-js"
  {
  }

  /** Filtering one more command the policy leaves alone appends it. */
  lemma KeptStep(p: Processor, commands: seq<string>, retained: seq<string>, command: string)
    requires FilterAll(p, commands) == retained
    requires command !in retained && command != "" && "" !in retained
    requires Victim(p, retained, command) == ""
    ensures FilterAll(p, commands + [command]) == retained + [command]
  {
    FilterAllSnoc(p, commands, command);
    RemoveAbsent(retained + [command], "");
  }

  /** Filtering one more command the policy names itself leaves the
      retained commands as they were. */
  lemma RefusedStep(p: Processor, commands: seq<string>, retained: seq<string>, command: string)
    requires FilterAll(p, commands) == retained
    requires command !in retained
    requires Victim(p, retained, command) == command
    ensures FilterAll(p, commands + [command]) == retained
  {
    FilterAllSnoc(p, commands, command);
    assert (retained + [command])[..|retained|] == retained;
    RemoveAbsent(retained, command);
  }

  /** A first command the policy leaves alone is kept. */
  lemma KeepFirstCommand(p: Processor, a: string)
    requires a != "" && Victim(p, [], a) == ""
    ensures FilterAll(p, [a]) == [a]
  {
    KeptStep(p, [], [], a);
    assert [] + [a] == [a];
  }

  /** Two more commands the policy leaves alone are both appended. */
  lemma KeepTwoMore(p: Processor, commands: seq<string>, retained: seq<string>, d: string, e: string)
    requires FilterAll(p, commands) == retained && "" !in retained
    requires d != "" && e != "" && d != e && d !in retained && e !in retained
    requires Victim(p, retained, d) == "" && Victim(p, retained + [d], e) == ""
    ensures FilterAll(p, commands + [d] + [e]) == retained + [d] + [e]
  {
    KeptStep(p, commands, retained, d);
    KeptStep(p, commands + [d], retained + [d], e);
  }

  /** Two more commands the policy names themselves are both dropped. */
  lemma RefuseTwoMore(p: Processor, commands: seq<string>, retained: seq<string>, b: string, c: string)
    requires FilterAll(p, commands) == retained
    requires b !in retained && c !in retained
    requires Victim(p, retained, b) == b && Victim(p, retained, c) == c
    ensures FilterAll(p, commands + [b] + [c]) == retained
  {
    RefusedStep(p, commands, retained, b);
    RefusedStep(p, commands + [b], retained, c);
  }

  /** Five commands, the first three kept and the last two refused by the
      policy as it meets them, leave the first three. */
  lemma KeepThreeRefuseTwo(p: Processor, a: string, b: string, c: string, d: string, e: string)
    requires a != "" && b != "" && c != "" && a != b && a != c && b != c
    requires d != a && d != b && d != c && e != a && e != b && e != c
    requires Victim(p, [], a) == "" && Victim(p, [a], b) == "" && Victim(p, [a] + [b], c) == ""
    requires Victim(p, [a] + [b] + [c], d) == d && Victim(p, [a] + [b] + [c], e) == e
    ensures FilterAll(p, [a] + [b] + [c] + [d] + [e]) == [a] + [b] + [c]
  {
    KeepFirstCommand(p, a);
    KeepTwoMore(p, [a], [a], b, c);
    RefuseTwoMore(p, [a] + [b] + [c], [a] + [b] + [c], d, e);
  }

  /** One command kept, two refused, then two more kept, leave the three
      kept ones. */
  lemma KeepOneRefuseTwoKeepTwo(p: Processor, a: string, b: string, c: string, d: string, e: string)
    requires a != "" && d != "" && e != "" && a != d && a != e && d != e
    requires b != a && c != a
    requires Victim(p, [], a) == "" && Victim(p, [a], b) == b && Victim(p, [a], c) == c
    requires Victim(p, [a], d) == "" && Victim(p, [a] + [d], e) == ""
    ensures FilterAll(p, [a] + [b] + [c] + [d] + [e]) == [a] + [d] + [e]
  {
    KeepFirstCommand(p, a);
    RefuseTwoMore(p, [a], [a], b, c);
    KeepTwoMore(p, [a] + [b] + [c], [a], d, e);
  }

  /** A five-command list is built one command at a time. */
  lemma FiveAsSingletons<T>(a: T, b: T, c: T, d: T, e: T)
    ensures [a, b, c, d, e] == [a] + [b] + [c] + [d] + [e]
  {
  }

  /** A three-command list is built one command at a time. */
  lemma ThreeAsSingletons<T>(a: T, b: T, c: T)
    ensures [a, b, c] == [a] + [b] + [c]
  {
  }

  /** With the regular order (the playbook file before the directory),
      the commands without a cache clear come first and are all kept, then
      both cache clears are dropped. */
  lemma FilteringRegularOrder(updb: string, ccDrush: string, echo: string, ccAll: string, cssJs: string)
    requires TestCommands(updb, ccDrush, echo, ccAll, cssJs)
    ensures FilterAll(TestPolicy(), [updb, ccDrush, echo, ccAll, cssJs]) == [updb, ccDrush, echo]
  {
    PolicyKeeps([], updb);
    PolicyKeeps([updb], ccDrush);
    PolicyKeeps([updb] + [ccDrush], echo);
    PolicyRefusesCacheClear([updb] + [ccDrush] + [echo]);
    PolicyDropsCssJs([updb] + [ccDrush] + [echo]);
    KeepThreeRefuseTwo(TestPolicy(), updb, ccDrush, echo, ccAll, cssJs);
    FiveAsSingletons(updb, ccDrush, echo, ccAll, cssJs);
    ThreeAsSingletons(updb, ccDrush, echo);
  }

  /** With the reverse order (the directory before the playbook file), both
      cache clears follow "drush updb" at once and are dropped; the rest is
      kept. Both orders give the same commands. */
  lemma FilteringReverseOrder(updb: string, ccDrush: string, echo: string, ccAll: string, cssJs: string)
    requires TestCommands(updb, ccDrush, echo, ccAll, cssJs)
    ensures FilterAll(TestPolicy(), [updb, ccAll, cssJs, ccDrush, echo]) == [updb, ccDrush, echo]
  {
    PolicyKeeps([], updb);
    PolicyRefusesCacheClear([updb]);
    PolicyDropsCssJs([updb]);
    PolicyKeeps([updb], ccDrush);
    PolicyKeeps([updb] + [ccDrush], echo);
    KeepOneRefuseTwoKeepTwo(TestPolicy(), updb, ccAll, cssJs, ccDrush, echo);
    FiveAsSingletons(updb, ccAll, cssJs, ccDrush, echo);
    ThreeAsSingletons(updb, ccDrush, echo);
  }

  /** A playbook with an old and a new entry, read at code version 5. */
  function TwoEntries(): seq<Entry>
  {
    [Entry(3, Str("old")), Entry(6, Str("new"))]
  }

  /** Two entries pass the gate one after the other. */
  lemma GateTwice(l: Ledger, current: int, path: string, a: Entry, b: Entry)
    ensures ProcessEntries(l, current, path, [a, b]) ==
            GateStep(GateStep(l, current, path, a), current, path, b)
  {
    assert [a, b][..1] == [a];
    assert [a][..0] == [];
    assert ProcessEntries(l, current, path, [a]) == GateStep(l, current, path, a);
  }

  /** Taking a single string entry into an empty slot. */
  lemma AcceptText(l: Ledger, path: string, v: int, s: string)
    requires v !in l.pending && s != "" && s != "0"
    ensures Accept(l, path, Entry(v, Str(s))) ==
            Ledger(l.pending[v := [Text(s)]], l.completed[path := v], if l.newVersion >= v then l.newVersion else v)
  {
    NormalizedShapes(Str(s));
  }

  /** A marked playbook contributes only its entry newer than the current
      code version. */
  lemma MarkedPlaybookSkipsOld()
    ensures ProcessEntries(Ledger(map[], map["p.yml" := 3], 5), 5, "p.yml", TwoEntries())
            == Ledger(map[6 := [Text("new")]], map["p.yml" := 6], 6)
  {
    var l0 := Ledger(map[], map["p.yml" := 3], 5);
    GateTwice(l0, 5, "p.yml", Entry(3, Str("old")), Entry(6, Str("new")));
    AcceptText(l0, "p.yml", 6, "new");
  }

  /** A playbook without a marker contributes its first entry whatever its
      version; that entry marks it, and its later old entries are skipped. */
  lemma UnmarkedPlaybookTakesFirst()
    ensures ProcessEntries(Ledger(map[], map[], 5), 5, "p.yml", TwoEntries())
            == Ledger(map[3 := [Text("old")], 6 := [Text("new")]], map["p.yml" := 6], 6)
    ensures ProcessEntries(Ledger(map[], map[], 5), 5, "p.yml", [Entry(1, Str("a")), Entry(2, Str("b"))])
            == Ledger(map[1 := [Text("a")]], map["p.yml" := 1], 5)
  {
    var l0 := Ledger(map[], map[], 5);
    GateTwice(l0, 5, "p.yml", Entry(3, Str("old")), Entry(6, Str("new")));
    AcceptText(l0, "p.yml", 3, "old");
    var l1 := Ledger(map[3 := [Text("old")]], map["p.yml" := 3], 5);
    AcceptText(l1, "p.yml", 6, "new");
    GateTwice(l0, 5, "p.yml", Entry(1, Str("a")), Entry(2, Str("b")));
    AcceptText(l0, "p.yml", 1, "a");
  }

  /** The marker records the last version taken, not the highest: versions
      5 then 3 leave the marker at 3 and the new code version at 5. */
  lemma MarkerFollowsDocumentOrder()
    ensures var l := ProcessEntries(Ledger(map[], map[], 0), 0, "p.yml", [Entry(5, Str("a")), Entry(3, Str("b"))]);
      l.completed["p.yml"] == 3 && l.newVersion == 5
  {
    GateTwice(Ledger(map[], map[], 0), 0, "p.yml", Entry(5, Str("a")), Entry(3, Str("b")));
  }

  /** A deployment cycle: open a worker on the saved revisions, read the
      playbooks, deploy, deploy once more, commit, and then open a second
      worker on the updated revision files, read the same playbooks and
      deploy. `repeated` and `again` are what the repeated deployment and
      the next run hand to the action, when they get that far. Once the
      first deployment succeeds, neither runs any command. */
  method DeployCycle(environment: string, versionFileBase: string, store: map<string, Saved>,
                     target: Target, action: string -> bool)
    returns (first: Outcome, repeated: Option<seq<string>>, again: Option<seq<string>>)
    ensures first.Pass? ==> repeated == Some([]) && again == Some([])
    ensures first.Fail? ==> repeated == None && again == None
  {
    var w := new Worker(environment, versionFileBase, store);
    ghost var l0 := w.Collected();
    ghost var v0 := w.currentCodeVersion;
    w.Read(target);
    ghost var l1 := w.Collected();
    var ran;
    ran, first := w.Deploy(action);
    if first.Fail? {
      return first, None, None;
    }
    var ran2, o2 := w.Deploy(action);
    repeated := if o2.Pass? then Some(ran2) else None;
    var rev := w.Commit(true);
    var saved := store[rev.value.file := Stored(rev.value)];
    var w2 := new Worker(environment, versionFileBase, saved);
    assert w2.Collected() == Reloaded(l1);
    RereadAfterSaveIsNoOp(l0, v0, environment, target);
    w2.Read(target);
    var ran3, o3 := w2.Deploy(action);
    again := if o3.Pass? then Some(ran3) else None;
  }
}
