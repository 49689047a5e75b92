/** How `read` turns playbooks into version-grouped commands: which paths are
    playbooks, which groups apply, the two-level version gate over the live
    `completed` map, and the flattening of the groups in ascending version
    order. The worker's methods are proved against these functions. */
module Aggregate {
  import opened Types
  import opened Ordering

  // ---------------------------------------------------------------- paths

  /** Index of the dot that starts the extension of the last path segment. */
  function ExtensionDot(path: string): (k: Option<nat>)
    ensures k.Some? ==> k.value < |path| && path[k.value] == '.'
    ensures k.Some? ==> forall j :: k.value < j < |path| ==> path[j] != '.' && path[j] != '/'
    decreases |path|
  {
    if path == [] then None
    else if path[|path| - 1] == '.' then Some(|path| - 1)
    else if path[|path| - 1] == '/' then None
    else ExtensionDot(path[..|path| - 1])
  }

  /** `pathinfo($path, PATHINFO_EXTENSION)`. */
  function Extension(path: string): string
  {
    match ExtensionDot(path)
    case None => ""
    case Some(k) => path[k + 1..]
  }

  /** Only `yaml` and `yml` files are read as playbooks. */
  predicate IsPlaybookPath(path: string)
  {
    Extension(path) == "yaml" || Extension(path) == "yml"
  }

  /** The dot before a final segment without dots or slashes starts the
      extension. */
  lemma {:induction false} DotBeforeTail(pre: string, ext: string)
    requires forall i :: 0 <= i < |ext| ==> ext[i] != '.' && ext[i] != '/'
    ensures ExtensionDot(pre + "." + ext) == Some(|pre|)
    decreases |ext|
  {
    var p := pre + "." + ext;
    if ext != [] {
      assert p[..|p| - 1] == pre + "." + ext[..|ext| - 1];
      DotBeforeTail(pre, ext[..|ext| - 1]);
    } else {
      assert p[|p| - 1] == '.';
    }
  }

  lemma SuffixIsPlaybook(path: string, ext: string)
    requires ext == "yml" || ext == "yaml"
    requires |path| > |ext| && path[|path| - |ext| - 1..] == "." + ext
    ensures IsPlaybookPath(path)
  {
    var n := |path|;
    var pre := path[..n - |ext| - 1];
    assert path == pre + "." + ext by {
      assert path == pre + path[n - |ext| - 1..];
    }
    DotBeforeTail(pre, ext);
  }

  lemma PlaybookHasSuffix(path: string)
    requires IsPlaybookPath(path)
    ensures (|path| >= 4 && path[|path| - 4..] == ".yml") || (|path| >= 5 && path[|path| - 5..] == ".yaml")
  {
    var k := ExtensionDot(path).value;
    var ext := path[k + 1..];
    assert path[k..] == ['.'] + ext;
  }

  /** A path is read as a playbook exactly when it ends in `.yml` or `.yaml`. */
  lemma PlaybookPathSuffix(path: string)
    ensures IsPlaybookPath(path) <==>
      (|path| >= 4 && path[|path| - 4..] == ".yml") || (|path| >= 5 && path[|path| - 5..] == ".yaml")
  {
    if IsPlaybookPath(path) {
      PlaybookHasSuffix(path);
    } else if |path| >= 4 && path[|path| - 4..] == ".yml" {
      SuffixIsPlaybook(path, "yml");
    } else if |path| >= 5 && path[|path| - 5..] == ".yaml" {
      SuffixIsPlaybook(path, "yaml");
    }
  }

  // ------------------------------------------------ normalising a version

  /** PHP truthiness of one list entry: `""`, `"0"` and falsy other values. */
  predicate Falsy(it: Item)
  {
    match it
    case Text(s) => s == "" || s == "0"
    case Opaque(f) => f
  }

  /** `(array) $commands`: one command string becomes a one-entry list. */
  function AsList(value: CmdValue): seq<Item>
  {
    match value
    case Str(s) => [Text(s)]
    case List(items) => items
    case Complex(f) => [Opaque(f)]
  }

  /** `array_filter`: drops the falsy entries and keeps the rest in order. */
  function Compact(items: seq<Item>): (r: seq<Item>)
    ensures forall it :: it in r <==> it in items && !Falsy(it)
    ensures |r| <= |items|
    decreases |items|
  {
    if items == [] then []
    else
      var last := items[|items| - 1];
      assert items == items[..|items| - 1] + [last];
      Compact(items[..|items| - 1]) + (if Falsy(last) then [] else [last])
  }

  /** `array_filter` works entry by entry: it distributes over concatenation. */
  lemma {:induction false} CompactConcat(a: seq<Item>, b: seq<Item>)
    ensures Compact(a + b) == Compact(a) + Compact(b)
    decreases |b|
  {
    if b != [] {
      var b' := b[..|b| - 1];
      assert (a + b)[..|a + b| - 1] == a + b';
      CompactConcat(a, b');
    } else {
      assert a + b == a;
    }
  }

  /** The entries one version contributes. */
  function Normalized(value: CmdValue): seq<Item>
  {
    Compact(AsList(value))
  }

  /** A single string is wrapped as one command, unless it is falsy; a list
      keeps exactly its truthy entries in order. */
  lemma NormalizedShapes(value: CmdValue)
    ensures value.Str? ==>
      Normalized(value) == if value.s == "" || value.s == "0" then [] else [Text(value.s)]
    ensures value.List? ==> forall it :: it in Normalized(value) <==> it in value.items && !Falsy(it)
    ensures forall it :: it in Normalized(value) ==> !Falsy(it)
  {
    if value.Str? {
      assert AsList(value)[..0] == [];
    }
  }

  // ----------------------------------------------------------- the ledger

  /** What reading updates: commands grouped by version, the per-document
      markers and the running new code version. */
  datatype Ledger = Ledger(pending: map<int, seq<Item>>, completed: map<string, int>, newVersion: int)

  /** The commands stored under `v` so far (none when the slot is absent). */
  function Slot(pending: map<int, seq<Item>>, v: int): seq<Item>
  {
    if v in pending then pending[v] else []
  }

  /** The version gate: a version is skipped when it is not newer than the
      current code version AND the document already has a marker. */
  predicate AlreadyApplied(current: int, completed: map<string, int>, path: string, version: int)
  {
    version <= current && path in completed
  }

  /** Taking one entry: append its commands to the version's slot, mark the
      document with this version, raise the new version to it. */
  function Accept(l: Ledger, path: string, e: Entry): Ledger
  {
    Ledger(l.pending[e.version := Slot(l.pending, e.version) + Normalized(e.value)],
           l.completed[path := e.version],
           if l.newVersion >= e.version then l.newVersion else e.version)
  }

  /** One iteration of the inner loop, judged against the live marker map. */
  function GateStep(l: Ledger, current: int, path: string, e: Entry): Ledger
  {
    if AlreadyApplied(current, l.completed, path, e.version) then l else Accept(l, path, e)
  }

  /** The entries of one document, in document order, passed through the gate. */
  function ProcessEntries(l: Ledger, current: int, path: string, es: seq<Entry>): Ledger
    decreases |es|
  {
    if es == [] then l
    else GateStep(ProcessEntries(l, current, path, es[..|es| - 1]), current, path, es[|es| - 1])
  }

  /** Passing entries through the gate in two runs is one run over both. */
  lemma {:induction false} ProcessEntriesConcat(l: Ledger, current: int, path: string, a: seq<Entry>, b: seq<Entry>)
    ensures ProcessEntries(l, current, path, a + b) ==
            ProcessEntries(ProcessEntries(l, current, path, a), current, path, b)
    decreases |b|
  {
    if b == [] {
      assert a + b == a;
    } else {
      assert (a + b)[..|a + b| - 1] == a + b[..|b| - 1];
      ProcessEntriesConcat(l, current, path, a, b[..|b| - 1]);
    }
  }

  /** Entries taken without a gate. */
  function AcceptAll(l: Ledger, path: string, es: seq<Entry>): Ledger
    decreases |es|
  {
    if es == [] then l
    else Accept(AcceptAll(l, path, es[..|es| - 1]), path, es[|es| - 1])
  }

  /** The entries the gate lets through, in closed form: every entry newer
      than the current version, and also the first entry of a document that
      had no marker (which then gets one, closing the gate for the rest). */
  function Admitted(es: seq<Entry>, current: int, marked: bool): (r: seq<Entry>)
    ensures IsSubseq(r, es)
    decreases |es|
  {
    if es == [] then []
    else
      var init := Admitted(es[..|es| - 1], current, marked);
      var last := es[|es| - 1];
      assert es == es[..|es| - 1] + [last];
      if last.version > current || (!marked && |es| == 1) then
        SubseqKeepRight(init, es[..|es| - 1], last);
        init + [last]
      else
        SubseqDropRight(init, es[..|es| - 1], last);
        init
  }

  lemma {:induction false} AdmittedStartsWithFirst(es: seq<Entry>, current: int)
    requires es != []
    ensures Admitted(es, current, false) != [] && Admitted(es, current, false)[0] == es[0]
    decreases |es|
  {
    if |es| > 1 {
      AdmittedStartsWithFirst(es[..|es| - 1], current);
    }
  }

  /** Every entry newer than the current version is admitted. */
  lemma {:induction false} AdmittedKeepsNewer(es: seq<Entry>, current: int, marked: bool)
    ensures forall i :: 0 <= i < |es| && es[i].version > current ==> es[i] in Admitted(es, current, marked)
    decreases |es|
  {
    if es != [] {
      var init := es[..|es| - 1];
      AdmittedKeepsNewer(init, current, marked);
      forall i | 0 <= i < |es| - 1 && es[i].version > current
        ensures es[i] in Admitted(es, current, marked)
      {
        assert es[i] == init[i];
      }
    }
  }

  /** Nothing is admitted for a marked document whose versions are all old. */
  lemma {:induction false} AdmittedNoneWhenSettled(es: seq<Entry>, current: int)
    requires forall e :: e in es ==> e.version <= current
    ensures Admitted(es, current, true) == []
    decreases |es|
  {
    if es != [] {
      assert es[|es| - 1] in es;
      forall e | e in es[..|es| - 1] ensures e.version <= current {
        assert e in es;
      }
      AdmittedNoneWhenSettled(es[..|es| - 1], current);
    }
  }

  /** After ungated acceptance the document has a marker iff it had one or
      something was taken, and the marker is the LAST taken version. */
  lemma {:induction false} AcceptAllMarker(l: Ledger, path: string, es: seq<Entry>)
    ensures AcceptAll(l, path, es).completed ==
      if es == [] then l.completed else l.completed[path := es[|es| - 1].version]
    decreases |es|
  {
    if es != [] {
      AcceptAllMarker(l, path, es[..|es| - 1]);
    }
  }

  /** The new version is the maximum of the old one and every taken version. */
  lemma {:induction false} AcceptAllNewVersion(l: Ledger, path: string, es: seq<Entry>)
    ensures l.newVersion <= AcceptAll(l, path, es).newVersion
    ensures forall e :: e in es ==> e.version <= AcceptAll(l, path, es).newVersion
    ensures AcceptAll(l, path, es).newVersion == l.newVersion ||
            exists e :: e in es && AcceptAll(l, path, es).newVersion == e.version
    decreases |es|
  {
    if es != [] {
      var init := es[..|es| - 1];
      AcceptAllNewVersion(l, path, init);
      assert es == init + [es[|es| - 1]];
      var r0 := AcceptAll(l, path, init);
      if r0.newVersion != l.newVersion {
        var e0 :| e0 in init && r0.newVersion == e0.version;
        assert e0 in es;
      }
    }
  }

  /** The commands a sequence of taken entries adds under version `v`. */
  function ItemsAt(es: seq<Entry>, v: int): seq<Item>
    decreases |es|
  {
    if es == [] then []
    else
      var last := es[|es| - 1];
      ItemsAt(es[..|es| - 1], v) + (if last.version == v then Normalized(last.value) else [])
  }

  /** Taking one entry appends its commands to its own version's slot and
      leaves every other slot alone. */
  lemma AcceptSlot(l: Ledger, path: string, e: Entry, v: int)
    ensures Slot(Accept(l, path, e).pending, v) ==
            Slot(l.pending, v) + (if e.version == v then Normalized(e.value) else [])
  {
    if e.version != v {
      assert Slot(l.pending, v) + [] == Slot(l.pending, v);
    }
  }

  /** Taken entries are appended after what a version's slot already held,
      in the order they were taken. */
  lemma {:induction false} AcceptAllSlot(l: Ledger, path: string, es: seq<Entry>, v: int)
    ensures Slot(AcceptAll(l, path, es).pending, v) == Slot(l.pending, v) + ItemsAt(es, v)
    decreases |es|
  {
    if es != [] {
      var init := es[..|es| - 1];
      var last := es[|es| - 1];
      var mid := AcceptAll(l, path, init);
      var tail := if last.version == v then Normalized(last.value) else [];
      calc {
        Slot(AcceptAll(l, path, es).pending, v);
        Slot(Accept(mid, path, last).pending, v);
        { AcceptSlot(mid, path, last, v); }
        Slot(mid.pending, v) + tail;
        { AcceptAllSlot(l, path, init, v); }
        (Slot(l.pending, v) + ItemsAt(init, v)) + tail;
        { AppendAssoc(Slot(l.pending, v), ItemsAt(init, v), tail); }
        Slot(l.pending, v) + (ItemsAt(init, v) + tail);
        Slot(l.pending, v) + ItemsAt(es, v);
      }
    }
  }

  lemma AppendAssoc<T>(a: seq<T>, b: seq<T>, c: seq<T>)
    ensures (a + b) + c == a + (b + c)
  {
  }

  /** A version's slot exists once any entry of that version has been taken. */
  lemma {:induction false} AcceptAllSlotExists(l: Ledger, path: string, es: seq<Entry>, v: int)
    ensures v in AcceptAll(l, path, es).pending <==> v in l.pending || exists e :: e in es && e.version == v
    decreases |es|
  {
    if es != [] {
      var init := es[..|es| - 1];
      var last := es[|es| - 1];
      AcceptAllSlotExists(l, path, init, v);
      assert es == init + [last];
      if exists e :: e in es && e.version == v {
        var e :| e in es && e.version == v;
        if e != last { assert e in init; }
      }
      if exists e :: e in init && e.version == v {
        var e :| e in init && e.version == v;
        assert e in es;
      }
    }
  }

  /** The gate in closed form: running a document's entries through the live
      gate takes exactly the `Admitted` entries. */
  lemma {:induction false} GateClosedForm(l: Ledger, current: int, path: string, es: seq<Entry>)
    ensures ProcessEntries(l, current, path, es) ==
            AcceptAll(l, path, Admitted(es, current, path in l.completed))
    decreases |es|
  {
    if es != [] {
      var init := es[..|es| - 1];
      var last := es[|es| - 1];
      var marked := path in l.completed;
      GateClosedForm(l, current, path, init);
      var a := Admitted(init, current, marked);
      var mid := AcceptAll(l, path, a);
      AcceptAllMarker(l, path, a);
      if !marked && |es| > 1 {
        AdmittedStartsWithFirst(init, current);
      }
      if last.version > current || (!marked && |es| == 1) {
        assert Admitted(es, current, marked) == a + [last];
        assert (a + [last])[..|a|] == a;
      } else {
        assert Admitted(es, current, marked) == a;
      }
    }
  }

  /** After a document is read, its marker holds the version of the last
      entry taken from it, which need not be the largest. */
  lemma MarkerIsLastTaken(l: Ledger, current: int, path: string, es: seq<Entry>)
    ensures var a := Admitted(es, current, path in l.completed);
      ProcessEntries(l, current, path, es).completed ==
        if a == [] then l.completed else l.completed[path := a[|a| - 1].version]
  {
    GateClosedForm(l, current, path, es);
    AcceptAllMarker(l, path, Admitted(es, current, path in l.completed));
  }

  /** Reading never lowers the new version, and leaves it at least as high as
      every version the gate let through. */
  lemma NewVersionRises(l: Ledger, current: int, path: string, es: seq<Entry>)
    ensures l.newVersion <= ProcessEntries(l, current, path, es).newVersion
    ensures forall e :: e in Admitted(es, current, path in l.completed) ==>
      e.version <= ProcessEntries(l, current, path, es).newVersion
  {
    GateClosedForm(l, current, path, es);
    AcceptAllNewVersion(l, path, Admitted(es, current, path in l.completed));
  }

  /** A document already marked whose versions are all old contributes
      nothing at all. */
  lemma SettledDocumentIsSkipped(l: Ledger, current: int, path: string, es: seq<Entry>)
    requires path in l.completed
    requires forall e :: e in es ==> e.version <= current
    ensures ProcessEntries(l, current, path, es) == l
  {
    GateClosedForm(l, current, path, es);
    AdmittedNoneWhenSettled(es, current);
  }

  /** What the worker keeps true of its ledger: no stored version is above
      the new version and no stored entry is falsy. */
  predicate Consistent(l: Ledger)
  {
    forall v :: v in l.pending ==>
      v <= l.newVersion && forall i :: 0 <= i < |l.pending[v]| ==> !Falsy(l.pending[v][i])
  }

  /** One gate step keeps the ledger consistent and never lowers the new
      version. */
  lemma GateStepConsistent(l: Ledger, current: int, path: string, e: Entry)
    requires Consistent(l)
    ensures Consistent(GateStep(l, current, path, e))
    ensures l.newVersion <= GateStep(l, current, path, e).newVersion
  {
    if !AlreadyApplied(current, l.completed, path, e.version) {
      NormalizedShapes(e.value);
      var l1 := Accept(l, path, e);
      forall v | v in l1.pending
        ensures v <= l1.newVersion && forall i :: 0 <= i < |l1.pending[v]| ==> !Falsy(l1.pending[v][i])
      {
        if v == e.version {
          var s := Slot(l.pending, v);
          forall i | 0 <= i < |l1.pending[v]| ensures !Falsy(l1.pending[v][i]) {
            if i >= |s| {
              assert l1.pending[v][i] in Normalized(e.value);
            }
          }
        }
      }
    }
  }

  // ------------------------------------------------------ groups and files

  /** Only the `global` group and the worker's own environment apply. */
  predicate Selected(name: string, environment: string)
  {
    name == "global" || name == environment
  }

  /** The entries of the applicable groups, group by group in document order. */
  function DocEntries(groups: seq<Group>, environment: string): seq<Entry>
    decreases |groups|
  {
    if groups == [] then []
    else
      var last := groups[|groups| - 1];
      DocEntries(groups[..|groups| - 1], environment) +
        (if Selected(last.name, environment) then last.versions else [])
  }

  /** An entry is considered exactly when it sits in an applicable group. */
  lemma {:induction false} DocEntriesSelects(groups: seq<Group>, environment: string)
    ensures forall e :: e in DocEntries(groups, environment) <==>
      exists g :: g in groups && Selected(g.name, environment) && e in g.versions
    decreases |groups|
  {
    if groups != [] {
      var init := groups[..|groups| - 1];
      DocEntriesSelects(init, environment);
      assert groups == init + [groups[|groups| - 1]];
      forall e ensures e in DocEntries(groups, environment) <==>
        exists g :: g in groups && Selected(g.name, environment) && e in g.versions
      {
        if exists g :: g in groups && Selected(g.name, environment) && e in g.versions {
          var g :| g in groups && Selected(g.name, environment) && e in g.versions;
          if g != groups[|groups| - 1] { assert g in init; }
        }
        if exists g :: g in init && Selected(g.name, environment) && e in g.versions {
          var g :| g in init && Selected(g.name, environment) && e in g.versions;
          assert g in groups;
        }
      }
    }
  }

  /** `processPlaybook`: non-playbook paths are ignored; a playbook's
      applicable entries go through the gate. */
  function PlaybookEffect(l: Ledger, current: int, environment: string, path: string, doc: Playbook): Ledger
  {
    if IsPlaybookPath(path) then ProcessEntries(l, current, path, DocEntries(doc.commands, environment))
    else l
  }

  /** The files of a directory, processed in the order of `paths`. */
  function FilesEffect(l: Ledger, current: int, environment: string,
                       files: map<string, Playbook>, paths: seq<string>): Ledger
    requires forall p :: p in paths ==> p in files
    decreases |paths|
  {
    if paths == [] then l
    else
      var p := paths[|paths| - 1];
      PlaybookEffect(FilesEffect(l, current, environment, files, paths[..|paths| - 1]),
                     current, environment, p, files[p])
  }

  /** `read`: a directory's entries in ascending path order, a single file
      directly, and a missing path leaves everything as it was. */
  function ReadEffect(l: Ledger, current: int, environment: string, target: Target): Ledger
  {
    match target
    case Directory(files) => FilesEffect(l, current, environment, files, AscendingPaths(files.Keys))
    case File(path, doc) => PlaybookEffect(l, current, environment, path, doc)
    case Missing(_) => l
  }

  /** A file that is not a playbook contributes nothing. */
  lemma NonPlaybookIgnored(l: Ledger, current: int, environment: string, path: string, doc: Playbook)
    requires !((|path| >= 4 && path[|path| - 4..] == ".yml") || (|path| >= 5 && path[|path| - 5..] == ".yaml"))
    ensures PlaybookEffect(l, current, environment, path, doc) == l
  {
    PlaybookPathSuffix(path);
  }

  // ----------------------------------------------------------- flattening

  /** The commands of the versions `vs`, version after version. */
  function FlattenAlong(pending: map<int, seq<Item>>, vs: seq<int>): seq<Item>
    decreases |vs|
  {
    if vs == [] then []
    else FlattenAlong(pending, vs[..|vs| - 1]) + Slot(pending, vs[|vs| - 1])
  }

  /** `ksort` followed by the nested `foreach`: all commands, versions in
      ascending numeric order, each version's commands in insertion order. */
  function Flatten(pending: map<int, seq<Item>>): seq<Item>
  {
    FlattenAlong(pending, AscendingVersions(pending.Keys))
  }

  lemma {:induction false} FlattenAlongTruthy(l: Ledger, vs: seq<int>)
    requires Consistent(l)
    ensures forall i :: 0 <= i < |FlattenAlong(l.pending, vs)| ==> !Falsy(FlattenAlong(l.pending, vs)[i])
    decreases |vs|
  {
    if vs != [] {
      var init := vs[..|vs| - 1];
      var last := vs[|vs| - 1];
      FlattenAlongTruthy(l, init);
      var a := FlattenAlong(l.pending, init);
      forall i | 0 <= i < |FlattenAlong(l.pending, vs)| ensures !Falsy(FlattenAlong(l.pending, vs)[i]) {
        if i >= |a| {
          assert FlattenAlong(l.pending, vs)[i] == Slot(l.pending, last)[i - |a|];
        }
      }
    }
  }

  /** A consistent ledger flattens to truthy entries only. */
  lemma FlattenTruthy(l: Ledger)
    requires Consistent(l)
    ensures forall i :: 0 <= i < |Flatten(l.pending)| ==> !Falsy(Flatten(l.pending)[i])
  {
    FlattenAlongTruthy(l, AscendingVersions(l.pending.Keys));
  }

  lemma {:induction false} FlattenAlongConcat(pending: map<int, seq<Item>>, a: seq<int>, b: seq<int>)
    ensures FlattenAlong(pending, a + b) == FlattenAlong(pending, a) + FlattenAlong(pending, b)
    decreases |b|
  {
    if b == [] {
      assert a + b == a;
    } else {
      var b' := b[..|b| - 1];
      assert (a + b)[..|a + b| - 1] == a + b';
      FlattenAlongConcat(pending, a, b');
    }
  }

  lemma FlattenAlongSnoc(pending: map<int, seq<Item>>, vs: seq<int>, v: int)
    ensures FlattenAlong(pending, vs + [v]) == FlattenAlong(pending, vs) + Slot(pending, v)
  {
    assert (vs + [v])[..|vs|] == vs;
  }

  /** One more version of a prefix of `vs`. */
  lemma FlattenAlongPrefix(pending: map<int, seq<Item>>, vs: seq<int>, i: nat)
    requires i < |vs|
    ensures FlattenAlong(pending, vs[..i + 1]) == FlattenAlong(pending, vs[..i]) + Slot(pending, vs[i])
  {
    assert vs[..i + 1][..i] == vs[..i];
  }

  /** The commands along `vs` around the slot of its entry at `i`. */
  lemma FlattenAlongAround(pending: map<int, seq<Item>>, vs: seq<int>, i: nat)
    requires i < |vs|
    ensures FlattenAlong(pending, vs) ==
            FlattenAlong(pending, vs[..i]) + Slot(pending, vs[i]) + FlattenAlong(pending, vs[i + 1..])
  {
    assert vs == (vs[..i] + [vs[i]]) + vs[i + 1..];
    FlattenAlongSnoc(pending, vs[..i], vs[i]);
    FlattenAlongConcat(pending, vs[..i] + [vs[i]], vs[i + 1..]);
  }

  lemma {:induction false} FlattenAlongAgree(m: map<int, seq<Item>>, m': map<int, seq<Item>>, vs: seq<int>)
    requires forall v :: v in vs ==> Slot(m, v) == Slot(m', v)
    ensures FlattenAlong(m, vs) == FlattenAlong(m', vs)
    decreases |vs|
  {
    if vs != [] {
      assert vs[|vs| - 1] in vs;
      assert forall v :: v in vs[..|vs| - 1] ==> v in vs;
      FlattenAlongAgree(m, m', vs[..|vs| - 1]);
    }
  }

  /** The slots of the versions below `v`. */
  function Below(pending: map<int, seq<Item>>, v: int): (r: map<int, seq<Item>>)
    ensures forall k :: k in r <==> k in pending && k < v
    ensures forall k :: k in r ==> r[k] == pending[k]
  {
    map k | k in pending && k < v :: pending[k]
  }

  /** The slots of the versions above `v`. */
  function Above(pending: map<int, seq<Item>>, v: int): (r: map<int, seq<Item>>)
    ensures forall k :: k in r <==> k in pending && k > v
    ensures forall k :: k in r ==> r[k] == pending[k]
  {
    map k | k in pending && k > v :: pending[k]
  }

  /** The ascending versions split around a stored version `v`. */
  lemma AscendingAround(pending: map<int, seq<Item>>, v: int)
    requires v in pending
    ensures AscendingVersions(pending.Keys) ==
      AscendingVersions(Below(pending, v).Keys) + [v] + AscendingVersions(Above(pending, v).Keys)
  {
    var lo := AscendingVersions(Below(pending, v).Keys);
    var hi := AscendingVersions(Above(pending, v).Keys);
    AroundUnique(pending.Keys, v, lo, hi, AscendingVersions(pending.Keys));
  }

  /** An ascending list of versions is the ascending list of those below `v`,
      then `v`, then the ascending list of those above it. */
  lemma AroundUnique(keys: set<int>, v: int, lo: seq<int>, hi: seq<int>, all: seq<int>)
    requires v in keys
    requires Increasing(lo) && Increasing(hi) && Increasing(all)
    requires forall k :: k in lo <==> k in keys && k < v
    requires forall k :: k in hi <==> k in keys && k > v
    requires forall k :: k in all <==> k in keys
    ensures all == lo + [v] + hi
  {
    assert forall i :: 0 <= i < |lo| ==> lo[i] in lo;
    assert forall i :: 0 <= i < |hi| ==> hi[i] in hi;
    IncreasingAround(lo, v, hi);
    forall k ensures k in lo + [v] + hi <==> k in all {
      if k in keys && k != v {
        if k < v { assert k in lo; } else { assert k in hi; }
      }
    }
    IncreasingUnique(lo + [v] + hi, all);
  }

  /** Version order of the flattened commands: everything stored under a
      lower version comes before version `v`'s commands, which keep their
      insertion order, and everything under a higher version comes after. */
  lemma FlattenSplit(pending: map<int, seq<Item>>, v: int)
    requires v in pending
    ensures Flatten(pending) == Flatten(Below(pending, v)) + pending[v] + Flatten(Above(pending, v))
  {
    var below, above := Below(pending, v), Above(pending, v);
    var lo := AscendingVersions(below.Keys);
    var hi := AscendingVersions(above.Keys);
    AscendingAround(pending, v);
    FlattenAlongConcat(pending, lo + [v], hi);
    FlattenAlongConcat(pending, lo, [v]);
    assert FlattenAlong(pending, [v]) == pending[v] by {
      assert [v][..0] == [];
    }
    assert forall k :: k in lo ==> k in below;
    assert forall k :: k in hi ==> k in above;
    FlattenAlongAgree(pending, below, lo);
    FlattenAlongAgree(pending, above, hi);
  }

  // ----------------------------------------------------- rereading a run

  /** A document that reading has fully absorbed: it has no entries, or it is
      marked and none of its versions is newer than `current`. */
  predicate Settled(completed: map<string, int>, current: int, path: string, es: seq<Entry>)
  {
    es == [] || (path in completed && forall e :: e in es ==> e.version <= current)
  }

  /** Reading a document settles it against the state reading leaves behind. */
  lemma ReadingSettles(l: Ledger, current: int, path: string, es: seq<Entry>)
    requires current <= l.newVersion
    ensures var l1 := ProcessEntries(l, current, path, es);
      Settled(l1.completed, l1.newVersion, path, es)
  {
    var marked := path in l.completed;
    var a := Admitted(es, current, marked);
    var l1 := ProcessEntries(l, current, path, es);
    GateClosedForm(l, current, path, es);
    AcceptAllNewVersion(l, path, a);
    AcceptAllMarker(l, path, a);
    AdmittedKeepsNewer(es, current, marked);
    if es != [] {
      if !marked { AdmittedStartsWithFirst(es, current); }
      forall e | e in es ensures e.version <= l1.newVersion {
        var i :| 0 <= i < |es| && es[i] == e;
        if e.version > current { assert e in a; }
      }
    }
  }

  /** Markers and the new version only grow, so a settled document stays
      settled while more entries are read. */
  lemma {:induction false} SettledPersists(l: Ledger, current: int, path: string, es: seq<Entry>,
                                            q: string, fs: seq<Entry>)
    requires Settled(l.completed, l.newVersion, q, fs)
    ensures var l1 := ProcessEntries(l, current, path, es);
      Settled(l1.completed, l1.newVersion, q, fs)
  {
    var a := Admitted(es, current, path in l.completed);
    GateClosedForm(l, current, path, es);
    AcceptAllMarker(l, path, a);
    AcceptAllNewVersion(l, path, a);
  }

  /** A settled document contributes nothing when read again. */
  lemma SettledIsSkipped(l: Ledger, path: string, es: seq<Entry>)
    requires Settled(l.completed, l.newVersion, path, es)
    ensures ProcessEntries(l, l.newVersion, path, es) == l
  {
    if es != [] {
      SettledDocumentIsSkipped(l, l.newVersion, path, es);
    }
  }

  /** The state a later run starts from once this run's revision is saved:
      the saved version is both the current and the new version. */
  function Reloaded(l: Ledger): Ledger
  {
    Ledger(map[], l.completed, l.newVersion)
  }

  /** Every file of `paths` is settled against `l`. */
  predicate AllSettled(l: Ledger, environment: string, files: map<string, Playbook>, paths: seq<string>)
    requires forall p :: p in paths ==> p in files
  {
    forall i :: 0 <= i < |paths| && IsPlaybookPath(paths[i]) ==>
      Settled(l.completed, l.newVersion, paths[i], DocEntries(files[paths[i]].commands, environment))
  }

  lemma AllSettledPersists(mid: Ledger, current: int, path: string, es: seq<Entry>,
                           environment: string, files: map<string, Playbook>, paths: seq<string>)
    requires forall p :: p in paths ==> p in files
    requires AllSettled(mid, environment, files, paths)
    ensures AllSettled(ProcessEntries(mid, current, path, es), environment, files, paths)
  {
    forall i | 0 <= i < |paths| && IsPlaybookPath(paths[i])
      ensures Settled(ProcessEntries(mid, current, path, es).completed,
                      ProcessEntries(mid, current, path, es).newVersion,
                      paths[i], DocEntries(files[paths[i]].commands, environment))
    {
      SettledPersists(mid, current, path, es, paths[i], DocEntries(files[paths[i]].commands, environment));
    }
  }

  /** Settling one more file extends a settled prefix of the paths. */
  lemma AllSettledSnoc(l: Ledger, environment: string, files: map<string, Playbook>, paths: seq<string>)
    requires paths != [] && forall p :: p in paths ==> p in files
    requires AllSettled(l, environment, files, paths[..|paths| - 1])
    requires IsPlaybookPath(paths[|paths| - 1]) ==>
      Settled(l.completed, l.newVersion, paths[|paths| - 1], DocEntries(files[paths[|paths| - 1]].commands, environment))
    ensures AllSettled(l, environment, files, paths)
  {
    var init := paths[..|paths| - 1];
    forall i | 0 <= i < |paths| && IsPlaybookPath(paths[i])
      ensures Settled(l.completed, l.newVersion, paths[i], DocEntries(files[paths[i]].commands, environment))
    {
      if i < |init| { assert paths[i] == init[i]; }
    }
  }

  lemma {:induction false} FilesSettle(l: Ledger, current: int, environment: string,
                                       files: map<string, Playbook>, paths: seq<string>)
    requires current <= l.newVersion
    requires forall p :: p in paths ==> p in files
    ensures current <= FilesEffect(l, current, environment, files, paths).newVersion
    ensures AllSettled(FilesEffect(l, current, environment, files, paths), environment, files, paths)
    decreases |paths|
  {
    if paths != [] {
      var init := paths[..|paths| - 1];
      var p := paths[|paths| - 1];
      FilesSettle(l, current, environment, files, init);
      var mid := FilesEffect(l, current, environment, files, init);
      var last := FilesEffect(l, current, environment, files, paths);
      if IsPlaybookPath(p) {
        var es := DocEntries(files[p].commands, environment);
        assert last == ProcessEntries(mid, current, p, es);
        NewVersionRises(mid, current, p, es);
        ReadingSettles(mid, current, p, es);
        AllSettledPersists(mid, current, p, es, environment, files, init);
      } else {
        assert last == mid;
      }
      AllSettledSnoc(last, environment, files, paths);
    }
  }

  lemma {:induction false} SettledFilesAreSkipped(l: Ledger, environment: string,
                                                  files: map<string, Playbook>, paths: seq<string>)
    requires forall p :: p in paths ==> p in files
    requires AllSettled(l, environment, files, paths)
    ensures FilesEffect(l, l.newVersion, environment, files, paths) == l
    decreases |paths|
  {
    if paths != [] {
      var init := paths[..|paths| - 1];
      var p := paths[|paths| - 1];
      assert AllSettled(l, environment, files, init) by {
        forall i | 0 <= i < |init| && IsPlaybookPath(init[i])
          ensures Settled(l.completed, l.newVersion, init[i], DocEntries(files[init[i]].commands, environment))
        {
          assert init[i] == paths[i];
        }
      }
      SettledFilesAreSkipped(l, environment, files, init);
      if IsPlaybookPath(p) {
        SettledIsSkipped(l, p, DocEntries(files[p].commands, environment));
      }
    }
  }

  /** Idempotence of deployment runs: once a run's revision is saved, reading
      the same target again in the next run queues no command and changes no
      marker or version. */
  lemma RereadAfterSaveIsNoOp(l: Ledger, current: int, environment: string, target: Target)
    requires current <= l.newVersion
    ensures var l1 := ReadEffect(l, current, environment, target);
      ReadEffect(Reloaded(l1), l1.newVersion, environment, target) == Reloaded(l1)
  {
    var l1 := ReadEffect(l, current, environment, target);
    match target {
      case Directory(files) =>
        var paths := AscendingPaths(files.Keys);
        FilesSettle(l, current, environment, files, paths);
        SettledFilesAreSkipped(Reloaded(l1), environment, files, paths);
      case File(path, doc) =>
        if IsPlaybookPath(path) {
          var es := DocEntries(doc.commands, environment);
          ReadingSettles(l, current, path, es);
          SettledIsSkipped(Reloaded(l1), path, es);
        }
      case Missing(_) =>
    }
  }
}
