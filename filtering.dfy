/** What `filter` computes: the flattened commands run once through an
    insertion-ordered, de-duplicating set, with a caller's policy removing
    one key after each insertion, and the resolver lookup a policy may use. */
module Filtering {
  import opened Types
  import opened Ordering
  import opened Aggregate

  /** No command occurs twice. */
  predicate NoDup(s: seq<string>)
  {
    forall i, j :: 0 <= i < j < |s| ==> s[i] != s[j]
  }

  /** `$commands[$command] = $command`: a key already present keeps its
      position, a new key goes to the end. */
  function Insert(s: seq<string>, x: string): (r: seq<string>)
    ensures forall y :: y in r <==> y in s || y == x
    ensures |s| <= |r| && r[..|s|] == s
    ensures NoDup(s) ==> NoDup(r)
  {
    if x in s then s else s + [x]
  }

  /** `unset($commands[$x])`: drops key `x` and keeps the others in order. */
  function Remove(s: seq<string>, x: string): (r: seq<string>)
    ensures forall y :: y in r <==> y in s && y != x
    ensures NoDup(s) ==> NoDup(r)
    decreases |s|
  {
    if s == [] then []
    else
      var last := s[|s| - 1];
      assert s == s[..|s| - 1] + [last];
      var init := Remove(s[..|s| - 1], x);
      assert NoDup(s) ==> last !in s[..|s| - 1];
      if last == x then init else init + [last]
  }

  /** Removing keeps every other key in its relative order. */
  lemma {:induction false} RemoveKeepsOrder(s: seq<string>, x: string)
    ensures IsSubseq(Remove(s, x), s)
    decreases |s|
  {
    if s != [] {
      var init := s[..|s| - 1];
      var last := s[|s| - 1];
      RemoveKeepsOrder(init, x);
      assert s == init + [last];
      if last == x {
        SubseqDropRight(Remove(init, x), init, last);
      } else {
        SubseqKeepRight(Remove(init, x), init, last);
      }
    }
  }

  /** Removing an absent key changes nothing. */
  lemma {:induction false} RemoveAbsent(s: seq<string>, x: string)
    requires x !in s
    ensures Remove(s, x) == s
    decreases |s|
  {
    if s != [] {
      assert s == s[..|s| - 1] + [s[|s| - 1]];
      RemoveAbsent(s[..|s| - 1], x);
    }
  }

  /** In a duplicate-free list, removing the key at `i` closes the gap. */
  lemma {:induction false} RemoveAt(s: seq<string>, i: nat)
    requires NoDup(s) && i < |s|
    ensures Remove(s, s[i]) == s[..i] + s[i + 1..]
    decreases |s|
  {
    var init := s[..|s| - 1];
    var last := s[|s| - 1];
    if i == |s| - 1 {
      assert s[i] !in init;
      RemoveAbsent(init, s[i]);
      assert s[..i] + s[i + 1..] == init;
    } else {
      RemoveAt(init, i);
      assert init[i] == s[i];
      assert s[..i] + s[i + 1..] == init[..i] + init[i + 1..] + [last];
    }
  }

  /** A re-inserted key goes to the end, after every other retained key. */
  lemma ReinsertGoesLast(s: seq<string>, x: string)
    ensures Insert(Remove(s, x), x) == Remove(s, x) + [x]
  {
  }

  // ------------------------------------------------------------ resolver

  /** The scan of the resolver: the first retained key that is one of
      `existing`. */
  function FirstMatch(snapshot: seq<string>, existing: seq<string>): (k: Option<nat>)
    ensures k.Some? ==> k.value < |snapshot| && snapshot[k.value] in existing
    ensures k.Some? ==> forall j :: 0 <= j < k.value ==> snapshot[j] !in existing
    ensures k.None? ==> forall j :: 0 <= j < |snapshot| ==> snapshot[j] !in existing
    decreases |snapshot|
  {
    if snapshot == [] then None
    else if snapshot[0] in existing then Some(0)
    else
      match FirstMatch(snapshot[1..], existing)
      case None => None
      case Some(k) => Some(k + 1)
  }

  /** The resolver handed to the policy, with the command being filtered and
      the retained keys (which already hold that command) passed explicitly.
      It answers `""` unless the command is one of `current`; otherwise it
      finds the first retained key that is one of `existing` and answers that
      key when `returnPrevious` holds, the command itself when not, and `""`
      when no key matches. */
  function Resolver(command: string, snapshot: seq<string>,
                    returnPrevious: bool, current: seq<string>, existing: seq<string>): (r: string)
    ensures command !in current ==> r == ""
    ensures (forall j :: 0 <= j < |snapshot| ==> snapshot[j] !in existing) ==> r == ""
    ensures forall i :: (0 <= i < |snapshot| && command in current && snapshot[i] in existing &&
                         (forall j :: 0 <= j < i ==> snapshot[j] !in existing)) ==>
                        r == (if returnPrevious then snapshot[i] else command)
  {
    if command in current then
      match FirstMatch(snapshot, existing)
      case Some(k) => if returnPrevious then snapshot[k] else command
      case None => ""
    else ""
  }

  // -------------------------------------------------------------- filter

  /** The resolver as the policy sees it: `(returnPrevious, current,
      existing)` to the key to remove. */
  type Resolve = (bool, seq<string>, seq<string>) -> string

  /** The policy: given a command, the retained keys and a resolver bound to
      both, the key to remove (`""` for none). */
  type Processor = (string, seq<string>, Resolve) -> string

  /** The resolver closure created for one command: it sees the command and
      the retained keys as they were when it was created. */
  function ResolverFor(command: string, snapshot: seq<string>): (r: Resolve)
    ensures forall returnPrevious, current, existing ::
      r(returnPrevious, current, existing) == Resolver(command, snapshot, returnPrevious, current, existing)
  {
    (returnPrevious: bool, current: seq<string>, existing: seq<string>) =>
      Resolver(command, snapshot, returnPrevious, current, existing)
  }

  /** The policy that never removes anything, which `deploy` uses. */
  function NoRemoval(): Processor
  {
    (command: string, retained: seq<string>, resolve: Resolve) => ""
  }

  /** The key the policy names after `command` has been inserted. */
  function Victim(p: Processor, retained: seq<string>, command: string): string
  {
    var snapshot := Insert(retained, command);
    p(command, snapshot, ResolverFor(command, snapshot))
  }

  /** One iteration of the filter loop: insert the command, then remove what
      the policy names when shown the updated keys. */
  function FilterStep(p: Processor, retained: seq<string>, command: string): (r: seq<string>)
    ensures Victim(p, retained, command) !in r
    ensures forall y :: y in r <==>
      (y in retained || y == command) && y != Victim(p, retained, command)
    ensures NoDup(retained) ==> NoDup(r)
  {
    Remove(Insert(retained, command), Victim(p, retained, command))
  }

  /** The filter loop over the flattened commands, from an empty set. */
  function FilterAll(p: Processor, commands: seq<string>): (r: seq<string>)
    ensures NoDup(r)
    ensures forall y :: y in r ==> y in commands
    decreases |commands|
  {
    if commands == [] then []
    else
      var init := commands[..|commands| - 1];
      assert commands == init + [commands[|commands| - 1]];
      FilterStep(p, FilterAll(p, init), commands[|commands| - 1])
  }

  /** Filtering one more command is one more step. */
  lemma FilterAllSnoc(p: Processor, commands: seq<string>, command: string)
    ensures FilterAll(p, commands + [command]) == FilterStep(p, FilterAll(p, commands), command)
  {
    assert (commands + [command])[..|commands|] == commands;
  }

  /** Each step keeps the retained keys in relative order: the keys after a
      step are a subsequence of the keys before it plus the new command. */
  lemma FilterStepKeepsOrder(p: Processor, retained: seq<string>, command: string)
    ensures IsSubseq(FilterStep(p, retained, command), retained + [command])
  {
    var snapshot := Insert(retained, command);
    RemoveKeepsOrder(snapshot, Victim(p, retained, command));
    if command in retained {
      SubseqReflexive(retained);
      SubseqDropRight(retained, retained, command);
    } else {
      SubseqReflexive(snapshot);
    }
    SubseqTransitive(FilterStep(p, retained, command), snapshot, retained + [command]);
  }

  /** The filtered commands keep the order of the input: a command that comes
      out before another was last inserted before it. With the input ordered
      by version, the output lists versions in ascending order. */
  lemma {:induction false} FilterKeepsOrder(p: Processor, commands: seq<string>)
    ensures IsSubseq(FilterAll(p, commands), commands)
    decreases |commands|
  {
    if commands != [] {
      FilterKeepsOrder(p, commands[..|commands| - 1]);
      FilterKeepsOrderStep(p, commands);
    }
  }

  /** The inductive step of `FilterKeepsOrder`: one more command. */
  lemma FilterKeepsOrderStep(p: Processor, commands: seq<string>)
    requires commands != []
    requires IsSubseq(FilterAll(p, commands[..|commands| - 1]), commands[..|commands| - 1])
    ensures IsSubseq(FilterAll(p, commands), commands)
  {
    var init := commands[..|commands| - 1];
    var last := commands[|commands| - 1];
    var prev := FilterAll(p, init);
    FilterStepKeepsOrder(p, prev, last);
    SubseqChainLast(FilterStep(p, prev, last), prev, commands);
  }

  /** The flattened commands with every later repetition dropped: a command
      is kept where it first occurs. */
  function KeepFirst(commands: seq<string>): (r: seq<string>)
    ensures forall y :: y in r <==> y in commands
    ensures NoDup(r)
    decreases |commands|
  {
    if commands == [] then []
    else
      var init := commands[..|commands| - 1];
      var last := commands[|commands| - 1];
      assert commands == init + [last];
      if last in init then KeepFirst(init) else KeepFirst(init) + [last]
  }

  /** A policy that never removes anything leaves exactly the commands in
      order of first occurrence. */
  lemma {:induction false} FilterWithoutRemovals(commands: seq<string>)
    requires "" !in commands
    ensures FilterAll(NoRemoval(), commands) == KeepFirst(commands)
    decreases |commands|
  {
    if commands != [] {
      var init := commands[..|commands| - 1];
      var last := commands[|commands| - 1];
      assert commands == init + [last];
      FilterWithoutRemovals(init);
      var snapshot := Insert(FilterAll(NoRemoval(), init), last);
      assert "" !in snapshot;
      assert Victim(NoRemoval(), FilterAll(NoRemoval(), init), last) == "";
      RemoveAbsent(snapshot, "");
    }
  }

  // ------------------------------------------- commands of the flat list

  /** The flattened entries as command strings, or the first entry that is
      not a string. */
  function CommandStrings(items: seq<Item>): Result<seq<string>>
    decreases |items|
  {
    if items == [] then Ok([])
    else
      var last := items[|items| - 1];
      match CommandStrings(items[..|items| - 1])
      case Err(e) => Err(e)
      case Ok(cs) => if last.Text? then Ok(cs + [last.s]) else Err(InvalidCommand(last))
  }

  /** The entries convert exactly when all of them are strings, and then
      entry for entry; otherwise the error names the first entry that is not
      a string. */
  lemma {:induction false} CommandStringsShape(items: seq<Item>)
    ensures var r := CommandStrings(items);
      && (r.Ok? <==> forall i :: 0 <= i < |items| ==> items[i].Text?)
      && (r.Ok? ==> |r.value| == |items| && forall i :: 0 <= i < |items| ==> r.value[i] == items[i].s)
      && (r.Err? ==> exists i :: (0 <= i < |items| && !items[i].Text? && r.error == InvalidCommand(items[i]) &&
                                  forall j :: 0 <= j < i ==> items[j].Text?))
    decreases |items|
  {
    if items != [] {
      var init := items[..|items| - 1];
      var last := items[|items| - 1];
      CommandStringsShape(init);
      assert forall i :: 0 <= i < |init| ==> init[i] == items[i];
      match CommandStrings(init) {
        case Err(e) =>
          var i :| 0 <= i < |init| && !init[i].Text? && e == InvalidCommand(init[i]) &&
                   forall j :: 0 <= j < i ==> init[j].Text?;
          assert !items[i].Text?;
        case Ok(cs) =>
          if !last.Text? {
            assert forall j :: 0 <= j < |items| - 1 ==> items[j].Text?;
          }
      }
    }
  }

  /** Converting one more entry: a string extends the commands, anything
      else is the error. */
  lemma CommandStringsSnoc(items: seq<Item>, it: Item)
    requires CommandStrings(items).Ok?
    ensures CommandStrings(items + [it]) ==
      if it.Text? then Ok(CommandStrings(items).value + [it.s]) else Err(InvalidCommand(it))
  {
    assert (items + [it])[..|items|] == items;
  }

  /** An invalid entry in a prefix makes the whole list fail the same way. */
  lemma {:induction false} CommandStringsPrefixError(a: seq<Item>, b: seq<Item>)
    requires CommandStrings(a).Err?
    ensures CommandStrings(a + b) == CommandStrings(a)
    decreases |b|
  {
    if b == [] {
      assert a + b == a;
    } else {
      assert (a + b)[..|a + b| - 1] == a + b[..|b| - 1];
      CommandStringsPrefixError(a, b[..|b| - 1]);
    }
  }

  /** The filter loop over entries: refuse a non-string entry, otherwise
      filter the commands. */
  function FilterItems(p: Processor, items: seq<Item>): Result<seq<string>>
  {
    match CommandStrings(items)
    case Err(e) => Err(e)
    case Ok(cs) => Ok(FilterAll(p, cs))
  }

  /** `filter` on version-grouped commands: flatten, refuse a non-string
      entry, otherwise run the filter loop. */
  function FilterOutcome(p: Processor, pending: map<int, seq<Item>>): Result<seq<string>>
  {
    FilterItems(p, Flatten(pending))
  }

  /** Every converted command is one of the entries. */
  lemma CommandStringsFromItems(items: seq<Item>, cs: seq<string>)
    requires CommandStrings(items) == Ok(cs)
    ensures forall y :: y in cs ==> Text(y) in items
  {
    CommandStringsShape(items);
    forall y | y in cs ensures Text(y) in items {
      var i :| 0 <= i < |cs| && cs[i] == y;
      assert items[i] == Text(y);
    }
  }

  /** Every filtered command was one of the entries. */
  lemma FilterAllFromItems(p: Processor, items: seq<Item>, cs: seq<string>)
    requires CommandStrings(items) == Ok(cs)
    ensures forall y :: y in FilterAll(p, cs) ==> Text(y) in items
  {
    CommandStringsFromItems(items, cs);
  }

  /** The filter loop over entries, whatever the policy: no duplicates, only
      commands from the entries, in their order; and it fails exactly when
      an entry is not a string, naming the first such entry. */
  lemma FilterItemsShape(p: Processor, items: seq<Item>)
    ensures match FilterItems(p, items)
      case Ok(r) =>
        && (forall i :: 0 <= i < |items| ==> items[i].Text?)
        && NoDup(r)
        && (forall y :: y in r ==> Text(y) in items)
        && IsSubseq(r, CommandStrings(items).value)
      case Err(e) =>
        exists i :: 0 <= i < |items| && !items[i].Text? && e == InvalidCommand(items[i]) &&
          forall j :: 0 <= j < i ==> items[j].Text?
  {
    CommandStringsShape(items);
    var cs := CommandStrings(items);
    if cs.Ok? {
      FilterKeepsOrder(p, cs.value);
      FilterAllFromItems(p, items, cs.value);
    }
  }

  /** What `filter` promises whatever the policy: no duplicates, only
      commands from the playbooks, in the order of the version-ascending
      flattened list; and it fails exactly when a stored entry is not a
      string, naming the first such entry. */
  lemma FilterOutcomeShape(p: Processor, pending: map<int, seq<Item>>)
    ensures var flat := Flatten(pending);
      match FilterOutcome(p, pending)
      case Ok(r) =>
        && (forall i :: 0 <= i < |flat| ==> flat[i].Text?)
        && NoDup(r)
        && (forall y :: y in r ==> Text(y) in flat)
        && IsSubseq(r, CommandStrings(flat).value)
      case Err(e) =>
        exists i :: 0 <= i < |flat| && !flat[i].Text? && e == InvalidCommand(flat[i]) &&
          forall j :: 0 <= j < i ==> flat[j].Text?
  {
    FilterItemsShape(p, Flatten(pending));
  }

  /** Without removals, `filter` yields the flattened commands with later
      duplicates dropped, provided no stored entry is falsy (as `read`
      guarantees). */
  lemma FilterOutcomeWithoutRemovals(pending: map<int, seq<Item>>)
    requires forall i :: 0 <= i < |Flatten(pending)| ==> !Falsy(Flatten(pending)[i])
    ensures var cs := CommandStrings(Flatten(pending));
      cs.Ok? ==> FilterOutcome(NoRemoval(), pending) == Ok(KeepFirst(cs.value))
  {
    var flat := Flatten(pending);
    var cs := CommandStrings(flat);
    CommandStringsShape(flat);
    if cs.Ok? {
      forall i | 0 <= i < |cs.value| ensures cs.value[i] != "" {
        assert flat[i] == Text(cs.value[i]);
      }
      FilterWithoutRemovals(cs.value);
    }
  }
}
