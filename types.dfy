/** Values the deployment worker reads, stores and reports.
    A playbook arrives already parsed: parsing and dumping YAML is done by an
    external parser and is not part of this model. */
module Types {

  datatype Option<+T> = None | Some(value: T)

  /** The failures the worker reports to its caller. */
  datatype Error =
    | ParserUnavailable          // the YAML parser reports it cannot be used
    | InvalidCommand(item: Item) // a non-string value stands where a command must be
    | NotDeployed                // commit before a successful deploy
    | PersistError(path: string) // the revision file could not be written
    | ActionFailed(command: string) // the caller's action raised on this command

  datatype Result<+T> = Ok(value: T) | Err(error: Error)

  datatype Outcome = Pass | Fail(error: Error)

  /** One entry of a command list: a string, or any other parsed value
      (number, boolean, null, nested mapping). `falsy` records whether PHP
      would treat that other value as false (null, false, 0, empty array). */
  datatype Item = Text(s: string) | Opaque(falsy: bool)

  /** What a playbook puts under one version: one command, a list of
      entries, or some other value. */
  datatype CmdValue = Str(s: string) | List(items: seq<Item>) | Complex(falsy: bool)

  /** One `version: commands` pair of a group, in document order. */
  datatype Entry = Entry(version: int, value: CmdValue)

  /** A group of a playbook's `commands` mapping: `global` or an environment. */
  datatype Group = Group(name: string, versions: seq<Entry>)

  /** A parsed playbook; an empty `commands` sequence stands for a document
      whose `commands` key is missing or empty. */
  datatype Playbook = Playbook(commands: seq<Group>)

  /** What a path handed to `read` turns out to be. A directory lists its
      immediate entries, keyed by their full path. */
  datatype Target =
    | Directory(files: map<string, Playbook>)
    | File(path: string, doc: Playbook)
    | Missing(path: string)

  /** The persisted revision record: `version` and `completed`, written to
      `file`. */
  datatype Revision = Revision(file: string, version: int, completed: map<string, int>)

  /** A revision file as parsed when a worker starts; either key may be
      missing. */
  datatype Saved = Saved(version: Option<int>, completed: Option<map<string, int>>)
}
