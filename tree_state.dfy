/**
 * The on-disk context tree below `<repoRoot>/.bitranger`, as a value, and
 * the meaning of every store operation on it.
 *
 * The tree is a set of directory paths and a map from file paths to their
 * text. `config.json` in the root is held apart, as the configuration record
 * it encodes. A memory is a `*.md` file at depth three: domain directory,
 * topic directory, file. No store operation reaches below depth three, so
 * paths stop there.
 */
module TreeState {
  import opened Wrappers
  import opened Strings

  /** A path below `.bitranger`: the root itself, a domain entry, a topic entry, or an entry of a topic. */
  datatype Path =
    | Root
    | AtDomain(domain: string)
    | AtTopic(domain: string, topic: string)
    | AtEntry(domain: string, topic: string, name: string)

  const BitrangerDir := ".bitranger"
  const ConfigFileName := "config.json"
  const ConfigPath: Path := AtDomain(ConfigFileName)
  const MemoryExtension := ".md"
  /** `listDomains` hides this directory name. */
  const HiddenDomain := "node_modules"

  // ---------------------------------------------------------------------------
  // Configuration
  // ---------------------------------------------------------------------------

  datatype AgentConfig = AgentConfig(enabled: bool, rulesFile: string)
  datatype AgentsConfig = AgentsConfig(claudeCode: AgentConfig, cursor: AgentConfig)
  datatype TreeConfig = TreeConfig(autoOrganize: bool, defaultDomains: seq<string>)
  datatype BitrangerConfig = BitrangerConfig(
    version: string,
    projectName: string,
    gitTracking: bool,
    agents: AgentsConfig,
    contextTree: TreeConfig)

  /** `Partial<BitrangerConfig>`: every top-level field may be absent. */
  datatype PartialConfig = PartialConfig(
    version: Option<string>,
    projectName: Option<string>,
    gitTracking: Option<bool>,
    agents: Option<AgentsConfig>,
    contextTree: Option<TreeConfig>)

  const DefaultDomains := ["Architecture", "API", "Frontend"]

  /** The configuration `initialize` writes for the given options. */
  function DefaultConfig(options: PartialConfig, baseName: string): (c: BitrangerConfig)
    ensures c.version == "1.0.0" && !c.gitTracking == (options.gitTracking != Some(true))
    ensures c.projectName == (if options.projectName.Some? && options.projectName.value != "" then options.projectName.value else baseName)
    ensures c.agents.cursor == AgentConfig(true, ".cursorrules")
    ensures c.agents.claudeCode == AgentConfig(true, ".claude-code-rules.md")
    ensures c.contextTree.autoOrganize
    ensures options.contextTree.Some? ==> c.contextTree.defaultDomains == options.contextTree.value.defaultDomains
    ensures options.contextTree.None? ==> c.contextTree.defaultDomains == DefaultDomains
  {
    BitrangerConfig(
      "1.0.0",
      // `config.projectName || basename`: an empty name falls back too
      if options.projectName.Some? && options.projectName.value != "" then options.projectName.value else baseName,
      // `config.gitTracking ?? false`
      if options.gitTracking.Some? then options.gitTracking.value else false,
      AgentsConfig(AgentConfig(true, ".claude-code-rules.md"), AgentConfig(true, ".cursorrules")),
      // `config.contextTree?.defaultDomains || [...]`: an array, even an empty one, is kept
      TreeConfig(true, if options.contextTree.Some? then options.contextTree.value.defaultDomains else DefaultDomains))
  }

  /** `{ ...config, ...updates }`: each field present in `updates` replaces the stored one. */
  function MergeConfig(c: BitrangerConfig, updates: PartialConfig): (r: BitrangerConfig)
    ensures r.version == (if updates.version.Some? then updates.version.value else c.version)
    ensures r.projectName == (if updates.projectName.Some? then updates.projectName.value else c.projectName)
    ensures r.gitTracking == (if updates.gitTracking.Some? then updates.gitTracking.value else c.gitTracking)
    ensures r.agents == (if updates.agents.Some? then updates.agents.value else c.agents)
    ensures r.contextTree == (if updates.contextTree.Some? then updates.contextTree.value else c.contextTree)
  {
    BitrangerConfig(
      Pick(updates.version, c.version),
      Pick(updates.projectName, c.projectName),
      Pick(updates.gitTracking, c.gitTracking),
      Pick(updates.agents, c.agents),
      Pick(updates.contextTree, c.contextTree))
  }

  function Pick<T>(o: Option<T>, otherwise: T): T
  {
    if o.Some? then o.value else otherwise
  }

  // ---------------------------------------------------------------------------
  // The tree and its errors
  // ---------------------------------------------------------------------------

  datatype Disk = Disk(dirs: set<Path>, files: map<Path, string>, config: Option<BitrangerConfig>)

  datatype ErrorCode = ENOENT | ENOTDIR | EISDIR | EEXIST

  /**
   * A failed file-system call: its code, the system call and the path it was
   * given. A `read` works on an open descriptor, so its error has no path.
   */
  datatype FsError = FsError(code: ErrorCode, syscall: string, path: Option<string>)

  function CodeText(code: ErrorCode): string
  {
    match code
    case ENOENT => "ENOENT: no such file or directory"
    case ENOTDIR => "ENOTDIR: not a directory"
    case EISDIR => "EISDIR: illegal operation on a directory"
    case EEXIST => "EEXIST: file already exists"
  }

  /** The `message` of the error a failed call throws. */
  function Message(e: FsError): string
  {
    CodeText(e.code) + ", " + e.syscall + (if e.path.Some? then " '" + e.path.value + "'" else "")
  }

  /** The segments of a path, outermost first. */
  function Segments(p: Path): seq<string>
  {
    match p
    case Root => []
    case AtDomain(a) => [a]
    case AtTopic(a, b) => [a, b]
    case AtEntry(a, b, c) => [a, b, c]
  }

  /** A tree path as the store joins it, relative to the repository root. */
  function PathText(p: Path): string
  {
    Join([BitrangerDir] + Segments(p), "/")
  }

  function Parent(p: Path): Path
    requires p != Root
  {
    match p
    case AtDomain(_) => Root
    case AtTopic(a, _) => AtDomain(a)
    case AtEntry(a, b, _) => AtTopic(a, b)
  }

  /** There is a regular file at `p`; the configuration counts as the file `config.json`. */
  predicate IsFileAt(d: Disk, p: Path)
  {
    p in d.files || (p == ConfigPath && d.config.Some?)
  }

  /** Some proper ancestor of `p` is a file, so `p` cannot be reached. */
  predicate FileAbove(d: Disk, p: Path)
  {
    match p
    case Root => false
    case AtDomain(_) => IsFileAt(d, Root)
    case AtTopic(a, _) => IsFileAt(d, Root) || IsFileAt(d, AtDomain(a))
    case AtEntry(a, b, _) => IsFileAt(d, Root) || IsFileAt(d, AtDomain(a)) || IsFileAt(d, AtTopic(a, b))
  }

  /** The code of a failed access to something that is not a regular file. */
  function MissingCode(d: Disk, p: Path): ErrorCode
  {
    if p in d.dirs then EISDIR else if FileAbove(d, p) then ENOTDIR else ENOENT
  }

  /** A well-formed tree: every entry sits in a directory, and no path is both a file and a directory. */
  ghost predicate Valid(d: Disk)
  {
    && (forall a :: AtDomain(a) in d.dirs ==> Root in d.dirs)
    && (forall a, b :: AtTopic(a, b) in d.dirs ==> AtDomain(a) in d.dirs)
    && (forall a, b, c :: AtEntry(a, b, c) in d.dirs ==> AtTopic(a, b) in d.dirs)
    && Root !in d.files
    && (forall p :: p in d.files ==> Parent(p) in d.dirs && p !in d.dirs)
    && ConfigPath !in d.files
    && (d.config.Some? ==> Root in d.dirs && ConfigPath !in d.dirs)
  }

  // ---------------------------------------------------------------------------
  // Listings
  // ---------------------------------------------------------------------------

  /** The names of the domain and topic directories: every name a directory listing can show. */
  function DirNames(d: Disk): set<string>
  {
    set p | p in d.dirs && (p.AtDomain? || p.AtTopic?) :: if p.AtDomain? then p.domain else p.topic
  }

  /** The names of the entries of topics. */
  function EntryNames(d: Disk): set<string>
  {
    set p | p in d.files && p.AtEntry? :: p.name
  }

  /** The names `listDomains` shows: the root's subdirectories, except `node_modules`, once the root exists. */
  function DomainDirs(d: Disk): (r: set<string>)
    ensures forall n :: n in r <==> Root in d.dirs && AtDomain(n) in d.dirs && n != HiddenDomain
  {
    assert forall n :: AtDomain(n) in d.dirs ==> n in DirNames(d);
    set n | n in DirNames(d) && Root in d.dirs && AtDomain(n) in d.dirs && n != HiddenDomain
  }

  /** The names `listTopics` shows: the domain's subdirectories, once the domain is a directory. */
  function TopicDirs(d: Disk, domain: string): (r: set<string>)
    ensures forall n :: n in r <==> AtDomain(domain) in d.dirs && AtTopic(domain, n) in d.dirs
  {
    assert forall n :: AtTopic(domain, n) in d.dirs ==> n in DirNames(d);
    set n | n in DirNames(d) && AtDomain(domain) in d.dirs && AtTopic(domain, n) in d.dirs
  }

  /** The names `listMemories` shows: the topic's `.md` regular files, once the topic is a directory. */
  function MemoryNames(d: Disk, domain: string, topic: string): (r: set<string>)
    ensures forall n :: n in r <==>
      AtTopic(domain, topic) in d.dirs && AtEntry(domain, topic, n) in d.files && EndsWith(n, MemoryExtension)
  {
    assert forall n :: AtEntry(domain, topic, n) in d.files ==> n in EntryNames(d);
    set n | n in EntryNames(d) && AtTopic(domain, topic) in d.dirs && AtEntry(domain, topic, n) in d.files && EndsWith(n, MemoryExtension)
  }

  /**
   * `listDomains`: the directories in the root except `node_modules`,
   * ascending; nothing when the root does not exist.
   */
  function ListDomains(d: Disk): seq<string>
  {
    SortedOf(DomainDirs(d))
  }

  /** `listTopics`: the directories in a domain, ascending; nothing when the domain is not a directory. */
  function ListTopics(d: Disk, domain: string): seq<string>
  {
    SortedOf(TopicDirs(d, domain))
  }

  /**
   * `listMemories`: the regular files of a topic whose names end in `.md`,
   * ascending; nothing when the topic is not a directory.
   */
  function ListMemories(d: Disk, domain: string, topic: string): seq<string>
  {
    SortedOf(MemoryNames(d, domain, topic))
  }

  /** The domains listed are the root's subdirectories other than `node_modules`, ascending; files are never listed. */
  lemma ListDomainsSpec(d: Disk)
    ensures StrictlySorted(ListDomains(d))
    ensures forall n :: n in ListDomains(d) <==> Root in d.dirs && AtDomain(n) in d.dirs && n != HiddenDomain
  {
    SortedOfSpec(DomainDirs(d));
  }

  /** The topics listed are the domain's subdirectories, ascending. */
  lemma ListTopicsSpec(d: Disk, domain: string)
    ensures StrictlySorted(ListTopics(d, domain))
    ensures forall n :: n in ListTopics(d, domain) <==> AtDomain(domain) in d.dirs && AtTopic(domain, n) in d.dirs
  {
    SortedOfSpec(TopicDirs(d, domain));
  }

  /** The memories listed are the topic's `.md` regular files, ascending. */
  lemma ListMemoriesSpec(d: Disk, domain: string, topic: string)
    ensures StrictlySorted(ListMemories(d, domain, topic))
    ensures forall n :: n in ListMemories(d, domain, topic) <==>
      AtTopic(domain, topic) in d.dirs && AtEntry(domain, topic, n) in d.files && EndsWith(n, MemoryExtension)
    ensures |ListMemories(d, domain, topic)| == |MemoryNames(d, domain, topic)|
  {
    SortedOfSpec(MemoryNames(d, domain, topic));
  }

  // ---------------------------------------------------------------------------
  // Reading and writing memories
  // ---------------------------------------------------------------------------

  /** The file name a memory is stored under: `.md` is appended unless already there. */
  function MemoryFileName(filename: string): (r: string)
    ensures EndsWith(r, MemoryExtension)
    ensures EndsWith(filename, MemoryExtension) ==> r == filename
    ensures r == filename || r == filename + MemoryExtension
  {
    if EndsWith(filename, MemoryExtension) then filename else filename + MemoryExtension
  }

  /**
   * The error of `fs.readFile` at a path that holds no regular file. A
   * directory opens for reading, and the first `read` on it fails; any other
   * path fails to open.
   */
  function ReadError(d: Disk, p: Path): FsError
  {
    if p in d.dirs then FsError(EISDIR, "read", None) else FsError(MissingCode(d, p), "open", Some(PathText(p)))
  }

  /** `fs.readFile` of a tree path. */
  function ReadTreeFile(d: Disk, p: Path): (r: Result<string, FsError>)
    ensures r.Success? <==> p in d.files
    ensures r.Success? ==> r.value == d.files[p]
    ensures r.Failure? && p in d.dirs ==> Message(r.error) == "EISDIR: illegal operation on a directory, read"
    ensures r.Failure? && p !in d.dirs ==> r.error == FsError(if FileAbove(d, p) then ENOTDIR else ENOENT, "open", Some(PathText(p)))
  {
    if p in d.files then Success(d.files[p]) else Failure(ReadError(d, p))
  }

  /** `readMemory(domain, topic, filename)`. */
  function ReadMemory(d: Disk, domain: string, topic: string, filename: string): Result<string, FsError>
  {
    ReadTreeFile(d, MemoryPath(domain, topic, filename))
  }

  /** `fs.mkdir(<domain>/<topic>, { recursive: true })`. */
  function MakeTopicDir(d: Disk, domain: string, topic: string): (r: Result<Disk, FsError>)
    ensures r.Success? <==> !IsFileAt(d, Root) && !IsFileAt(d, AtDomain(domain)) && !IsFileAt(d, AtTopic(domain, topic))
    ensures r.Success? ==> r.value == d.(dirs := d.dirs + {Root, AtDomain(domain), AtTopic(domain, topic)})
  {
    var p := AtTopic(domain, topic);
    if IsFileAt(d, Root) || IsFileAt(d, AtDomain(domain)) then Failure(FsError(ENOTDIR, "mkdir", Some(PathText(p))))
    else if IsFileAt(d, p) then Failure(FsError(EEXIST, "mkdir", Some(PathText(p))))
    else Success(d.(dirs := d.dirs + {Root, AtDomain(domain), p}))
  }

  /** The path `writeMemory` and `readMemory` address. */
  function MemoryPath(domain: string, topic: string, filename: string): Path
  {
    AtEntry(domain, topic, MemoryFileName(filename))
  }

  /**
   * `writeMemory`: create the topic directory with its ancestors, then
   * create or overwrite the file. It fails when a file stands where one of
   * the directories should be, or a directory where the file should be.
   */
  function WriteMemory(d: Disk, domain: string, topic: string, filename: string, content: string): (r: (Outcome<FsError>, Disk))
    ensures r.0.Pass? <==>
      !IsFileAt(d, Root) && !IsFileAt(d, AtDomain(domain)) && !IsFileAt(d, AtTopic(domain, topic)) && MemoryPath(domain, topic, filename) !in d.dirs
    ensures r.0.Pass? ==> r.1 == Disk(d.dirs + {Root, AtDomain(domain), AtTopic(domain, topic)}, d.files[MemoryPath(domain, topic, filename) := content], d.config)
    ensures r.0.Fail? && Valid(d) ==> r.1 == d
    ensures Valid(d) ==> Valid(r.1)
  {
    match MakeTopicDir(d, domain, topic)
    case Failure(e) => (Fail(e), d)
    case Success(d1) =>
      var p := MemoryPath(domain, topic, filename);
      if p in d1.dirs then
        // a directory at `p` already has its ancestors in a well-formed tree
        assert Valid(d) ==> p in d.dirs && Parent(p) in d.dirs && Parent(Parent(p)) in d.dirs && Parent(Parent(Parent(p))) in d.dirs && d1.dirs == d.dirs;
        (Fail(FsError(EISDIR, "open", Some(PathText(p)))), d1)
      else (Pass, d1.(files := d1.files[p := content]))
  }

  /** `deleteMemory`: unlink the file exactly as named (no `.md` is appended). */
  function DeleteMemory(d: Disk, domain: string, topic: string, filename: string): (r: (Outcome<FsError>, Disk))
    ensures r.0.Pass? <==> AtEntry(domain, topic, filename) in d.files
    ensures r.1 == if r.0.Pass? then d.(files := d.files - {AtEntry(domain, topic, filename)}) else d
    ensures Valid(d) ==> Valid(r.1)
  {
    var p := AtEntry(domain, topic, filename);
    if p in d.files then (Pass, d.(files := d.files - {p}))
    else (Fail(FsError(MissingCode(d, p), "unlink", Some(PathText(p)))), d)
  }

  /** `readFile(relativePath)`: a file of the project, outside the tree. */
  function ReadProjectFile(project: map<string, string>, relativePath: string): (r: Result<string, FsError>)
    ensures r.Success? <==> relativePath in project
    ensures r.Success? ==> r.value == project[relativePath]
  {
    if relativePath in project then Success(project[relativePath])
    else Failure(FsError(ENOENT, "open", Some(relativePath)))
  }

  // ---------------------------------------------------------------------------
  // Configuration on disk
  // ---------------------------------------------------------------------------

  /** `isInitialized`: something exists at `config.json` (`fs.access` succeeds for a directory too). */
  predicate IsInitialized(d: Disk)
  {
    d.config.Some? || ConfigPath in d.dirs
  }

  /** `readConfig`. */
  function ReadConfig(d: Disk): (r: Result<BitrangerConfig, FsError>)
    ensures r.Success? <==> d.config.Some?
    ensures r.Success? ==> r.value == d.config.value
    ensures r.Failure? && ConfigPath in d.dirs ==> Message(r.error) == "EISDIR: illegal operation on a directory, read"
    ensures r.Failure? && ConfigPath !in d.dirs ==> r.error.syscall == "open" && r.error.path == Some(PathText(ConfigPath))
  {
    if d.config.Some? then Success(d.config.value)
    else Failure(ReadError(d, ConfigPath))
  }

  /** `updateConfig`: read, merge, write back; nothing else changes. */
  function UpdateConfig(d: Disk, updates: PartialConfig): (r: (Outcome<FsError>, Disk))
    ensures r.0.Pass? <==> d.config.Some?
    ensures r.0.Pass? ==> r.1 == d.(config := Some(MergeConfig(d.config.value, updates)))
    ensures r.0.Fail? ==> r.1 == d
    ensures Valid(d) ==> Valid(r.1)
  {
    match ReadConfig(d)
    case Failure(e) => (Fail(e), d)
    case Success(c) => (Pass, d.(config := Some(MergeConfig(c, updates))))
  }

  /** `fs.mkdir(<domain>, { recursive: true })`, the root already existing. */
  function MakeDomainDir(d: Disk, domain: string): (r: Result<Disk, FsError>)
    ensures r.Success? <==> !IsFileAt(d, AtDomain(domain))
    ensures r.Success? ==> r.value == d.(dirs := d.dirs + {AtDomain(domain)})
  {
    if IsFileAt(d, AtDomain(domain)) then Failure(FsError(EEXIST, "mkdir", Some(PathText(AtDomain(domain)))))
    else Success(d.(dirs := d.dirs + {AtDomain(domain)}))
  }

  /** The default-domain loop of `initialize`: one directory per name, in order, up to the first failure. */
  function MakeDomainDirs(d: Disk, domains: seq<string>): (r: (Outcome<FsError>, Disk))
    ensures r.0.Pass? <==> forall n :: n in domains ==> !IsFileAt(d, AtDomain(n))
    ensures r.0.Pass? ==> forall p :: p in r.1.dirs <==> p in d.dirs || (p.AtDomain? && p.domain in domains)
    ensures r.1.files == d.files && r.1.config == d.config && d.dirs <= r.1.dirs
    ensures forall p :: p in r.1.dirs && p !in d.dirs ==> p.AtDomain? && p.domain in domains
    ensures (Root in d.dirs && Valid(d)) ==> Valid(r.1)
    decreases |domains|
  {
    if |domains| == 0 then
      (Pass, d)
    else
      match MakeDomainDir(d, domains[0])
      case Failure(e) => (Fail(e), d)
      case Success(d1) =>
        assert forall n :: n in domains <==> n == domains[0] || n in domains[1..];
        MakeDomainDirs(d1, domains[1..])
  }

  /**
   * `initialize(options)`: create the root and one directory per default
   * domain, then write the configuration. Earlier directories stay when a
   * later step fails. A configuration already present is overwritten.
   */
  function Initialize(d: Disk, options: PartialConfig, baseName: string): (Outcome<FsError>, Disk)
  {
    var config := DefaultConfig(options, baseName);
    if IsFileAt(d, Root) then (Fail(FsError(EEXIST, "mkdir", Some(PathText(Root)))), d)
    else
      var (outcome, made) := MakeDomainDirs(d.(dirs := d.dirs + {Root}), config.contextTree.defaultDomains);
      if outcome.Fail? then (outcome, made)
      else if ConfigPath in made.dirs then (Fail(FsError(EISDIR, "open", Some(PathText(ConfigPath)))), made)
      else (Pass, made.(config := Some(config)))
  }

  /**
   * `initialize` succeeds exactly when no file blocks the root, a default
   * domain or `config.json`; it then leaves the default configuration, the
   * root and one directory per default domain, and keeps every file.
   */
  lemma InitializeSpec(d: Disk, options: PartialConfig, baseName: string)
    ensures var r := Initialize(d, options, baseName);
      var domains := DefaultConfig(options, baseName).contextTree.defaultDomains;
      && (r.0.Pass? <==> !IsFileAt(d, Root) && (forall n :: n in domains ==> !IsFileAt(d, AtDomain(n))) && ConfigPath !in d.dirs && ConfigFileName !in domains)
      && (r.0.Pass? ==> r.1.config == Some(DefaultConfig(options, baseName)))
      && (r.0.Pass? ==> forall p :: p in r.1.dirs <==> p in d.dirs || p == Root || (p.AtDomain? && p.domain in domains))
      && r.1.files == d.files
      && (Valid(d) ==> Valid(r.1))
  {
    var domains := DefaultConfig(options, baseName).contextTree.defaultDomains;
    if !IsFileAt(d, Root) {
      var root := d.(dirs := d.dirs + {Root});
      assert forall n :: IsFileAt(root, AtDomain(n)) <==> IsFileAt(d, AtDomain(n));
      assert Valid(d) ==> Valid(root);
    }
  }

  // ---------------------------------------------------------------------------
  // Writing, then reading and listing
  // ---------------------------------------------------------------------------

  /** A name and the same name with `.md` appended address the same memory. */
  lemma MemoryNameNormalised(domain: string, topic: string, filename: string)
    ensures MemoryPath(domain, topic, MemoryFileName(filename)) == MemoryPath(domain, topic, filename)
    ensures !EndsWith(filename, MemoryExtension) ==>
      MemoryPath(domain, topic, filename + MemoryExtension) == MemoryPath(domain, topic, filename)
  {
    var g := filename + MemoryExtension;
    assert g[|g| - |MemoryExtension|..] == MemoryExtension;
  }

  /** A successful write, then a read of the same names, gives back the content written. */
  lemma WriteThenRead(d: Disk, domain: string, topic: string, filename: string, content: string)
    requires WriteMemory(d, domain, topic, filename, content).0.Pass?
    ensures ReadMemory(WriteMemory(d, domain, topic, filename, content).1, domain, topic, filename) == Success(content)
  {
  }

  /**
   * After a successful write the topic is listed in its domain, the domain
   * is listed unless it is `node_modules`, the memory is listed in its
   * topic, and no other file is touched.
   */
  lemma WriteListed(d: Disk, domain: string, topic: string, filename: string, content: string)
    requires WriteMemory(d, domain, topic, filename, content).0.Pass?
    ensures var e := WriteMemory(d, domain, topic, filename, content).1;
      && topic in ListTopics(e, domain)
      && (domain in ListDomains(e) <==> domain != HiddenDomain)
      && MemoryFileName(filename) in ListMemories(e, domain, topic)
      && e.config == d.config
      && (forall p :: p != MemoryPath(domain, topic, filename) ==>
            (p in e.files <==> p in d.files) && (p in d.files ==> e.files[p] == d.files[p]))
  {
    var e := WriteMemory(d, domain, topic, filename, content).1;
    ListDomainsSpec(e);
    ListTopicsSpec(e, domain);
    ListMemoriesSpec(e, domain, topic);
  }
}
