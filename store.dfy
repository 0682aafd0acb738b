/**
 * `ContextTreeStore`: the object through which every command reaches the
 * `.bitranger` directory of one repository.
 *
 * The fields hold the file system as far as the store can see it: the
 * directories and files of the tree, the configuration file, and the other
 * files of the repository. Every method is tied to the function of module
 * `TreeState` or `TreeWalk` that gives its meaning.
 */
module Store {
  import opened Wrappers
  import opened Strings
  import opened TreeState
  import opened TreeWalk

  class ContextTreeStore {
    /** The directories below `.bitranger`, the root included once it exists. */
    var dirs: set<Path>
    /** The regular files below `.bitranger` other than `config.json`, with their text. */
    var files: map<Path, string>
    /** The content of `config.json`, when it is a regular file. */
    var config: Option<BitrangerConfig>
    /** The files of the repository outside `.bitranger`, by path relative to the repository root. */
    var projectFiles: map<string, string>
    /** `path.basename(repoRoot)`. */
    const baseName: string

    /** The tree as a value. */
    function State(): Disk
      reads this
    {
      Disk(dirs, files, config)
    }

    ghost predicate Valid()
      reads this
    {
      TreeState.Valid(State())
    }

    constructor(disk: Disk, project: map<string, string>, repoBaseName: string)
      requires TreeState.Valid(disk)
      ensures State() == disk && projectFiles == project && baseName == repoBaseName
      ensures Valid()
    {
      dirs, files, config := disk.dirs, disk.files, disk.config;
      projectFiles := project;
      baseName := repoBaseName;
    }

    method IsInitialized() returns (r: bool)
      ensures r == TreeState.IsInitialized(State())
    {
      r := config.Some? || ConfigPath in dirs;
    }

    /** `initialize`: the root, the default domains in order, then the configuration. */
    method Initialize(options: PartialConfig) returns (o: Outcome<FsError>)
      requires Valid()
      modifies this
      ensures Valid()
      ensures (o, State()) == TreeState.Initialize(old(State()), options, baseName)
      ensures projectFiles == old(projectFiles)
    {
      var defaults := DefaultConfig(options, baseName);
      dirs := dirs + {Root};
      o := MakeDomainDirectories(defaults.contextTree.defaultDomains);
      if o.Fail? {
        return;
      }
      if ConfigPath in dirs {
        o := Fail(FsError(EISDIR, "open", Some(PathText(ConfigPath))));
        return;
      }
      config := Some(defaults);
    }

    /** The domain loop of `initialize`: `mkdir` each name in order, stopping at the first failure. */
    method MakeDomainDirectories(domains: seq<string>) returns (o: Outcome<FsError>)
      requires Valid() && Root in dirs
      modifies this
      ensures Valid()
      ensures (o, State()) == MakeDomainDirs(old(State()), domains)
      ensures projectFiles == old(projectFiles)
    {
      ghost var d0 := State();
      for i := 0 to |domains|
        invariant MakeDomainDirs(d0, domains) == MakeDomainDirs(State(), domains[i..])
        invariant Valid() && Root in dirs
        invariant projectFiles == old(projectFiles)
      {
        if IsFileAt(State(), AtDomain(domains[i])) {
          o := Fail(FsError(EEXIST, "mkdir", Some(PathText(AtDomain(domains[i])))));
          return;
        }
        assert domains[i..][1..] == domains[i + 1..];
        dirs := dirs + {AtDomain(domains[i])};
      }
      assert domains[|domains|..] == [];
      o := Pass;
    }

    method ReadConfig() returns (r: Result<BitrangerConfig, FsError>)
      ensures r == TreeState.ReadConfig(State())
    {
      r := TreeState.ReadConfig(State());
    }

    method UpdateConfig(updates: PartialConfig) returns (o: Outcome<FsError>)
      requires Valid()
      modifies this
      ensures Valid()
      ensures (o, State()) == TreeState.UpdateConfig(old(State()), updates)
      ensures projectFiles == old(projectFiles)
    {
      var current := ReadConfig();
      match current
      case Failure(e) =>
        o := Fail(e);
      case Success(c) =>
        config := Some(MergeConfig(c, updates));
        o := Pass;
    }

    method ListDomains() returns (r: seq<string>)
      ensures r == TreeState.ListDomains(State())
    {
      r := TreeState.ListDomains(State());
    }

    method ListTopics(domain: string) returns (r: seq<string>)
      ensures r == TreeState.ListTopics(State(), domain)
    {
      r := TreeState.ListTopics(State(), domain);
    }

    method ListMemories(domain: string, topic: string) returns (r: seq<string>)
      ensures r == TreeState.ListMemories(State(), domain, topic)
    {
      r := TreeState.ListMemories(State(), domain, topic);
    }

    method ReadMemory(domain: string, topic: string, filename: string) returns (r: Result<string, FsError>)
      ensures r == TreeState.ReadMemory(State(), domain, topic, filename)
    {
      r := ReadTreeFile(State(), MemoryPath(domain, topic, filename));
    }

    method WriteMemory(domain: string, topic: string, filename: string, content: string) returns (o: Outcome<FsError>)
      requires Valid()
      modifies this
      ensures Valid()
      ensures (o, State()) == TreeState.WriteMemory(old(State()), domain, topic, filename, content)
      ensures projectFiles == old(projectFiles)
    {
      ghost var d := State();
      var made := MakeTopicDir(State(), domain, topic);
      match made
      case Failure(e) =>
        o := Fail(e);
      case Success(d1) =>
        dirs := d1.dirs;
        var p := MemoryPath(domain, topic, filename);
        if p in dirs {
          assert State() == d1 == TreeState.WriteMemory(d, domain, topic, filename, content).1;
          o := Fail(FsError(EISDIR, "open", Some(PathText(p))));
        } else {
          files := files[p := content];
          o := Pass;
        }
    }

    method ReadFile(relativePath: string) returns (r: Result<string, FsError>)
      ensures r == ReadProjectFile(projectFiles, relativePath)
    {
      r := ReadProjectFile(projectFiles, relativePath);
    }

    method DeleteMemory(domain: string, topic: string, filename: string) returns (o: Outcome<FsError>)
      requires Valid()
      modifies this
      ensures Valid()
      ensures (o, State()) == TreeState.DeleteMemory(old(State()), domain, topic, filename)
      ensures projectFiles == old(projectFiles)
    {
      var p := AtEntry(domain, topic, filename);
      if p in files {
        files := files - {p};
        o := Pass;
      } else {
        o := Fail(FsError(MissingCode(State(), p), "unlink", Some(PathText(p))));
      }
    }

    /** `clearTopic`: delete each listed memory in turn; every deletion succeeds. */
    method ClearTopic(domain: string, topic: string) returns (count: nat)
      requires Valid()
      modifies this
      ensures Valid()
      ensures (count, State()) == TreeWalk.ClearTopic(old(State()), domain, topic)
      ensures projectFiles == old(projectFiles)
    {
      ghost var d0 := State();
      var memories := ListMemories(domain, topic);
      ListMemoriesSpec(d0, domain, topic);
      SortedIsDistinct(memories);
      for i := 0 to |memories|
        invariant State() == Delete(d0, Named(domain, topic, memories[..i]))
        invariant Valid()
        invariant projectFiles == old(projectFiles)
      {
        DeleteNamedStep(d0, domain, topic, memories, i);
        var o := DeleteMemory(domain, topic, memories[i]);
        assert o.Pass?;
      }
      assert memories[..|memories|] == memories;
      NamedListed(d0, domain, topic);
      count := |memories|;
    }

    /** `clearDomain`: clear each listed topic in turn and add up the counts. */
    method ClearDomain(domain: string) returns (count: nat)
      requires Valid()
      modifies this
      ensures Valid()
      ensures (count, State()) == TreeWalk.ClearDomain(old(State()), domain)
      ensures projectFiles == old(projectFiles)
    {
      ghost var d0 := State();
      var topics := ListTopics(domain);
      ListTopicsSpec(d0, domain);
      SortedIsDistinct(topics);
      count := 0;
      assert TopicsMemories(d0, domain, []) == {};
      assert Delete(d0, {}) == d0;
      for i := 0 to |topics|
        invariant State() == Delete(d0, TopicsMemories(d0, domain, topics[..i]))
        invariant count == SumMemories(d0, domain, topics[..i])
        invariant Valid()
        invariant projectFiles == old(projectFiles)
      {
        ClearTopicAt(d0, domain, topics, i);
        var c := ClearTopic(domain, topics[i]);
        count := count + c;
      }
      assert topics[..|topics|] == topics;
    }

    /** `clearAll`: clear each listed domain in turn and add up the counts. */
    method ClearAll() returns (count: nat)
      requires Valid()
      modifies this
      ensures Valid()
      ensures (count, State()) == TreeWalk.ClearAll(old(State()))
      ensures projectFiles == old(projectFiles)
    {
      ghost var d0 := State();
      var domains := ListDomains();
      ListDomainsSpec(d0);
      SortedIsDistinct(domains);
      count := 0;
      assert DomainsMemories(d0, []) == {};
      assert Delete(d0, {}) == d0;
      for i := 0 to |domains|
        invariant State() == Delete(d0, DomainsMemories(d0, domains[..i]))
        invariant count == SumDomainFiles(d0, domains[..i])
        invariant Valid()
        invariant projectFiles == old(projectFiles)
      {
        assert domains[i] !in domains[..i];
        assert domains[..i + 1] == domains[..i] + [domains[i]];
        ClearDomainStep(d0, domains[..i], domains[i]);
        var c := ClearDomain(domains[i]);
        count := count + c;
      }
      assert domains[..|domains|] == domains;
    }

    /** `getStats`: one pass over domains, topics and memories. */
    method GetStats() returns (s: Stats)
      ensures s == TreeStats(State())
    {
      ghost var d := State();
      var domains := ListDomains();
      var totalTopics, totalFiles, totalSize := 0, 0, 0;
      var domainInfo: seq<DomainInfo> := [];
      for i := 0 to |domains|
        invariant totalTopics == SumTopics(d, domains[..i])
        invariant totalFiles == SumDomainFiles(d, domains[..i])
        invariant totalSize == DomainsSize(d, domains[..i])
        invariant domainInfo == DomainInfos(d, domains[..i])
      {
        var info, domainSize := DomainStats(domains[i]);
        StatsStep(d, domains, i);
        totalSize := totalSize + domainSize;
        totalTopics := totalTopics + info.topics;
        totalFiles := totalFiles + info.files;
        domainInfo := domainInfo + [info];
      }
      assert domains[..|domains|] == domains;
      s := Stats(|domains|, totalTopics, totalFiles, totalSize, domainInfo);
    }

    /** The statistics of one domain and the total size of its memories. */
    method DomainStats(domain: string) returns (info: DomainInfo, size: nat)
      ensures info == DomainInfoOf(State(), domain)
      ensures size == TopicsSize(State(), domain, TreeState.ListTopics(State(), domain))
    {
      var topics := ListTopics(domain);
      var domainFiles, domainSize := TopicsStats(domain, topics);
      info := DomainInfo(domain, |topics|, domainFiles);
      size := domainSize;
    }

    /** The topic loop of `getStats` for one domain: its memory count and their total size. */
    method TopicsStats(domain: string, topics: seq<string>) returns (count: nat, size: nat)
      ensures count == SumMemories(State(), domain, topics)
      ensures size == TopicsSize(State(), domain, topics)
    {
      count, size := 0, 0;
      for j := 0 to |topics|
        invariant count == SumMemories(State(), domain, topics[..j])
        invariant size == TopicsSize(State(), domain, topics[..j])
      {
        var memories := ListMemories(domain, topics[j]);
        var topicSize := MemoriesSize(domain, topics[j], memories);
        SumMemoriesStep(State(), domain, topics, j);
        TopicsSizeStep(State(), domain, topics, j);
        count := count + |memories|;
        size := size + topicSize;
      }
      assert topics[..|topics|] == topics;
    }

    /** The memory loop of `getStats` for one topic: the sizes of the listed files, added up. */
    method MemoriesSize(domain: string, topic: string, memories: seq<string>) returns (size: nat)
      requires memories == TreeState.ListMemories(State(), domain, topic)
      ensures size == SumSizes(State(), domain, topic, memories)
    {
      ListMemoriesSpec(State(), domain, topic);
      size := 0;
      for k := 0 to |memories|
        invariant size == SumSizes(State(), domain, topic, memories[..k])
      {
        var memoryPath := AtEntry(domain, topic, memories[k]);
        assert memories[k] in memories;
        SumSizesStep(State(), domain, topic, memories, k);
        size := size + |files[memoryPath]|;
      }
      assert memories[..|memories|] == memories;
    }

    /** `getTreeStructure`: the rendered tree, one line per entry, joined by newlines. */
    method GetTreeStructure() returns (r: string)
      ensures r == Join(TreeLines(State()), "\n")
    {
      var domains := ListDomains();
      var lines := BlocksLines(domains);
      r := Join(["context_tree/"] + lines, "\n");
    }

    /** The loop of `getTreeStructure` over the listed domains. */
    method BlocksLines(domains: seq<string>) returns (lines: seq<string>)
      ensures lines == Flatten(DomainBlocksOf(State(), domains))
    {
      ghost var blocks := DomainBlocksOf(State(), domains);
      lines := [];
      for i := 0 to |domains|
        invariant lines == Flatten(blocks[..i])
      {
        var block := DomainLines(domains[i], i == |domains| - 1);
        lines := lines + block;
        assert blocks[..i + 1] == blocks[..i] + [blocks[i]];
        FlattenAppend(blocks[..i], blocks[i]);
      }
      assert blocks[..|domains|] == blocks;
    }

    /** The lines `getTreeStructure` adds for one domain: its own line, then each topic's lines. */
    method DomainLines(domain: string, isLastDomain: bool) returns (block: seq<string>)
      ensures block == DomainBlock(State(), domain, isLastDomain)
    {
      var topics := ListTopics(domain);
      var lines := TopicsLines(domain, isLastDomain, topics);
      block := [DomainLine(isLastDomain, domain)] + lines;
    }

    /** The loop of `getTreeStructure` over the topics of one domain. */
    method TopicsLines(domain: string, isLastDomain: bool, topics: seq<string>) returns (lines: seq<string>)
      ensures lines == Flatten(TopicBlocksOf(State(), domain, isLastDomain, topics))
    {
      ghost var blocks := TopicBlocksOf(State(), domain, isLastDomain, topics);
      lines := [];
      for j := 0 to |topics|
        invariant lines == Flatten(blocks[..j])
      {
        var block := TopicLines(domain, isLastDomain, topics[j], j == |topics| - 1);
        lines := lines + block;
        assert blocks[..j + 1] == blocks[..j] + [blocks[j]];
        FlattenAppend(blocks[..j], blocks[j]);
      }
      assert blocks[..|topics|] == blocks;
    }

    /** The lines `getTreeStructure` adds for one topic: its own line, then one per memory. */
    method TopicLines(domain: string, isLastDomain: bool, topic: string, isLastTopic: bool) returns (lines: seq<string>)
      ensures lines == TopicBlock(State(), domain, isLastDomain, topic, isLastTopic)
    {
      ghost var d := State();
      lines := [TopicLine(isLastDomain, isLastTopic, topic)];
      var memories := ListMemories(domain, topic);
      ghost var mlines := MemoryLines(d, domain, isLastDomain, topic, isLastTopic);
      for k := 0 to |memories|
        invariant lines == [TopicLine(isLastDomain, isLastTopic, topic)] + mlines[..k]
      {
        var isLastMemory := k == |memories| - 1;
        lines := lines + [MemoryLine(isLastDomain, isLastTopic, isLastMemory, memories[k])];
        assert mlines[..k + 1] == mlines[..k] + [mlines[k]];
      }
      assert mlines[..|memories|] == mlines;
    }
  }
}
