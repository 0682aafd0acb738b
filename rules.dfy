/**
 * `gen-rules`: the context tree rendered into one markdown rules file, and
 * that file written for each selected coding agent.
 *
 * The document is a fixed two-line header followed by, for every listed
 * domain that has topics, a `## <domain>` heading and, for every topic that
 * has memories, a `### <topic>` heading and each memory's text; each piece
 * ends with a blank line. `RulesText` gives the document as a value and the
 * method `GenerateRulesContent` builds it with one loop per level of the tree.
 * The command writes the document into the repository's files (a map from
 * repository-relative path to text); its console output is not modelled.
 */
module Rules {
  import opened Wrappers
  import opened Strings
  import opened TreeState
  import Store

  const Title := "# Project Rules for AI Assistants\n\n"

  function Header(projectName: string): string
  {
    Title + "Generated from bitranger context tree for " + projectName + "\n\n"
  }

  /**
   * A memory's text and a blank line. A name the topic's listing gives is
   * always readable (`ListedReadable`), so the second case is never part of
   * a rules document.
   */
  function MemoryBlock(d: Disk, domain: string, topic: string, name: string): string
  {
    match ReadMemory(d, domain, topic, name)
    case Success(c) => c + "\n\n"
    case Failure(_) => ""
  }

  function MemoryBlocks(d: Disk, domain: string, topic: string): string -> string
  {
    name => MemoryBlock(d, domain, topic, name)
  }

  /** A topic's part: nothing when it has no memories, else its heading and its memories in listing order. */
  function TopicSection(d: Disk, domain: string, topic: string): string
  {
    var names := ListMemories(d, domain, topic);
    if |names| == 0 then "" else "### " + topic + "\n\n" + Concat(names, MemoryBlocks(d, domain, topic))
  }

  function TopicSections(d: Disk, domain: string): string -> string
  {
    topic => TopicSection(d, domain, topic)
  }

  /** A domain's part: nothing when it has no topics, else its heading and its topics' parts in listing order. */
  function DomainSection(d: Disk, domain: string): string
  {
    var topics := ListTopics(d, domain);
    if |topics| == 0 then "" else "## " + domain + "\n\n" + Concat(topics, TopicSections(d, domain))
  }

  function DomainSections(d: Disk): string -> string
  {
    domain => DomainSection(d, domain)
  }

  /** The rules document of the tree `d` for the project `projectName`. */
  function RulesText(d: Disk, projectName: string): string
  {
    Header(projectName) + Concat(ListDomains(d), DomainSections(d))
  }

  /** `generateRulesContent`: fails only when the configuration cannot be read. */
  function GenerateRules(d: Disk): Result<string, FsError>
  {
    match ReadConfig(d)
    case Success(config) => Success(RulesText(d, config.projectName))
    case Failure(e) => Failure(e)
  }

  // ---------------------------------------------------------------------------
  // What the document contains
  // ---------------------------------------------------------------------------

  /** Every listed memory can be read, and reading it gives the file's text. */
  lemma ListedReadable(d: Disk, domain: string, topic: string, name: string)
    requires name in ListMemories(d, domain, topic)
    ensures AtEntry(domain, topic, name) in d.files
    ensures ReadMemory(d, domain, topic, name) == Success(d.files[AtEntry(domain, topic, name)])
    ensures MemoryBlock(d, domain, topic, name) == d.files[AtEntry(domain, topic, name)] + "\n\n"
  {
    ListMemoriesSpec(d, domain, topic);
  }

  /** The document opens with the title line and the line naming the project. */
  lemma RulesHeader(d: Disk, projectName: string)
    ensures StartsWith(RulesText(d, projectName), Title + "Generated from bitranger context tree for " + projectName + "\n\n")
  {
    assert RulesText(d, projectName)[..|Header(projectName)|] == Header(projectName);
  }

  /**
   * The skip policy: a domain contributes nothing exactly when it has no
   * topics; a domain with topics opens with its heading, and is only that
   * heading when none of its topics has memories; a topic contributes
   * nothing exactly when it has no memories, and otherwise opens with its
   * heading.
   */
  lemma SkipPolicy(d: Disk, domain: string, topic: string)
    ensures DomainSection(d, domain) == "" <==> |ListTopics(d, domain)| == 0
    ensures |ListTopics(d, domain)| > 0 ==> StartsWith(DomainSection(d, domain), "## " + domain + "\n\n")
    ensures (forall t :: t in ListTopics(d, domain) ==> |ListMemories(d, domain, t)| == 0) && |ListTopics(d, domain)| > 0
            ==> DomainSection(d, domain) == "## " + domain + "\n\n"
    ensures TopicSection(d, domain, topic) == "" <==> |ListMemories(d, domain, topic)| == 0
    ensures |ListMemories(d, domain, topic)| > 0 ==> StartsWith(TopicSection(d, domain, topic), "### " + topic + "\n\n")
  {
    var topics := ListTopics(d, domain);
    if |topics| > 0 {
      var h := "## " + domain + "\n\n";
      assert DomainSection(d, domain) == h + Concat(topics, TopicSections(d, domain));
      assert DomainSection(d, domain)[..|h|] == h;
      if forall t :: t in topics ==> |ListMemories(d, domain, t)| == 0 {
        ConcatEmpty(topics, TopicSections(d, domain));
      }
    }
    var names := ListMemories(d, domain, topic);
    if |names| > 0 {
      var h := "### " + topic + "\n\n";
      assert TopicSection(d, domain, topic)[..|h|] == h;
    }
  }

  /** Every listed memory's text, followed by a blank line, occurs in the document, and so does its topic's heading. */
  lemma MemoryIncluded(d: Disk, projectName: string, domain: string, topic: string, name: string)
    requires domain in ListDomains(d) && topic in ListTopics(d, domain) && name in ListMemories(d, domain, topic)
    ensures AtEntry(domain, topic, name) in d.files
    ensures Contains(RulesText(d, projectName), d.files[AtEntry(domain, topic, name)] + "\n\n")
    ensures Contains(RulesText(d, projectName), "### " + topic + "\n\n")
  {
    ListedReadable(d, domain, topic, name);
    var names := ListMemories(d, domain, topic);
    var k :| 0 <= k < |names| && names[k] == name;
    var body := Concat(names, MemoryBlocks(d, domain, topic));
    ConcatContains(names, MemoryBlocks(d, domain, topic), k);
    var th := "### " + topic + "\n\n";
    assert TopicSection(d, domain, topic) == th + body + "";
    ContainsInContext(body, MemoryBlock(d, domain, topic, name), th, "");
    assert TopicSection(d, domain, topic)[0..|th|] == th;
    assert SliceAt(TopicSection(d, domain, topic), th, 0);
    TopicInDocument(d, projectName, domain, topic, MemoryBlock(d, domain, topic, name));
    TopicInDocument(d, projectName, domain, topic, th);
  }

  /** What occurs in a listed topic's part occurs in its domain's part. */
  lemma TopicInDomain(d: Disk, domain: string, topic: string, s: string)
    requires topic in ListTopics(d, domain)
    requires Contains(TopicSection(d, domain, topic), s)
    ensures Contains(DomainSection(d, domain), s)
  {
    var topics := ListTopics(d, domain);
    var t :| 0 <= t < |topics| && topics[t] == topic;
    var body := Concat(topics, TopicSections(d, domain));
    ConcatContains(topics, TopicSections(d, domain), t);
    ContainsTransitive(body, TopicSection(d, domain, topic), s);
    assert DomainSection(d, domain) == "## " + domain + "\n\n" + body + "";
    ContainsInContext(body, s, "## " + domain + "\n\n", "");
  }

  /** What occurs in a listed topic's part occurs in the document. */
  lemma TopicInDocument(d: Disk, projectName: string, domain: string, topic: string, s: string)
    requires domain in ListDomains(d) && topic in ListTopics(d, domain)
    requires Contains(TopicSection(d, domain, topic), s)
    ensures Contains(RulesText(d, projectName), s)
  {
    TopicInDomain(d, domain, topic, s);
    var domains := ListDomains(d);
    var i :| 0 <= i < |domains| && domains[i] == domain;
    var body := Concat(domains, DomainSections(d));
    ConcatContains(domains, DomainSections(d), i);
    ContainsTransitive(body, DomainSection(d, domain), s);
    assert RulesText(d, projectName) == Header(projectName) + body + "";
    ContainsInContext(body, s, Header(projectName), "");
  }

  /**
   * Listing order is ascending order, and the document follows it: of two
   * listed domains the lesser's part comes first.
   */
  lemma DomainsInOrder(d: Disk, projectName: string, i: nat, j: nat)
    requires i < j < |ListDomains(d)|
    ensures Less(ListDomains(d)[i], ListDomains(d)[j])
    ensures Before(RulesText(d, projectName), DomainSection(d, ListDomains(d)[i]), DomainSection(d, ListDomains(d)[j]))
  {
    var ds := ListDomains(d);
    ListDomainsSpec(d);
    ConcatBefore(ds, DomainSections(d), i, j);
    assert RulesText(d, projectName) == Header(projectName) + Concat(ds, DomainSections(d)) + "";
    BeforeInContext(Concat(ds, DomainSections(d)), DomainSection(d, ds[i]), DomainSection(d, ds[j]), Header(projectName), "");
  }

  /** Within a domain's part, the lesser of two listed topics' parts comes first. */
  lemma TopicsInOrder(d: Disk, domain: string, i: nat, j: nat)
    requires i < j < |ListTopics(d, domain)|
    ensures Less(ListTopics(d, domain)[i], ListTopics(d, domain)[j])
    ensures Before(DomainSection(d, domain), TopicSection(d, domain, ListTopics(d, domain)[i]), TopicSection(d, domain, ListTopics(d, domain)[j]))
  {
    var ts := ListTopics(d, domain);
    ListTopicsSpec(d, domain);
    ConcatBefore(ts, TopicSections(d, domain), i, j);
    assert DomainSection(d, domain) == "## " + domain + "\n\n" + Concat(ts, TopicSections(d, domain)) + "";
    BeforeInContext(Concat(ts, TopicSections(d, domain)), TopicSection(d, domain, ts[i]), TopicSection(d, domain, ts[j]), "## " + domain + "\n\n", "");
  }

  /** Within a topic's part, the lesser of two listed memories' blocks comes first. */
  lemma MemoriesInOrder(d: Disk, domain: string, topic: string, i: nat, j: nat)
    requires i < j < |ListMemories(d, domain, topic)|
    ensures Less(ListMemories(d, domain, topic)[i], ListMemories(d, domain, topic)[j])
    ensures Before(TopicSection(d, domain, topic), MemoryBlock(d, domain, topic, ListMemories(d, domain, topic)[i]), MemoryBlock(d, domain, topic, ListMemories(d, domain, topic)[j]))
  {
    var ms := ListMemories(d, domain, topic);
    ListMemoriesSpec(d, domain, topic);
    ConcatBefore(ms, MemoryBlocks(d, domain, topic), i, j);
    assert TopicSection(d, domain, topic) == "### " + topic + "\n\n" + Concat(ms, MemoryBlocks(d, domain, topic)) + "";
    BeforeInContext(Concat(ms, MemoryBlocks(d, domain, topic)), MemoryBlock(d, domain, topic, ms[i]), MemoryBlock(d, domain, topic, ms[j]), "### " + topic + "\n\n", "");
  }

  /** A tree with no topic directories renders as the header alone. */
  lemma NoTopicsNoRules(d: Disk, projectName: string)
    requires forall a, b :: AtTopic(a, b) !in d.dirs
    ensures RulesText(d, projectName) == Header(projectName)
  {
    forall n | n in ListDomains(d)
      ensures |ListTopics(d, n)| == 0
    {
      assert TopicDirs(d, n) == {};
      SortedOfSpec(TopicDirs(d, n));
    }
    ConcatEmpty(ListDomains(d), DomainSections(d));
  }

  /** Right after a successful `initialize` on a tree with no topics, the document is the header alone: the default domains have no topics yet. */
  lemma FreshTreeRules(d: Disk, options: PartialConfig, baseName: string)
    requires Initialize(d, options, baseName).0.Pass?
    requires forall a, b :: AtTopic(a, b) !in d.dirs
    ensures GenerateRules(Initialize(d, options, baseName).1) == Success(Header(DefaultConfig(options, baseName).projectName))
  {
    InitializeSpec(d, options, baseName);
    var e := Initialize(d, options, baseName).1;
    assert forall a, b :: AtTopic(a, b) !in e.dirs;
    NoTopicsNoRules(e, DefaultConfig(options, baseName).projectName);
  }

  // ---------------------------------------------------------------------------
  // The command: agents, merge and output
  // ---------------------------------------------------------------------------

  /** `--agent`: `both` stands for the two known agents, cursor first; anything else for itself. */
  function AgentsOf(agent: string): (r: seq<string>)
    ensures agent == "both" ==> r == ["cursor", "claude-code"]
    ensures agent != "both" ==> r == [agent]
  {
    if agent == "both" then ["cursor", "claude-code"] else [agent]
  }

  /** The configured rules file of a known agent, relative to the repository; none for an unknown one. */
  function RulesFile(config: BitrangerConfig, agent: string): (r: Option<string>)
    ensures r.Some? <==> agent == "cursor" || agent == "claude-code"
    ensures agent == "cursor" ==> r == Some(config.agents.cursor.rulesFile)
    ensures agent == "claude-code" ==> r == Some(config.agents.claudeCode.rulesFile)
  {
    if agent == "cursor" then Some(config.agents.cursor.rulesFile)
    else if agent == "claude-code" then Some(config.agents.claudeCode.rulesFile)
    else None
  }

  /** `--merge`: the existing file, a rule and the new document; a missing file is ignored. */
  function Merged(existing: Option<string>, rules: string, merge: bool): (r: string)
    ensures merge && existing.Some? ==> r == existing.value + "\n\n---\n\n" + rules
    ensures !merge || existing.None? ==> r == rules
  {
    if merge && existing.Some? then existing.value + "\n\n---\n\n" + rules else rules
  }

  function Existing(files: map<string, string>, path: string): Option<string>
  {
    if path in files then Some(files[path]) else None
  }

  const NotInitialized := "bitranger not initialized in this repository"

  /** The agents' files written in order; an unknown agent stops the command, keeping the files already written. */
  function WriteAgents(files: map<string, string>, agents: seq<string>, config: BitrangerConfig, rules: string, merge: bool): (Outcome<string>, map<string, string>)
    decreases |agents|
  {
    if |agents| == 0 then (Pass, files)
    else match RulesFile(config, agents[0])
      case None => (Fail("Unknown agent type: " + agents[0]), files)
      case Some(p) => WriteAgents(files[p := Merged(Existing(files, p), rules, merge)], agents[1..], config, rules, merge)
  }

  /**
   * `gen-rules` on the tree `d` and the repository's files `files`: the
   * outcome (the message printed after `Error: `) and the files afterwards.
   * A non-empty `--output` receives the document as it is.
   */
  function GenRulesSpec(d: Disk, files: map<string, string>, agent: string, output: Option<string>, merge: bool): (Outcome<string>, map<string, string>)
  {
    if !IsInitialized(d) then (Fail(NotInitialized), files)
    else match GenerateRules(d)
      case Failure(e) => (Fail(Message(e)), files)
      case Success(rules) =>
        if output.Some? && output.value != "" then (Pass, files[output.value := rules])
        else WriteAgents(files, AgentsOf(agent), ReadConfig(d).value, rules, merge)
  }

  /** An uninitialised repository, an unreadable configuration or an unknown agent writes nothing. */
  lemma GenRulesErrors(d: Disk, files: map<string, string>, agent: string, output: Option<string>, merge: bool)
    ensures !IsInitialized(d) ==> GenRulesSpec(d, files, agent, output, merge) == (Fail(NotInitialized), files)
    ensures IsInitialized(d) && d.config.None? ==>
      GenRulesSpec(d, files, agent, output, merge) == (Fail("EISDIR: illegal operation on a directory, read"), files)
    ensures d.config.Some? && (output.None? || output.value == "") && agent !in {"both", "cursor", "claude-code"} ==>
      GenRulesSpec(d, files, agent, output, merge) == (Fail("Unknown agent type: " + agent), files)
  {
  }

  /**
   * A successful run writes each selected agent's rules file, relative to
   * the repository: with `both` and two different files, cursor's and
   * claude-code's both receive the document (merged with what they held,
   * under `--merge`), and no other file changes.
   */
  lemma GenRulesBoth(d: Disk, files: map<string, string>, merge: bool)
    requires d.config.Some?
    requires d.config.value.agents.cursor.rulesFile != d.config.value.agents.claudeCode.rulesFile
    ensures var c := d.config.value; var rules := RulesText(d, c.projectName);
      var (o, e) := GenRulesSpec(d, files, "both", None, merge);
      var cur, cc := c.agents.cursor.rulesFile, c.agents.claudeCode.rulesFile;
      && o == Pass
      && e.Keys == files.Keys + {cur, cc}
      && e[cur] == Merged(Existing(files, cur), rules, merge)
      && e[cc] == Merged(Existing(files, cc), rules, merge)
      && (forall p :: p in files && p != cur && p != cc ==> e[p] == files[p])
  {
    var c := d.config.value;
    var rules := RulesText(d, c.projectName);
    var cur, cc := c.agents.cursor.rulesFile, c.agents.claudeCode.rulesFile;
    assert IsInitialized(d);
    assert GenerateRules(d) == Success(rules);
    var f1 := files[cur := Merged(Existing(files, cur), rules, merge)];
    var f2 := f1[cc := Merged(Existing(files, cc), rules, merge)];
    assert Existing(f1, cc) == Existing(files, cc);
    assert ["cursor", "claude-code"][1..] == ["claude-code"];
    assert ["claude-code"][1..] == [];
    assert WriteAgents(f2, [], c, rules, merge) == (Pass, f2);
    assert WriteAgents(f1, ["claude-code"], c, rules, merge) == (Pass, f2);
    assert WriteAgents(files, ["cursor", "claude-code"], c, rules, merge) == (Pass, f2);
    assert GenRulesSpec(d, files, "both", None, merge) == (Pass, f2);
  }

  /** With a single known agent only its file changes; a custom output file gets the document unmerged. */
  lemma GenRulesOne(d: Disk, files: map<string, string>, agent: string, output: Option<string>, merge: bool)
    requires d.config.Some? && (agent == "cursor" || agent == "claude-code")
    ensures var c := d.config.value; var rules := RulesText(d, c.projectName);
      var (o, e) := GenRulesSpec(d, files, agent, output, merge);
      && o == Pass
      && (output.Some? && output.value != "" ==> e == files[output.value := rules])
      && (output.None? || output.value == "" ==> e == files[RulesFile(c, agent).value := Merged(Existing(files, RulesFile(c, agent).value), rules, merge)])
  {
    var c := d.config.value;
    var rules := RulesText(d, c.projectName);
    assert IsInitialized(d);
    assert GenerateRules(d) == Success(rules);
    var p := RulesFile(c, agent).value;
    var f1 := files[p := Merged(Existing(files, p), rules, merge)];
    assert AgentsOf(agent) == [agent];
    assert [agent][1..] == [];
    assert WriteAgents(f1, [], c, rules, merge) == (Pass, f1);
    assert WriteAgents(files, [agent], c, rules, merge) == (Pass, f1);
  }

  // ---------------------------------------------------------------------------
  // The generator and the command over a store
  // ---------------------------------------------------------------------------

  /** `generateRulesContent`: the document built piece by piece over domains, topics and memories. */
  method GenerateRulesContent(store: Store.ContextTreeStore) returns (r: Result<string, FsError>)
    ensures r == GenerateRules(store.State())
  {
    var config := store.ReadConfig();
    if config.Failure? {
      return Failure(config.error);
    }
    var domains := store.ListDomains();
    ghost var f := DomainSections(store.State());
    var h := Title;
    h := h + "Generated from bitranger context tree for " + config.value.projectName + "\n\n";
    var content := h;
    for i := 0 to |domains|
      invariant content == h + Concat(domains[..i], f)
    {
      var section := DomainContent(store, domains[i]);
      ConcatStep(h, domains, f, i, content, section);
      content := content + section;
    }
    assert domains[..|domains|] == domains;
    return Success(content);
  }

  /** One domain's part: skipped when it has no topics. */
  method DomainContent(store: Store.ContextTreeStore, domain: string) returns (s: string)
    ensures s == DomainSection(store.State(), domain)
  {
    var topics := store.ListTopics(domain);
    if |topics| == 0 {
      return "";
    }
    ghost var f := TopicSections(store.State(), domain);
    var h := "## " + domain + "\n\n";
    s := h;
    for j := 0 to |topics|
      invariant s == h + Concat(topics[..j], f)
    {
      var section := TopicContent(store, domain, topics[j]);
      ConcatStep(h, topics, f, j, s, section);
      s := s + section;
    }
    assert topics[..|topics|] == topics;
  }

  /** One topic's part: skipped when it has no memories. */
  method TopicContent(store: Store.ContextTreeStore, domain: string, topic: string) returns (s: string)
    ensures s == TopicSection(store.State(), domain, topic)
  {
    var memories := store.ListMemories(domain, topic);
    if |memories| == 0 {
      return "";
    }
    var part := MemoriesContent(store, domain, topic, memories);
    s := "### " + topic + "\n\n" + part;
  }

  /** The loop over one topic's listed memories: each is read and appended with a blank line. */
  method MemoriesContent(store: Store.ContextTreeStore, domain: string, topic: string, memories: seq<string>) returns (s: string)
    requires memories == TreeState.ListMemories(store.State(), domain, topic)
    ensures s == Concat(memories, MemoryBlocks(store.State(), domain, topic))
  {
    ghost var f := MemoryBlocks(store.State(), domain, topic);
    s := "";
    for k := 0 to |memories|
      invariant s == "" + Concat(memories[..k], f)
    {
      ListedReadable(store.State(), domain, topic, memories[k]);
      var memory := store.ReadMemory(domain, topic, memories[k]);
      ConcatStep("", memories, f, k, s, memory.value + "\n\n");
      s := s + (memory.value + "\n\n");
    }
    assert memories[..|memories|] == memories;
  }

  /** `gen-rules` over a store whose `projectFiles` are the repository's files. */
  method GenRules(store: Store.ContextTreeStore, agent: string, output: Option<string>, merge: bool) returns (o: Outcome<string>)
    modifies store
    ensures store.State() == old(store.State())
    ensures o == GenRulesSpec(old(store.State()), old(store.projectFiles), agent, output, merge).0
    ensures store.projectFiles == GenRulesSpec(old(store.State()), old(store.projectFiles), agent, output, merge).1
  {
    var initialized := store.IsInitialized();
    if !initialized {
      return Fail(NotInitialized);
    }
    var config := store.ReadConfig();
    if config.Failure? {
      return Fail(Message(config.error));
    }
    var rules := GenerateRulesContent(store);
    if output.Some? && output.value != "" {
      store.projectFiles := store.projectFiles[output.value := rules.value];
      return Pass;
    }
    var agents := AgentsOf(agent);
    ghost var files0 := store.projectFiles;
    for i := 0 to |agents|
      invariant store.State() == old(store.State())
      invariant WriteAgents(files0, agents, config.value, rules.value, merge) == WriteAgents(store.projectFiles, agents[i..], config.value, rules.value, merge)
    {
      var path := RulesFile(config.value, agents[i]);
      assert agents[i..][1..] == agents[i + 1..];
      if path.None? {
        return Fail("Unknown agent type: " + agents[i]);
      }
      var existing := if path.value in store.projectFiles then Some(store.projectFiles[path.value]) else None;
      store.projectFiles := store.projectFiles[path.value := Merged(existing, rules.value, merge)];
    }
    return Pass;
  }
}
